/** Runs of `GetPut` that do go wrong, and runs whose transfers do not overlap. */
module GetPutRuns {
  import opened Paths
  import opened Drive
  import opened GetPut

  // ---- How stale bytes come to be served --------------------------------------------

  /** An open has just been answered with `live` by Drive, and the bytes it will stream are those of `stored`. */
  predicate ServesInstead(g: State, j: nat, live: Version, stored: Version) {
    g.history != [] && Current(g) == live && g.file == Some(stored) && stored.bytes != live.bytes &&
    j in g.jobs && g.jobs[j] == Hit(live, g.landings)
  }

  lemma {:induction false} Then(g: State, steps: seq<Step>, step: Step) returns (more: seq<Step>)
    requires Runs(g, steps) && Possible(Final(g, steps), step)
    ensures more == steps + [step] && Runs(g, more) && Final(g, more) == Next(Final(g, steps), step)
    decreases |steps|
  {
    more := steps + [step];
    if steps == [] {
      assert more[0] == step && more[1..] == [];
      assert Runs(Next(g, step), []);
    } else {
      var rest := Then(Next(g, steps[0]), steps[1..], step);
      assert more[0] == steps[0] && more[1..] == rest;
    }
  }

  /** A worker's whole download, from a cache without a stat and a record. */
  lemma {:induction false} WholeGet(g: State, steps: seq<Step>, j: nat) returns (more: seq<Step>)
    requires Runs(g, steps)
    requires var g' := Final(g, steps);
      g'.history != [] && g'.stat == None && g'.row == None && j !in g'.jobs
    ensures Runs(g, more)
    ensures var g', g1 := Final(g, steps), Final(g, more);
      && g1.history == g'.history && g1.row == Some(Current(g').time) && g1.file == Some(Current(g'))
      && g1.jobs == g'.jobs
  {
    var g' := Final(g, steps);
    more := Then(g, steps, StartGet(j));
    more := Then(g, more, TakeStat(j));
    more := Then(g, more, Begin(j));
    more := Then(g, more, Land(j, |g'.history| - 1));
    more := Then(g, more, Record(j));
    assert Final(g, more).jobs == g'.jobs;
  }

  /** An open of a recorded copy, up to its live check. */
  lemma {:induction false} OpenAgain(g: State, steps: seq<Step>, j: nat) returns (more: seq<Step>)
    requires Runs(g, steps)
    requires var g' := Final(g, steps);
      && g'.history != [] && g'.row == Some(Current(g').time) && j !in g'.jobs
      && g'.file.Some? && g'.file.value.bytes != Current(g').bytes
    ensures more == steps + [StartGet(j), LiveCheck(j, false)]
    ensures Runs(g, more) && ServesInstead(Final(g, more), j, Current(Final(g, steps)), Final(g, steps).file.value)
  {
    more := Then(g, steps, StartGet(j));
    more := Then(g, more, LiveCheck(j, false));
    assert [StartGet(j)] + [LiveCheck(j, false)] == [StartGet(j), LiveCheck(j, false)];
  }

  /** A slow download begins, Drive changes, another worker downloads and records the new version, and
      then the slow one brings the old. */
  lemma {:induction false} SlowDownloadIsServedStale(before: Version, after: Version) returns (steps: seq<Step>)
    requires before.time < after.time && before.bytes != after.bytes
    ensures Runs(Cold([before]), steps)
    ensures exists j :: ServesInstead(Final(Cold([before]), steps), j, after, before)
  {
    var g0 := Cold([before]);
    steps := Then(g0, [], StartGet(0));
    steps := Then(g0, steps, TakeStat(0));
    steps := Then(g0, steps, Begin(0));
    steps := Then(g0, steps, RemoteWrite(after));
    steps := Then(g0, steps, StatDrop);
    steps := WholeGet(g0, steps, 1);
    steps := Then(g0, steps, Land(0, 0));
    steps := OpenAgain(g0, steps, 2);
  }

  /** A save is uploaded, Drive changes, another worker downloads and records the new version, and then
      the save's copy comes. */
  lemma {:induction false} LateCopyIsServedStale(before: Version, saved: Version, after: Version)
    returns (steps: seq<Step>)
    requires before.time < saved.time < after.time && saved.bytes != after.bytes
    ensures Runs(Cold([before]), steps)
    ensures exists j :: ServesInstead(Final(Cold([before]), steps), j, after, saved)
  {
    var g0 := Cold([before]);
    steps := Then(g0, [], PutUpload(0, saved));
    steps := Then(g0, steps, RemoteWrite(after));
    steps := WholeGet(g0, steps, 1);
    steps := Then(g0, steps, PutCopy(0));
    steps := OpenAgain(g0, steps, 2);
  }

  lemma {:induction false} SaveIsOvertaken(before: Version, saved: Version, after: Version)
    returns (steps: seq<Step>)
    requires before.time < saved.time < after.time
    ensures steps == [PutUpload(0, saved), PutCopy(0), RemoteWrite(after)] && Runs(Cold([before]), steps)
    ensures Final(Cold([before]), steps) ==
            State([before, saved, after], None, None, Some(saved), 1, map[0 := Copied(saved)])
  {
    var g0 := Cold([before]);
    steps := Then(g0, [], PutUpload(0, saved));
    steps := Then(g0, steps, PutCopy(0));
    steps := Then(g0, steps, RemoteWrite(after));
    assert Final(g0, steps).history == [before, saved, after];
  }

  /** A save reads the time it records after its upload: a write in between labels the saved bytes with
      the later time. No other transfer is needed. */
  lemma {:induction false} OvertakenRecordIsServedStale(before: Version, saved: Version, after: Version)
    returns (steps: seq<Step>)
    requires before.time < saved.time < after.time && saved.bytes != after.bytes
    ensures Runs(Cold([before]), steps)
    ensures exists j :: ServesInstead(Final(Cold([before]), steps), j, after, saved)
    ensures forall step :: step in steps ==> !step.Begin? && !step.Land?
  {
    var g0 := Cold([before]);
    steps := SaveIsOvertaken(before, saved, after);
    steps := Then(g0, steps, PutStat(0));
    steps := Then(g0, steps, PutRecord(0));
    steps := OpenAgain(g0, steps, 1);
  }

  // ---- Transfers that do not overlap ------------------------------------------------

  /** From the beginning of a download or the end of an upload until the time is recorded. */
  predicate Transfers(job: Job) {
    job.Fetching? || job.Landed? || job.Uploaded? || job.Copied? || job.Restatted?
  }

  /** A download begins, or an upload ends, only while no other transfer is under way. */
  predicate Apart(g: State, step: Step) {
    step.Begin? || step.PutUpload? ==> forall j :: j in g.jobs ==> !Transfers(g.jobs[j])
  }

  predicate ApartRun(g: State, steps: seq<Step>)
    requires Runs(g, steps)
    decreases |steps|
  {
    steps == [] || (Apart(g, steps[0]) && ApartRun(Next(g, steps[0]), steps[1..]))
  }

  /** A save reads Drive's present time for its stored copy when Drive no longer holds the saved version. */
  predicate Overtaken(g: State, step: Step)
    requires Possible(g, step)
  {
    step.PutStat? && g.file.Some? && StatTime(g) == Current(g).time && g.jobs[step.job].version != Current(g)
  }

  predicate SomeOvertaken(g: State, steps: seq<Step>)
    requires Runs(g, steps)
    decreases |steps|
  {
    steps != [] && (Overtaken(g, steps[0]) || SomeOvertaken(Next(g, steps[0]), steps[1..]))
  }

  /** The record, and what opens under way count on, is no later than `t`. */
  predicate Below(g: State, t: int) {
    && (g.row.Some? ==> g.row.value <= t)
    && (forall j :: j in g.jobs && g.jobs[j].GotRow? ==> g.jobs[j].time <= t)
    && forall j :: j in g.jobs && g.jobs[j].Hit? ==> g.jobs[j].seen.time <= t
  }

  predicate AloneOk(g: State, job: Job) {
    match job
    case Fetching(_, from) => from < |g.history| && Below(g, g.history[from].time)
    case Uploaded(version) => Below(g, version.time)
    case Copied(version) => g.file.Some? ==> g.file.value == version
    case _ => true
  }

  predicate Alone(g: State) {
    && (forall i, j :: i in g.jobs && j in g.jobs && Transfers(g.jobs[i]) && Transfers(g.jobs[j]) ==> i == j)
    && forall j :: j in g.jobs ==> AloneOk(g, g.jobs[j])
  }

  lemma {:induction false} BelowNow(g: State)
    requires Inv(g)
    ensures Below(g, Current(g).time)
  {
    forall j | j in g.jobs
      ensures g.jobs[j].GotRow? ==> g.jobs[j].time <= Current(g).time
      ensures g.jobs[j].Hit? ==> g.jobs[j].seen.time <= Current(g).time
    {
      assert JobOk(g, g.jobs[j]);
      if g.jobs[j].Hit? { LatestIsCurrent(g, g.jobs[j].seen); }
    }
  }

  lemma {:induction false} BelowMayHold(g: State, j: nat, t: int, v: Version)
    requires Inv(g) && Alone(g) && j in g.jobs && (g.jobs[j].Fetching? || g.jobs[j].Uploaded?)
    requires Below(g, t) && t <= v.time && v in g.history
    ensures MayHold(g, v)
  {
    LatestIsCurrent(g, v);
    forall i | i in g.jobs
      ensures Stands(g, g.jobs[i], v)
    {
    }
  }

  /** With one transfer at a time, a step can do harm only by an overtaken save. */
  lemma {:induction false} HarmlessIff(g: State, step: Step)
    requires Inv(g) && Alone(g) && Possible(g, step)
    ensures Harmless(g, step) <==> !Overtaken(g, step)
  {
    if step.Land? {
      var from := g.jobs[step.job].from;
      assert AloneOk(g, g.jobs[step.job]);
      BelowMayHold(g, step.job, g.history[from].time, g.history[step.index]);
    } else if step.PutCopy? {
      var v := g.jobs[step.job].version;
      assert AloneOk(g, g.jobs[step.job]) && JobOk(g, g.jobs[step.job]);
      BelowMayHold(g, step.job, v.time, v);
    } else if step.PutStat? {
      assert AloneOk(g, g.jobs[step.job]);
    }
  }

  /** The steps that carry a transfer on. */
  predicate OfTransfer(step: Step) {
    step.Begin? || step.Land? || step.Record? || step.PutUpload? || step.PutCopy? || step.PutStat? || step.PutRecord?
  }

  /** A transfer starts: it is the only one, and nothing counts on more than Drive's present content. */
  lemma {:induction false} StartKeepsAlone(g: State, step: Step)
    requires Inv(g) && Possible(g, step) && Apart(g, step) && (step.Begin? || step.PutUpload?)
    ensures Alone(Next(g, step))
  {
    var g' := Next(g, step);
    BelowNow(g);
    assert Below(g', Current(g).time);
    forall i | i in g'.jobs && i != step.job
      ensures !Transfers(g'.jobs[i])
    {
      assert g'.jobs[i] == g.jobs[i];
    }
  }

  /** The one transfer goes on: no other job's condition is at stake. */
  lemma {:induction false} OwnStepKeepsAlone(g: State, step: Step)
    requires Inv(g) && Alone(g) && Possible(g, step) && Apart(g, step) && OfTransfer(step)
    ensures Alone(Next(g, step))
  {
    if step.Begin? || step.PutUpload? {
      StartKeepsAlone(g, step);
    } else {
      var g' := Next(g, step);
      assert Transfers(g.jobs[step.job]);
      forall i | i in g'.jobs && i != step.job
        ensures !Transfers(g'.jobs[i])
      {
        assert g'.jobs[i] == g.jobs[i];
      }
    }
  }

  /** Any other step raises nothing that a transfer relies on. */
  lemma {:induction false} BelowStays(g: State, step: Step, t: int)
    requires Possible(g, step) && !OfTransfer(step) && Below(g, t)
    ensures Below(Next(g, step), t)
  {
    var g' := Next(g, step);
    if step.LiveCheck? {
      assert g.jobs[step.job].time <= t;
    }
  }

  lemma {:induction false} OtherStepKeepsAlone(g: State, step: Step)
    requires Inv(g) && Alone(g) && Possible(g, step) && !OfTransfer(step)
    ensures Alone(Next(g, step))
  {
    var g' := Next(g, step);
    forall i | i in g'.jobs && Transfers(g'.jobs[i])
      ensures i in g.jobs && g'.jobs[i] == g.jobs[i]
    {
    }
    forall i | i in g'.jobs && Transfers(g'.jobs[i])
      ensures AloneOk(g', g'.jobs[i])
    {
      OtherStepKeepsOne(g, step, g.jobs[i]);
    }
  }

  lemma {:induction false} OtherStepKeepsOne(g: State, step: Step, job: Job)
    requires Possible(g, step) && !OfTransfer(step) && AloneOk(g, job)
    ensures AloneOk(Next(g, step), job)
  {
    if job.Fetching? {
      BelowStays(g, step, g.history[job.from].time);
    } else if job.Uploaded? {
      BelowStays(g, step, job.version.time);
    }
  }

  /** With one transfer at a time, stale bytes can be served exactly when a save is overtaken by another
      write between its upload and its stat. */
  lemma {:induction false} ApartStaleIff(g: State, steps: seq<Step>)
    requires Inv(g) && Alone(g) && Runs(g, steps) && ApartRun(g, steps)
    ensures NeverStale(g, steps) <==> !SomeOvertaken(g, steps)
    decreases |steps|
  {
    InvIsNeverStale(g);
    if steps != [] {
      HarmlessIff(g, steps[0]);
      StepStaleIff(g, steps[0]);
      if Harmless(g, steps[0]) {
        NextKeepsInv(g, steps[0]);
        if OfTransfer(steps[0]) {
          OwnStepKeepsAlone(g, steps[0]);
        } else {
          OtherStepKeepsAlone(g, steps[0]);
        }
        ApartStaleIff(Next(g, steps[0]), steps[1..]);
      }
    }
  }

  // ---- Files without a record -------------------------------------------------------

  /** A transfer whose content is stored and whose record is still to come. */
  predicate Holds(job: Job) {
    job.Landed? || job.Copied? || job.Restatted?
  }

  /** A stored file is on record, or about to be; the sweep finds files by their records only. */
  predicate Accounted(g: State) {
    g.file.Some? ==> g.row.Some? || exists j :: j in g.jobs && Holds(g.jobs[j])
  }

  /** The last transfer that could record the stored file stops without recording it or removing it. */
  predicate Abandons(g: State, step: Step) {
    && step.Dies? && g.file.Some? && g.row.None?
    && forall j :: j in g.jobs && j != step.job ==> !Holds(g.jobs[j])
  }

  /** A step leaves a file without a record exactly when it is such a stop: aborted and failed transfers
      remove their file. */
  lemma {:induction false} AccountedIff(g: State, step: Step)
    requires Accounted(g) && Possible(g, step)
    ensures Accounted(Next(g, step)) <==> !Abandons(g, step)
  {
    var g' := Next(g, step);
    if g'.file.Some? && g'.row.None? {
      if step.Land? || step.PutCopy? || step.PutStat? {
        assert Holds(g'.jobs[step.job]);
      } else {
        var j :| j in g.jobs && Holds(g.jobs[j]) && (step.Dies? && !Abandons(g, step) ==> j != step.job);
        if j in g'.jobs { assert g'.jobs[j] == g.jobs[j]; }
      }
    }
  }

  predicate SomeAbandon(g: State, steps: seq<Step>)
    requires Runs(g, steps)
    decreases |steps|
  {
    steps != [] && (Abandons(g, steps[0]) || SomeAbandon(Next(g, steps[0]), steps[1..]))
  }

  /** So whatever interleaves, every stored file ends up on record or in the hands of a transfer, unless a
      worker stopped between storing and recording. */
  lemma {:induction false} FilesAreAccounted(g: State, steps: seq<Step>)
    requires Accounted(g) && Runs(g, steps) && !SomeAbandon(g, steps)
    ensures Accounted(Final(g, steps))
    decreases |steps|
  {
    if steps != [] {
      AccountedIff(g, steps[0]);
      FilesAreAccounted(Next(g, steps[0]), steps[1..]);
    }
  }
}
