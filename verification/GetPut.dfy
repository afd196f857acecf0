/** Opening and saving one file through the opportunistic cache, with any number of workers
    interleaved with remote writes, stat-cache fills and evictions. A version is what Drive held
    at some time; each has a later modification time than the one before. A download brings some
    version that Drive held between its start and its end. */
module GetPut {
  import opened Paths
  import opened Drive

  datatype Version = Version(time: int, bytes: Bytes)

  /** Where a call to `get()` or `put()` stands. */
  datatype Job =
    | GotRow(time: int)
    | Hit(seen: Version, landings: nat)
    | Missed
    | Statted(time: int)
    | Fetching(time: int, from: nat)
    | Landed(time: int)
    | Uploaded(version: Version)
    | Copied(version: Version)
    | Restatted(version: Version, time: int)

  /** `history` ends with Drive's current version; `stat` is the cached stat's time, `row` the
      recorded time and `file` the version whose bytes are in the cache directory. */
  datatype State = State(
    history: seq<Version>,
    stat: Option<int>,
    row: Option<int>,
    file: Option<Version>,
    landings: nat,
    jobs: map<nat, Job>)

  datatype Step =
    | RemoteWrite(version: Version)
    | StatFill(index: nat)
    | StatDrop
    | Evict
    | StartGet(job: nat)
    | LiveCheck(job: nat, stuck: bool)
    | CheckFails(job: nat)
    | Serve(job: nat)
    | TakeStat(job: nat)
    | Begin(job: nat)
    | Land(job: nat, index: nat)
    | Record(job: nat)
    | Abort(job: nat)
    | PutUpload(job: nat, version: Version)
    | PutCopy(job: nat)
    | CopyFails(job: nat)
    | PutStat(job: nat)
    | PutRecord(job: nat)
    | Dies(job: nat)

  function Current(g: State): Version
    requires g.history != []
  {
    g.history[|g.history| - 1]
  }

  /** What may happen at all: each new version is later than the one before. */
  predicate Possible(g: State, step: Step) {
    g.history != [] &&
    match step
    case RemoteWrite(version) => version.time > Current(g).time
    case StatFill(i) => i < |g.history|
    case StatDrop => true
    case Evict => true
    case StartGet(j) => j !in g.jobs
    case LiveCheck(j, _) => j in g.jobs && g.jobs[j].GotRow?
    case CheckFails(j) => j in g.jobs && g.jobs[j].GotRow?
    case Serve(j) => j in g.jobs && g.jobs[j].Hit?
    case TakeStat(j) => j in g.jobs && g.jobs[j].Missed?
    case Begin(j) => j in g.jobs && g.jobs[j].Statted?
    case Land(j, i) => Arrives(g, j, i)
    case Record(j) => j in g.jobs && g.jobs[j].Landed?
    case Abort(j) => j in g.jobs && (g.jobs[j].Statted? || g.jobs[j].Fetching? || g.jobs[j].Landed?)
    case PutUpload(j, version) => j !in g.jobs && version.time > Current(g).time
    case PutCopy(j) => j in g.jobs && g.jobs[j].Uploaded?
    case CopyFails(j) => j in g.jobs && g.jobs[j].Uploaded?
    case PutStat(j) => j in g.jobs && g.jobs[j].Copied?
    case PutRecord(j) => j in g.jobs && g.jobs[j].Restatted?
    case Dies(j) => j in g.jobs
  }

  /** A download may bring any version that was current since it began. */
  predicate Arrives(g: State, j: nat, i: nat) {
    j in g.jobs && g.jobs[j].Fetching? && g.jobs[j].from <= i < |g.history|
  }

  /** `stat_path`: the cached time if there is one, else the live one, which is then cached. */
  function StatTime(g: State): int
    requires g.history != []
  {
    if g.stat.Some? then g.stat.value else Current(g).time
  }

  /** `lookup_cached` on a recorded copy: a hit, or the outdated copy goes unless it is stuck. */
  function CheckLive(g: State, j: nat, stuck: bool): State
    requires g.history != [] && j in g.jobs && g.jobs[j].GotRow?
  {
    var now := Current(g);
    var g1 := g.(stat := Some(now.time));
    if now.time == g.jobs[j].time then g1.(jobs := g.jobs[j := Hit(now, g.landings)])
    else if stuck then g1.(jobs := g.jobs[j := Missed])
    else g1.(row := None, file := None, jobs := g.jobs[j := Missed])
  }

  /** Content arrives in the cache directory. */
  function Bring(g: State, j: nat, v: Version, job: Job): State {
    g.(file := Some(v), landings := g.landings + 1, jobs := g.jobs[j := job])
  }

  function RecordTime(g: State, j: nat): State
    requires j in g.jobs && (g.jobs[j].Landed? || g.jobs[j].Restatted?)
  {
    g.(row := Some(g.jobs[j].time), jobs := g.jobs - {j})
  }

  function Next(g: State, step: Step): State
    requires Possible(g, step)
  {
    match step
    case RemoteWrite(version) => g.(history := g.history + [version])
    case StatFill(i) => g.(stat := Some(g.history[i].time))
    case StatDrop => g.(stat := None)
    case Evict => g.(row := None, file := None)
    case StartGet(j) => g.(jobs := g.jobs[j := if g.row.Some? && g.file.Some? then GotRow(g.row.value) else Missed])
    case LiveCheck(j, stuck) => CheckLive(g, j, stuck)
    case CheckFails(j) => g.(jobs := g.jobs[j := Missed])
    case Serve(j) => g.(jobs := g.jobs - {j})
    case TakeStat(j) => g.(stat := Some(StatTime(g)), jobs := g.jobs[j := Statted(StatTime(g))])
    case Begin(j) => g.(jobs := g.jobs[j := Fetching(g.jobs[j].time, |g.history| - 1)])
    case Land(j, i) => Bring(g, j, g.history[i], Landed(g.jobs[j].time))
    case Record(j) => RecordTime(g, j)
    case Abort(j) => g.(file := None, jobs := g.jobs - {j})
    case PutUpload(j, version) => g.(history := g.history + [version], jobs := g.jobs[j := Uploaded(version)])
    case PutCopy(j) => Bring(g, j, g.jobs[j].version, Copied(g.jobs[j].version))
    case CopyFails(j) => g.(file := None, jobs := g.jobs - {j})
    case PutStat(j) => g.(stat := Some(StatTime(g)), jobs := g.jobs[j := Restatted(g.jobs[j].version, StatTime(g))])
    case PutRecord(j) => RecordTime(g, j)
    case Dies(j) => g.(jobs := g.jobs - {j})
  }

  predicate Runs(g: State, steps: seq<Step>)
    decreases |steps|
  {
    steps == [] || (Possible(g, steps[0]) && Runs(Next(g, steps[0]), steps[1..]))
  }

  function Final(g: State, steps: seq<Step>): State
    requires Runs(g, steps)
    decreases |steps|
  {
    if steps == [] then g else Final(Next(g, steps[0]), steps[1..])
  }

  // ---- What is trusted of the stored content ----------------------------------------

  /** A record of time `t` cannot make a hit now, or it is right about `v`. */
  predicate Describes(g: State, t: int, v: Version)
    requires g.history != []
  {
    t == Current(g).time ==> v == Current(g)
  }

  predicate Stands(g: State, job: Job, v: Version)
    requires g.history != []
  {
    match job
    case GotRow(time) => Describes(g, time, v)
    case Hit(seen, _) => seen.time <= v.time
    case Landed(time) => Describes(g, time, v)
    case Restatted(_, time) => Describes(g, time, v)
    case _ => true
  }

  /** The record, the records about to be made and the opens under way are all right about `v`. */
  predicate MayHold(g: State, v: Version)
    requires g.history != []
  {
    (g.row.Some? ==> Describes(g, g.row.value, v)) && forall j :: j in g.jobs ==> Stands(g, g.jobs[j], v)
  }

  /** The three steps that can do harm: content arriving under records and opens that are wrong about it,
      and a save reading a time that is wrong about the stored content. */
  predicate Harmless(g: State, step: Step)
    requires Possible(g, step)
  {
    match step
    case Land(_, i) => MayHold(g, g.history[i])
    case PutCopy(j) => MayHold(g, g.jobs[j].version)
    case PutStat(_) => g.file.Some? ==> Describes(g, StatTime(g), g.file.value)
    case _ => true
  }

  predicate HarmlessRun(g: State, steps: seq<Step>)
    requires Runs(g, steps)
    decreases |steps|
  {
    steps == [] || (Harmless(g, steps[0]) && HarmlessRun(Next(g, steps[0]), steps[1..]))
  }

  // ---- The invariant ----------------------------------------------------------------

  predicate Increasing(history: seq<Version>) {
    forall i, j :: 0 <= i < j < |history| ==> history[i].time < history[j].time
  }

  predicate JobOk(g: State, job: Job)
    requires g.history != []
  {
    match job
    case GotRow(time) => time <= Current(g).time
    case Hit(seen, landings) =>
      && seen in g.history && landings <= g.landings
      && (landings == g.landings && g.file.Some? ==> g.file.value == seen)
    case Missed => true
    case Statted(time) => time <= Current(g).time
    case Fetching(time, from) => from < |g.history| && time <= g.history[from].time
    case Landed(time) => time <= Current(g).time
    case Uploaded(version) => version in g.history
    case Copied(version) => version in g.history
    case Restatted(version, time) => version in g.history && time <= Current(g).time
  }

  predicate Inv(g: State) {
    && g.history != [] && Increasing(g.history)
    && (g.stat.Some? ==> g.stat.value <= Current(g).time)
    && (g.row.Some? ==> g.row.value <= Current(g).time)
    && (g.file.Some? ==> g.file.value in g.history && MayHold(g, g.file.value))
    && forall j :: j in g.jobs ==> JobOk(g, g.jobs[j])
  }

  lemma {:induction false} LatestIsCurrent(g: State, v: Version)
    requires g.history != [] && Increasing(g.history) && v in g.history
    ensures v.time <= Current(g).time && (v.time == Current(g).time ==> v == Current(g))
  {
    var i :| 0 <= i < |g.history| && g.history[i] == v;
  }

  lemma {:induction false} AppendKeeps(g: State, version: Version)
    requires Inv(g) && version.time > Current(g).time
    ensures Inv(g.(history := g.history + [version]))
  {
    var g' := g.(history := g.history + [version]);
    assert Current(g') == version;
    forall j | j in g'.jobs
      ensures JobOk(g', g'.jobs[j])
      ensures g.file.Some? ==> Stands(g', g'.jobs[j], g.file.value)
    {
      assert JobOk(g, g.jobs[j]);
    }
  }

  lemma {:induction false} BringKeeps(g: State, j: nat, v: Version, job: Job)
    requires Inv(g) && v in g.history && j in g.jobs && MayHold(g, v)
    requires (job.Landed? || job.Copied?) && JobOk(g, job) && Stands(g, job, v)
    ensures Inv(Bring(g, j, v, job))
  {
    var g' := Bring(g, j, v, job);
    forall i | i in g'.jobs
      ensures JobOk(g', g'.jobs[i]) && Stands(g', g'.jobs[i], v)
    {
      if i != j { assert JobOk(g, g.jobs[i]) && Stands(g, g.jobs[i], v); }
    }
  }

  /** The time a download records was read before it began, so it is right about whatever comes. */
  lemma {:induction false} StatComesFirst(g: State, j: nat, i: nat)
    requires Inv(g) && Arrives(g, j, i)
    ensures var job := Landed(g.jobs[j].time);
      JobOk(g, job) && Stands(g, job, g.history[i])
  {
    assert JobOk(g, g.jobs[j]);
    LatestIsCurrent(g, g.history[g.jobs[j].from]);
  }

  lemma {:induction false} DroppingKeeps(g: State)
    requires Inv(g)
    ensures Inv(g.(row := None, file := None)) && Inv(g.(file := None))
  {
    forall j | j in g.jobs
      ensures JobOk(g.(row := None, file := None), g.jobs[j])
      ensures JobOk(g.(file := None), g.jobs[j])
    {
      assert JobOk(g, g.jobs[j]);
    }
  }

  lemma {:induction false} TableKeeps(g: State, stat: Option<int>, row: Option<int>)
    requires Inv(g)
    requires stat.Some? ==> stat.value <= Current(g).time
    requires row.Some? ==> row.value <= Current(g).time
    requires row.Some? && g.file.Some? ==> Describes(g, row.value, g.file.value)
    ensures Inv(g.(stat := stat, row := row))
  {
    var g' := g.(stat := stat, row := row);
    forall j | j in g.jobs
      ensures JobOk(g', g.jobs[j]) && (g.file.Some? ==> Stands(g', g.jobs[j], g.file.value))
    {
      assert JobOk(g, g.jobs[j]);
    }
  }

  lemma {:induction false} JobKeeps(g: State, j: nat, job: Job)
    requires Inv(g) && JobOk(g, job) && (g.file.Some? ==> Stands(g, job, g.file.value))
    ensures Inv(g.(jobs := g.jobs[j := job]))
  {
    var g' := g.(jobs := g.jobs[j := job]);
    forall i | i in g'.jobs
      ensures JobOk(g', g'.jobs[i]) && (g.file.Some? ==> Stands(g', g'.jobs[i], g.file.value))
    {
      if i != j { assert JobOk(g, g.jobs[i]) && (g.file.Some? ==> Stands(g, g.jobs[i], g.file.value)); }
    }
  }

  lemma {:induction false} JobGoes(g: State, j: nat)
    requires Inv(g)
    ensures Inv(g.(jobs := g.jobs - {j}))
  {
    var g' := g.(jobs := g.jobs - {j});
    forall i | i in g'.jobs
      ensures JobOk(g', g'.jobs[i]) && (g.file.Some? ==> Stands(g', g'.jobs[i], g.file.value))
    {
      assert JobOk(g, g.jobs[i]) && (g.file.Some? ==> Stands(g, g.jobs[i], g.file.value));
    }
  }

  lemma {:induction false} LiveCheckKeeps(g: State, j: nat, stuck: bool)
    requires Inv(g) && j in g.jobs && g.jobs[j].GotRow?
    ensures Inv(CheckLive(g, j, stuck))
  {
    var now := Current(g);
    assert JobOk(g, g.jobs[j]);
    assert g.file.Some? ==> Stands(g, g.jobs[j], g.file.value);
    TableKeeps(g, Some(now.time), g.row);
    var g1 := g.(stat := Some(now.time));
    if now.time == g.jobs[j].time {
      assert now in g.history;
      JobKeeps(g1, j, Hit(now, g.landings));
    } else if stuck {
      JobKeeps(g1, j, Missed);
    } else {
      DroppingKeeps(g1);
      JobKeeps(g1.(row := None, file := None), j, Missed);
    }
  }

  lemma {:induction false} TableStepKeeps(g: State, step: Step)
    requires Inv(g) && Possible(g, step)
    requires step.RemoteWrite? || step.StatFill? || step.StatDrop? || step.Evict?
    ensures Inv(Next(g, step))
  {
    match step
    case RemoteWrite(version) => AppendKeeps(g, version);
    case StatFill(i) =>
      LatestIsCurrent(g, g.history[i]);
      TableKeeps(g, Some(g.history[i].time), g.row);
    case StatDrop => TableKeeps(g, None, g.row);
    case Evict => DroppingKeeps(g);
  }

  lemma {:induction false} GetStepKeeps(g: State, step: Step, j: nat)
    requires Inv(g) && Possible(g, step)
    requires step in [StartGet(j), TakeStat(j), Begin(j)]
    ensures Inv(Next(g, step))
  {
    match step
    case StartGet(_) => JobKeeps(g, j, if g.row.Some? && g.file.Some? then GotRow(g.row.value) else Missed);
    case TakeStat(_) =>
      TableKeeps(g, Some(StatTime(g)), g.row);
      JobKeeps(g.(stat := Some(StatTime(g))), j, Statted(StatTime(g)));
    case Begin(_) =>
      assert JobOk(g, g.jobs[j]);
      JobKeeps(g, j, Fetching(g.jobs[j].time, |g.history| - 1));
  }

  /** What a job records, it was already right about. */
  lemma {:induction false} RecordKeeps(g: State, j: nat)
    requires Inv(g) && j in g.jobs && (g.jobs[j].Landed? || g.jobs[j].Restatted?)
    ensures Inv(RecordTime(g, j))
  {
    assert JobOk(g, g.jobs[j]) && (g.file.Some? ==> Stands(g, g.jobs[j], g.file.value));
    TableKeeps(g, g.stat, Some(g.jobs[j].time));
    JobGoes(g.(row := Some(g.jobs[j].time)), j);
  }

  /** Ways a job ends or falls back without recording anything. */
  lemma {:induction false} EndStepKeeps(g: State, step: Step, j: nat)
    requires Inv(g) && Possible(g, step)
    requires step in [CheckFails(j), Serve(j), Abort(j), CopyFails(j), Dies(j)]
    ensures Inv(Next(g, step))
  {
    if step.Abort? || step.CopyFails? {
      DroppingKeeps(g);
      JobGoes(g.(file := None), j);
    } else if step.CheckFails? {
      JobKeeps(g, j, Missed);
    } else {
      JobGoes(g, j);
    }
  }

  lemma {:induction false} PutStepKeeps(g: State, step: Step, j: nat)
    requires Inv(g) && Possible(g, step) && Harmless(g, step)
    requires step in [PutCopy(j), PutStat(j)] || (step.PutUpload? && step.job == j)
    ensures Inv(Next(g, step))
  {
    match step
    case PutUpload(_, version) =>
      AppendKeeps(g, version);
      JobKeeps(g.(history := g.history + [version]), j, Uploaded(version));
    case PutCopy(_) =>
      assert JobOk(g, g.jobs[j]);
      BringKeeps(g, j, g.jobs[j].version, Copied(g.jobs[j].version));
    case PutStat(_) =>
      assert JobOk(g, g.jobs[j]);
      TableKeeps(g, Some(StatTime(g)), g.row);
      JobKeeps(g.(stat := Some(StatTime(g))), j, Restatted(g.jobs[j].version, StatTime(g)));
  }

  lemma {:induction false} NextKeepsInv(g: State, step: Step)
    requires Inv(g) && Possible(g, step) && Harmless(g, step)
    ensures Inv(Next(g, step))
  {
    match step
    case RemoteWrite(_) => TableStepKeeps(g, step);
    case StatFill(_) => TableStepKeeps(g, step);
    case StatDrop => TableStepKeeps(g, step);
    case Evict => TableStepKeeps(g, step);
    case StartGet(j) => GetStepKeeps(g, step, j);
    case LiveCheck(j, stuck) => LiveCheckKeeps(g, j, stuck);
    case CheckFails(j) => EndStepKeeps(g, step, j);
    case Serve(j) => EndStepKeeps(g, step, j);
    case TakeStat(j) => GetStepKeeps(g, step, j);
    case Begin(j) => GetStepKeeps(g, step, j);
    case Land(j, i) =>
      StatComesFirst(g, j, i);
      BringKeeps(g, j, g.history[i], Landed(g.jobs[j].time));
    case Record(j) => RecordKeeps(g, j);
    case Abort(j) => EndStepKeeps(g, step, j);
    case PutUpload(j, _) => PutStepKeeps(g, step, j);
    case PutCopy(j) => PutStepKeeps(g, step, j);
    case CopyFails(j) => EndStepKeeps(g, step, j);
    case PutStat(j) => PutStepKeeps(g, step, j);
    case PutRecord(j) => RecordKeeps(g, j);
    case Dies(j) => EndStepKeeps(g, step, j);
  }

  /** An empty cache, and any versions so far. */
  function Cold(history: seq<Version>): State {
    State(history, None, None, None, 0, map[])
  }

  lemma {:induction false} ColdStart(history: seq<Version>)
    requires history != [] && Increasing(history)
    ensures Inv(Cold(history))
  {
  }

  lemma {:induction false} InvAlways(g: State, steps: seq<Step>)
    requires Inv(g) && Runs(g, steps) && HarmlessRun(g, steps)
    ensures Inv(Final(g, steps))
    decreases |steps|
  {
    if steps != [] {
      NextKeepsInv(g, steps[0]);
      InvAlways(Next(g, steps[0]), steps[1..]);
    }
  }

  /** In every such interleaving: when the live check makes a hit, the bytes on disk are Drive's
      content at that moment. */
  lemma {:induction false} HitsAreFresh(g: State, steps: seq<Step>, j: nat, stuck: bool)
    requires Inv(g) && Runs(g, steps) && HarmlessRun(g, steps)
    requires Possible(Final(g, steps), LiveCheck(j, stuck))
    ensures var g' := Final(g, steps);
      CheckLive(g', j, stuck).jobs[j].Hit? && g'.file.Some? ==> g'.file.value == Current(g')
  {
    InvAlways(g, steps);
    var g' := Final(g, steps);
    assert g'.file.Some? ==> Stands(g', g'.jobs[j], g'.file.value);
  }

  /** And when they are streamed later, they are still that content, unless another worker's
      transfer landed in between; then they are a later version. */
  lemma {:induction false} ServedBytesAreFresh(g: State, steps: seq<Step>, j: nat)
    requires Inv(g) && Runs(g, steps) && HarmlessRun(g, steps)
    requires Possible(Final(g, steps), Serve(j)) && Final(g, steps).file.Some?
    ensures var g' := Final(g, steps);
      var served, hit := g'.file.value, g'.jobs[j];
      && served in g'.history && served.time >= hit.seen.time
      && (hit.landings == g'.landings ==> served == hit.seen)
      && (served == hit.seen || served.time > hit.seen.time)
  {
    InvAlways(g, steps);
    var g' := Final(g, steps);
    assert JobOk(g', g'.jobs[j]) && Stands(g', g'.jobs[j], g'.file.value);
    var a :| 0 <= a < |g'.history| && g'.history[a] == g'.file.value;
    var b :| 0 <= b < |g'.history| && g'.history[b] == g'.jobs[j].seen;
  }

  // ---- Exactly when stale bytes can be served ---------------------------------------

  /** An open that passed its live check is about to stream older content than it checked. */
  predicate StaleOpen(g: State) {
    g.file.Some? && exists j :: j in g.jobs && g.jobs[j].Hit? && g.file.value.time < g.jobs[j].seen.time
  }

  /** Opens, their live checks, and records of what has been transferred already. */
  predicate Quiet(step: Step) {
    step.StartGet? || step.LiveCheck? || step.Record? || step.PutRecord?
  }

  /** Without another write or transfer, an open can come to stream stale bytes. */
  ghost predicate CanServeStale(g: State) {
    exists steps ::
      Runs(g, steps) && (forall i :: 0 <= i < |steps| ==> Quiet(steps[i])) && StaleOpen(Final(g, steps))
  }

  lemma {:induction false} QuietIsHarmless(g: State, steps: seq<Step>)
    requires Runs(g, steps) && forall i :: 0 <= i < |steps| ==> Quiet(steps[i])
    ensures HarmlessRun(g, steps)
    decreases |steps|
  {
    if steps != [] {
      assert Quiet(steps[0]);
      QuietIsHarmless(Next(g, steps[0]), steps[1..]);
    }
  }

  lemma {:induction false} InvIsNeverStale(g: State)
    requires Inv(g)
    ensures !CanServeStale(g)
  {
    forall steps | Runs(g, steps) && forall i :: 0 <= i < |steps| ==> Quiet(steps[i])
      ensures !StaleOpen(Final(g, steps))
    {
      QuietIsHarmless(g, steps);
      InvAlways(g, steps);
      var g' := Final(g, steps);
      forall j | j in g'.jobs && g'.file.Some?
        ensures Stands(g', g'.jobs[j], g'.file.value)
      {
      }
    }
  }

  lemma {:induction false} StaleByThen(g: State, step: Step)
    requires Possible(g, step) && Quiet(step) && CanServeStale(Next(g, step))
    ensures CanServeStale(g)
  {
    var rest :| Runs(Next(g, step), rest) && (forall i :: 0 <= i < |rest| ==> Quiet(rest[i]))
      && StaleOpen(Final(Next(g, step), rest));
    var steps := [step] + rest;
    assert steps[0] == step && steps[1..] == rest;
    assert Runs(g, steps) && Final(g, steps) == Final(Next(g, step), rest);
  }

  lemma {:induction false} StaleNow(g: State, j: nat)
    requires g.file.Some? && j in g.jobs && g.jobs[j].Hit? && g.file.value.time < g.jobs[j].seen.time
    ensures CanServeStale(g)
  {
    assert Runs(g, []) && StaleOpen(Final(g, []));
  }

  lemma {:induction false} StaleByCheck(g: State, j: nat)
    requires g.history != [] && g.file.Some? && g.file.value.time < Current(g).time
    requires j in g.jobs && g.jobs[j] == GotRow(Current(g).time)
    ensures CanServeStale(g)
  {
    StaleNow(Next(g, LiveCheck(j, false)), j);
    StaleByThen(g, LiveCheck(j, false));
  }

  lemma {:induction false} FreshJob(jobs: set<nat>) returns (k: nat)
    ensures forall j :: j in jobs ==> j < k
  {
    if jobs == {} {
      k := 0;
    } else {
      var j :| j in jobs;
      var above := FreshJob(jobs - {j});
      k := if above <= j then j + 1 else above;
      assert forall i :: i in jobs ==> i == j || i in jobs - {j};
    }
  }

  lemma {:induction false} StaleByOpen(g: State)
    requires g.history != [] && g.file.Some? && g.file.value.time < Current(g).time
    requires g.row == Some(Current(g).time)
    ensures CanServeStale(g)
  {
    var k := FreshJob(g.jobs.Keys);
    assert k !in g.jobs;
    StaleByCheck(Next(g, StartGet(k)), k);
    StaleByThen(g, StartGet(k));
  }

  lemma {:induction false} StaleByRecord(g: State, j: nat)
    requires g.history != [] && g.file.Some? && g.file.value.time < Current(g).time
    requires j in g.jobs && (g.jobs[j].Landed? || g.jobs[j].Restatted?) && g.jobs[j].time == Current(g).time
    ensures CanServeStale(g)
  {
    var step := if g.jobs[j].Landed? then Record(j) else PutRecord(j);
    StaleByOpen(Next(g, step));
    StaleByThen(g, step);
  }

  /** Content that a record, a record about to be made or an open under way is wrong about. */
  lemma {:induction false} StaleByHolding(g: State)
    requires g.history != [] && Increasing(g.history) && g.file.Some? && g.file.value in g.history
    requires !MayHold(g, g.file.value)
    ensures CanServeStale(g)
  {
    var v := g.file.value;
    LatestIsCurrent(g, v);
    if g.row.Some? && !Describes(g, g.row.value, v) {
      StaleByOpen(g);
    } else {
      var j :| j in g.jobs && !Stands(g, g.jobs[j], v);
      match g.jobs[j]
      case GotRow(_) => StaleByCheck(g, j);
      case Hit(_, _) => StaleNow(g, j);
      case Landed(_) => StaleByRecord(g, j);
      case Restatted(_, _) => StaleByRecord(g, j);
    }
  }

  /** Content that arrives can be served stale exactly when something is wrong about it. */
  lemma {:induction false} BringStaleIff(g: State, j: nat, v: Version, job: Job)
    requires Inv(g) && v in g.history && j in g.jobs && (g.jobs[j].Fetching? || g.jobs[j].Uploaded?)
    requires (job.Landed? || job.Copied?) && JobOk(g, job) && Stands(g, job, v)
    ensures CanServeStale(Bring(g, j, v, job)) <==> !MayHold(g, v)
  {
    var g' := Bring(g, j, v, job);
    if MayHold(g, v) {
      BringKeeps(g, j, v, job);
      InvIsNeverStale(g');
    } else {
      if i :| i in g.jobs && !Stands(g, g.jobs[i], v) {
        assert i != j && g'.jobs[i] == g.jobs[i];
        assert !Stands(g', g'.jobs[i], v);
      }
      StaleByHolding(g');
    }
  }

  /** The time a save reads after its upload can make stale bytes be served exactly when it is the present
      one and other content is stored. */
  lemma {:induction false} PutStatStaleIff(g: State, j: nat)
    requires Inv(g) && Possible(g, PutStat(j))
    ensures CanServeStale(Next(g, PutStat(j))) <==> !Harmless(g, PutStat(j))
  {
    var g' := Next(g, PutStat(j));
    if Harmless(g, PutStat(j)) {
      NextKeepsInv(g, PutStat(j));
      InvIsNeverStale(g');
    } else {
      LatestIsCurrent(g, g.file.value);
      StaleByRecord(g', j);
    }
  }

  /** For any step. */
  lemma {:induction false} StepStaleIff(g: State, step: Step)
    requires Inv(g) && Possible(g, step)
    ensures CanServeStale(Next(g, step)) <==> !Harmless(g, step)
  {
    if step.Land? {
      StatComesFirst(g, step.job, step.index);
      BringStaleIff(g, step.job, g.history[step.index], Landed(g.jobs[step.job].time));
    } else if step.PutCopy? {
      assert JobOk(g, g.jobs[step.job]);
      BringStaleIff(g, step.job, g.jobs[step.job].version, Copied(g.jobs[step.job].version));
    } else if step.PutStat? {
      PutStatStaleIff(g, step.job);
    } else {
      NextKeepsInv(g, step);
      InvIsNeverStale(Next(g, step));
    }
  }

  /** At no point of the run can an open come to stream stale bytes. */
  ghost predicate NeverStale(g: State, steps: seq<Step>)
    requires Runs(g, steps)
    decreases |steps|
  {
    !CanServeStale(g) && (steps == [] || NeverStale(Next(g, steps[0]), steps[1..]))
  }

  /** So the conditions on a run ask for nothing that is not needed. */
  lemma {:induction false} NeverStaleIff(g: State, steps: seq<Step>)
    requires Inv(g) && Runs(g, steps)
    ensures NeverStale(g, steps) <==> HarmlessRun(g, steps)
    decreases |steps|
  {
    InvIsNeverStale(g);
    if steps != [] {
      StepStaleIff(g, steps[0]);
      if Harmless(g, steps[0]) {
        NextKeepsInv(g, steps[0]);
        NeverStaleIff(Next(g, steps[0]), steps[1..]);
      }
    }
  }

  /** For a save whose own copy is stored: harm comes exactly when the time read is Drive's present one
      and Drive no longer holds the saved version. */
  lemma {:induction false} SavedTimeIff(g: State, j: nat)
    requires Inv(g) && Possible(g, PutStat(j)) && g.file == Some(g.jobs[j].version)
    ensures CanServeStale(Next(g, PutStat(j))) <==>
            StatTime(g) == Current(g).time && g.jobs[j].version != Current(g)
    ensures g.stat == None ==> (CanServeStale(Next(g, PutStat(j))) <==> g.jobs[j].version != Current(g))
  {
    PutStatStaleIff(g, j);
  }
}
