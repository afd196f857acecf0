/** What an operation that makes several CLI calls does with their answers: it stops at the first call that
    fails, and that call's error is its own. Calls are read off the log; what Drive answers to each is the
    reference. */
module Calls {
  import opened Paths
  import opened Drive

  // ---- Answers ----------------------------------------------------------------------

  function Heard<T>(res: Result<T>): Option<DriveError> {
    if res.Err? then Some(res.error) else None
  }

  /** The error Drive answers to one call, if any; `bytes` is what an upload sends. */
  function Ask(r: Remote, c: Call, bytes: Bytes): (Option<DriveError>, Remote) {
    match c
    case Info(p) => var (res, r1) := Stat(r, p); (Heard(res), r1)
    case List(p) => var (res, r1) := ListFolder(r, p, []); (Heard(res), r1)
    case CreateFolder(parent, name) => var (res, r1) := MakeFolder(r, parent, name); (Heard(res), r1)
    case Move(p, parent) => var (res, r1) := MovePath(r, p, parent); (Heard(res), r1)
    case Rename(p, name) => var (res, r1) := RenamePath(r, p, name); (Heard(res), r1)
    case Upload(local, parent) => var (res, r1) := UploadFile(r, local, bytes, parent); (Heard(res), r1)
    case Download(p, dir) => var (res, r1) := DownloadFile(r, p, dir); (Heard(res), r1)
    case Trash(p) => var (res, r1) := TrashPath(r, p); (Heard(res), r1)
    case Copy(p, parent, name) => var (res, r1) := CopyPath(r, p, parent, name); (Heard(res), r1)
  }

  /** Answers that are no failure: a folder asked for is missing, or is there when it is to be created. */
  predicate Expected(c: Call, error: DriveError) {
    (c.Info? && error == NotFound) || (c.CreateFolder? && error == AlreadyExists)
  }

  type Asks = (Remote, Call) -> (Option<DriveError>, Remote)

  function Asking(bytes: Bytes): Asks {
    (r, c) => Ask(r, c, bytes)
  }

  /** Making exactly these calls from `r` leads to `r'`; none fails but perhaps the last, and `failure` is its error. */
  predicate Talk(r: Remote, made: seq<Call>, r': Remote, failure: Option<DriveError>, ask: Asks)
    decreases |made|
  {
    if made == [] then r' == r && failure == None
    else
      var (error, r1) := ask(r, made[0]);
      if error.None? || Expected(made[0], error.value) then Talk(r1, made[1..], r', failure, ask)
      else made[1..] == [] && r' == r1 && failure == error
  }

  /** The calls logged since `r`. */
  function Since(r: Remote, r': Remote): seq<Call> {
    if |r.calls| <= |r'.calls| then r'.calls[|r.calls|..] else []
  }

  /** The calls made since `r` were such a talk. */
  predicate Reports(r: Remote, r': Remote, failure: Option<DriveError>, bytes: Bytes) {
    r.calls <= r'.calls && Talk(r, Since(r, r'), r', failure, Asking(bytes))
  }

  lemma {:induction false} AskLogs(r: Remote, c: Call, bytes: Bytes)
    ensures Ask(r, c, bytes).1.calls == r.calls + [c]
    ensures Ask(r, c, bytes).1.faults == Later(r.faults, 1)
  {
  }

  lemma {:induction false} TalkLogs(r: Remote, made: seq<Call>, r': Remote, failure: Option<DriveError>, bytes: Bytes)
    requires Talk(r, made, r', failure, Asking(bytes))
    ensures r'.calls == r.calls + made
    ensures Reports(r, r', failure, bytes) && Since(r, r') == made
    decreases |made|
  {
    if made != [] {
      var r1 := Ask(r, made[0], bytes).1;
      AskLogs(r, made[0], bytes);
      if r' != r1 || made[1..] != [] { TalkLogs(r1, made[1..], r', failure, bytes); }
      assert made == [made[0]] + made[1..];
    }
    assert r'.calls[|r.calls|..] == made;
  }

  lemma {:induction false} TalkOn(r: Remote, a: seq<Call>, r1: Remote, b: seq<Call>, r2: Remote,
                                  failure: Option<DriveError>, ask: Asks)
    requires Talk(r, a, r1, None, ask) && Talk(r1, b, r2, failure, ask)
    ensures Talk(r, a + b, r2, failure, ask)
    decreases |a|
  {
    if a == [] {
      assert a + b == b;
    } else {
      assert (a + b)[1..] == a[1..] + b;
      TalkOn(ask(r, a[0]).1, a[1..], r1, b, r2, failure, ask);
    }
  }

  lemma {:induction false} OneCall(r: Remote, c: Call, bytes: Bytes)
    ensures var (error, r1) := Ask(r, c, bytes);
      Talk(r, [c], r1, if error.Some? && Expected(c, error.value) then None else error, Asking(bytes))
  {
    assert [c][1..] == [];
  }

  // ---- Scripted errors --------------------------------------------------------------

  /** What is left of the script after `n` calls. */
  function Later(faults: seq<Option<Fault>>, n: nat): seq<Option<Fault>> {
    if n <= |faults| then faults[n..] else []
  }

  /** The error scripted for the i-th coming call. */
  function FaultAt(faults: seq<Option<Fault>>, i: nat): Option<Fault> {
    if i < |faults| then faults[i] else None
  }

  lemma {:induction false} LaterTwice(faults: seq<Option<Fault>>, m: nat, n: nat)
    ensures Later(Later(faults, m), n) == Later(faults, m + n)
    ensures FaultAt(Later(faults, m), n) == FaultAt(faults, m + n)
  {
  }

  /** Among the next `n` calls only the last may find the session gone, and `lost` says whether it does. */
  predicate LostAtEnd(faults: seq<Option<Fault>>, n: nat, lost: bool) {
    && (lost ==> n > 0 && FaultAt(faults, n - 1) == Some(NotAuthenticated))
    && forall i :: 0 <= i < n && FaultAt(faults, i) == Some(NotAuthenticated) ==> lost && i == n - 1
  }

  lemma {:induction false} AskFault(r: Remote, c: Call, bytes: Bytes)
    ensures FaultAt(r.faults, 0).Some? ==> Ask(r, c, bytes).0 == FaultAt(r.faults, 0)
    ensures Ask(r, c, bytes).0 == Some(NotAuthenticated) ==> FaultAt(r.faults, 0) == Some(NotAuthenticated)
  {
  }

  /** A session lost at any call is the failure reported, and that call is the last. */
  lemma {:induction false} TalkHearsLoss(r: Remote, made: seq<Call>, r': Remote, failure: Option<DriveError>,
                                         bytes: Bytes)
    requires Talk(r, made, r', failure, Asking(bytes))
    ensures UsesUp(r.faults, |made|, r'.faults, failure == Some(NotAuthenticated))
    decreases |made|
  {
    if made != [] {
      AskLogs(r, made[0], bytes);
      AskFault(r, made[0], bytes);
      var (error, r1) := Ask(r, made[0], bytes);
      if error.None? || Expected(made[0], error.value) {
        TalkHearsLoss(r1, made[1..], r', failure, bytes);
        UsesUpOn(r.faults, 1, r1.faults, |made| - 1, r'.faults, failure == Some(NotAuthenticated));
      }
    }
  }

  /** `n` calls take a script to what is left of it. */
  predicate UsesUp(faults: seq<Option<Fault>>, n: nat, left: seq<Option<Fault>>, lost: bool) {
    left == Later(faults, n) && LostAtEnd(faults, n, lost)
  }

  lemma {:induction false} UsesUpOn(faults: seq<Option<Fault>>, m: nat, midway: seq<Option<Fault>>, n: nat,
                                    left: seq<Option<Fault>>, lost: bool)
    requires UsesUp(faults, m, midway, false) && UsesUp(midway, n, left, lost)
    ensures UsesUp(faults, m + n, left, lost)
  {
    LaterTwice(faults, m, n);
    if lost { LaterTwice(faults, m, n - 1); }
    forall i | m <= i < m + n && FaultAt(faults, i) == Some(NotAuthenticated)
      ensures lost && i == m + n - 1
    {
      LaterTwice(faults, m, i - m);
    }
  }

  // ---- The ancestors ----------------------------------------------------------------

  lemma {:induction false} StepTalks(r: Remote, current: string, name: string, bytes: Bytes) returns (made: seq<Call>)
    ensures var next := current + "/" + name;
      var (stat, r1) := Stat(r, next);
      var (created, r2) := MakeFolder(r1, current, name);
      if stat.Ok? then made == [Info(next)] && Talk(r, made, r1, None, Asking(bytes))
      else if stat.error != NotFound then made == [Info(next)] && Talk(r, made, r1, Heard(stat), Asking(bytes))
      else made == [Info(next), CreateFolder(current, name)] &&
           Talk(r, made, r2, if created.Err? && created.error != AlreadyExists then Heard(created) else None,
                Asking(bytes))
  {
    var next := current + "/" + name;
    var (stat, r1) := Stat(r, next);
    OneCall(r, Info(next), bytes);
    made := [Info(next)];
    if stat.Err? && stat.error == NotFound {
      var created := MakeFolder(r1, current, name).0;
      OneCall(r1, CreateFolder(current, name), bytes);
      TalkOn(r, made, r1, [CreateFolder(current, name)], MakeFolder(r1, current, name).1,
        if created.Err? && created.error != AlreadyExists then Heard(created) else None, Asking(bytes));
      made := made + [CreateFolder(current, name)];
    }
  }

  lemma {:induction false} ExtendChainTalks(r: Remote, current: string, segs: seq<string>, bytes: Bytes)
    returns (made: seq<Call>)
    ensures var (res, r') := ExtendChain(r, current, segs);
      Talk(r, made, r', Heard(res), Asking(bytes))
    decreases |segs|
  {
    made := [];
    if segs != [] {
      made := StepTalks(r, current, segs[0], bytes);
      var next := current + "/" + segs[0];
      var (stat, r1) := Stat(r, next);
      var (created, r2) := MakeFolder(r1, current, segs[0]);
      var r3 := if stat.Ok? then r1 else r2;
      var (res, r') := ExtendChain(r, current, segs);
      if stat.Ok? || (stat.error == NotFound && (created.Ok? || created.error == AlreadyExists)) {
        var rest := ExtendChainTalks(r3, next, segs[1..], bytes);
        TalkOn(r, made, r3, rest, r', Heard(res), Asking(bytes));
        made := made + rest;
      }
    }
  }

  /** `ensure_remote_dir_chain` stops at the first call that fails, and reports its error. */
  lemma {:induction false} EnsureChainReports(r: Remote, dir: string, bytes: Bytes)
    ensures var (res, r') := EnsureChain(r, dir);
      Reports(r, r', Heard(res), bytes)
  {
    var segs := Segs(dir);
    var (res, r') := EnsureChain(r, dir);
    var made := [];
    if |segs| > 1 { made := ExtendChainTalks(r, "/" + segs[0], segs[1..], bytes); }
    TalkLogs(r, made, r', Heard(res), bytes);
  }

  /** The calls for a chain of folders below `current` of which `tree` has some: each is asked for once, from
      the top down, and exactly the missing ones are created. */
  function ChainCalls(tree: Tree, current: string, segs: seq<string>): seq<Call>
    decreases |segs|
  {
    if segs == [] then []
    else
      var next := current + "/" + segs[0];
      [Info(next)] + (if next in tree then [] else [CreateFolder(current, segs[0])]) +
      ChainCalls(tree, next, segs[1..])
  }

  lemma {:induction false} ChainCallsDeeper(tree: Tree, tree': Tree, current: string, segs: seq<string>)
    requires forall p :: |p| > |current| ==> (p in tree <==> p in tree')
    ensures ChainCalls(tree, current, segs) == ChainCalls(tree', current, segs)
    decreases |segs|
  {
    if segs != [] { ChainCallsDeeper(tree, tree', current + "/" + segs[0], segs[1..]); }
  }

  lemma {:induction false} CalmStep(r: Remote, current: string, name: string)
    requires r.faults == [] && TrimEnd(current) == current
    ensures var next := current + "/" + name;
      var (stat, r1) := Stat(r, next);
      var (created, r2) := MakeFolder(r1, current, name);
      && (if next in r.tree then stat.Ok? else stat == Err(NotFound))
      && r1.tree == r.tree && r1.faults == r2.faults == []
      && r1.calls == r.calls + [Info(next)] && r2.calls == r1.calls + [CreateFolder(current, name)]
      && (forall p :: p in r2.tree && p != next ==> p in r.tree) && (forall p :: p in r.tree ==> p in r2.tree)
  {
  }

  lemma {:induction false} ExtendChainCalls(r: Remote, done: seq<string>, segs: seq<string>)
    requires r.faults == [] && done != [] && Names(done) && Names(segs)
    requires ExtendChain(r, Print(done), segs).0.Ok?
    ensures ExtendChain(r, Print(done), segs).1.calls == r.calls + ChainCalls(r.tree, Print(done), segs)
    decreases |segs|
  {
    if segs != [] {
      var current, next := Print(done), Print(done) + "/" + segs[0];
      var done' := done + [segs[0]];
      PrintLast(done');
      assert done'[..|done|] == done;
      assert Names(done') && Names(segs[1..]);
      TrimEndPrint(done);
      CalmStep(r, current, segs[0]);
      var (stat, r1) := Stat(r, next);
      var r3 := if stat.Ok? then r1 else MakeFolder(r1, current, segs[0]).1;
      ChainCallsDeeper(r.tree, r3.tree, next, segs[1..]);
      ExtendChainCalls(r3, done', segs[1..]);
      ConsCalls(r.calls, [Info(next)] + (if stat.Ok? then [] else [CreateFolder(current, segs[0])]),
        ChainCalls(r.tree, next, segs[1..]), r3.calls);
    }
  }

  lemma {:induction false} ConsCalls(before: seq<Call>, step: seq<Call>, rest: seq<Call>, after: seq<Call>)
    requires after == before + step
    ensures after + rest == before + (step + rest)
  {
  }

  /** When the CLI itself does not fail: each ancestor below the section is asked for once, from the top down,
      and exactly the missing ones are created. */
  lemma {:induction false} EnsureChainCalls(r: Remote, dir: string)
    requires Norm(dir) && r.faults == [] && EnsureChain(r, dir).0.Ok?
    ensures EnsureChain(r, dir).1.calls == r.calls + ChainCalls(r.tree, "/" + Segs(dir)[0], Segs(dir)[1..])
  {
    var segs := Segs(dir);
    PrintOne(segs[0]);
    if |segs| > 1 { ExtendChainCalls(r, [segs[0]], segs[1..]); }
  }

  // ---- rename_or_move ---------------------------------------------------------------

  /** Which calls a rename on normal paths may make: one when the parent or the name stays, else two. */
  function RenameCalls(source: string, target: string): seq<Call> {
    if RemoteParent(source) == RemoteParent(target) then [Rename(source, BaseName(target))]
    else
      [Move(source, RemoteParent(target))] +
      (if BaseName(source) == BaseName(target) then [] else [Rename(HalfWay(source, target), BaseName(target))])
  }

  lemma {:induction false} TwoCalls(r: Remote, first: Call, r1: Remote, second: Call, r2: Remote,
                                    failure: Option<DriveError>)
    requires !first.Info? && !first.CreateFolder? && !second.Info? && !second.CreateFolder?
    requires Ask(r, first, []) == (None, r1) && Ask(r1, second, []) == (failure, r2)
    ensures Reports(r, r2, failure, []) && Since(r, r2) == [first, second]
  {
    OneCall(r, first, []);
    OneCall(r1, second, []);
    TalkOn(r, [first], r1, [second], r2, failure, Asking([]));
    assert [first] + [second] == [first, second];
    TalkLogs(r, [first, second], r2, failure, []);
  }

  lemma {:induction false} RenameNormReports(r: Remote, source: string, target: string)
    ensures var (res, r') := RenameOrMoveNorm(r, source, target);
      && Reports(r, r', Heard(res), [])
      && Since(r, r') <= RenameCalls(source, target)
      && (res.Ok? ==> Since(r, r') == RenameCalls(source, target))
  {
    var (res, r') := RenameOrMoveNorm(r, source, target);
    var moved := Move(source, RemoteParent(target));
    var renamed := Rename(HalfWay(source, target), BaseName(target));
    if RemoteParent(source) == RemoteParent(target) {
      OneCall(r, Rename(source, BaseName(target)), []);
      TalkLogs(r, [Rename(source, BaseName(target))], r', Heard(res), []);
    } else {
      var (there, r1) := MovePath(r, source, RemoteParent(target));
      if there.Err? || BaseName(source) == BaseName(target) {
        OneCall(r, moved, []);
        TalkLogs(r, [moved], r', Heard(res), []);
      } else {
        TwoCalls(r, moved, r1, renamed, r', Heard(res));
        assert [moved] + [renamed] == [moved, renamed];
      }
    }
  }

  /** `rename_or_move` makes its calls in order up to the first that fails, and reports that call's error. */
  lemma {:induction false} RenameOrMoveReports(r: Remote, source: string, target: string)
    requires Norm(source) && Norm(target)
    ensures var (res, r') := RenameOrMove(r, source, target);
      && Reports(r, r', Heard(res), [])
      && Since(r, r') <= RenameCalls(source, target)
      && (res.Ok? ==> Since(r, r') == RenameCalls(source, target))
  {
    RenameOrMoveIsNorm(r, source, target);
    RenameNormReports(r, source, target);
  }
}
