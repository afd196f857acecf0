/** The folders open in some Dolphin view: counting the views that show each one, and forgetting
    those with no sign of life for an hour. Times are seconds on a clock. */
module OpenFolders {

  const EXPIRY: int := 3600

  datatype OpenFolder = OpenFolder(views: nat, lastSeen: int)

  type Folders = map<string, OpenFolder>

  datatype Event =
    | Entered(path: string, at: int)
    | Left(path: string)
    | Touched(path: string, at: int)
    | Asked(at: int)

  function Apply(folders: Folders, e: Event): Folders {
    match e
    case Entered(path, at) =>
      var views := if path in folders then folders[path].views else 0;
      folders[path := OpenFolder(views + 1, at)]
    case Left(path) =>
      if path !in folders then folders
      else if folders[path].views <= 1 then folders - {path}
      else folders[path := folders[path].(views := folders[path].views - 1)]
    case Touched(path, at) =>
      if path in folders then folders[path := folders[path].(lastSeen := at)] else folders
    case Asked(at) =>
      map p | p in folders && at - folders[p].lastSeen < EXPIRY :: folders[p]
  }

  function Tracked(run: seq<Event>): Folders {
    if run == [] then map[] else Apply(Tracked(run[..|run| - 1]), run[|run| - 1])
  }

  /** The table behind the process-wide lock. */
  class OpenFolderTable {
    var folders: Folders

    constructor ()
      ensures folders == Tracked([])
    {
      folders := map[];
    }

    method Enter(path: string, now: int)
      modifies this
      ensures folders == Apply(old(folders), Entered(path, now))
    {
      if path !in folders {
        folders := folders[path := OpenFolder(0, now)];
      }
      folders := folders[path := folders[path].(views := folders[path].views + 1)];
      folders := folders[path := folders[path].(lastSeen := now)];
    }

    method Leave(path: string)
      modifies this
      ensures folders == Apply(old(folders), Left(path))
    {
      if path in folders {
        var views := folders[path].views;
        folders := folders[path := folders[path].(views := if views == 0 then 0 else views - 1)];
        if folders[path].views == 0 {
          folders := folders - {path};
        }
      }
    }

    /** Pushes back an open folder's expiry; does not start tracking one. */
    method Touch(path: string, now: int)
      modifies this
      ensures folders == Apply(old(folders), Touched(path, now))
    {
      if path in folders {
        folders := folders[path := folders[path].(lastSeen := now)];
      }
    }

    /** The folders still open, after dropping the expired ones. */
    method Current(now: int) returns (current: set<string>)
      modifies this
      ensures folders == Apply(old(folders), Asked(now))
      ensures current == folders.Keys
    {
      folders := map p | p in folders && now - folders[p].lastSeen < EXPIRY :: folders[p];
      current := folders.Keys;
    }
  }

  // ---- What being tracked means, read off the events alone --------------------------

  /** Views opened less views closed. */
  function Balance(events: seq<Event>, path: string): int {
    if events == [] then 0
    else
      var e := events[|events| - 1];
      Balance(events[..|events| - 1], path) +
      (if e.Entered? && e.path == path then 1 else if e.Left? && e.path == path then -1 else 0)
  }

  predicate SignOfLife(e: Event, path: string) {
    (e.Entered? || e.Touched?) && e.path == path
  }

  /** When the folder was last entered or touched. */
  function LastSign(events: seq<Event>, path: string): int {
    if events == [] then 0
    else
      var e := events[|events| - 1];
      if SignOfLife(e, path) then e.at else LastSign(events[..|events| - 1], path)
  }

  /** From event `b`, which enters it, until now the folder kept a view, and no question came an hour
      or more after its last sign of life. */
  predicate OpenSince(run: seq<Event>, b: nat, path: string) {
    && b < |run| && run[b].Entered? && run[b].path == path
    && KeepsView(run, b, path) && NeverLate(run, b, path)
  }

  predicate KeepsView(run: seq<Event>, b: nat, path: string) {
    forall k :: b < k <= |run| ==> Balance(run[b..k], path) >= 1
  }

  predicate NeverLate(run: seq<Event>, b: nat, path: string) {
    forall k :: b < k < |run| && run[k].Asked? ==> run[k].at - LastSign(run[b..k], path) < 3600
  }

  lemma {:induction false} BalanceSplits(x: seq<Event>, y: seq<Event>, path: string)
    ensures Balance(x + y, path) == Balance(x, path) + Balance(y, path)
  {
    if y == [] {
      assert x + y == x;
    } else {
      BalanceSplits(x, y[..|y| - 1], path);
      assert (x + y)[..|x + y| - 1] == x + y[..|y| - 1];
    }
  }

  lemma {:induction false} LastSignStays(x: seq<Event>, y: seq<Event>, path: string)
    requires y != [] && SignOfLife(y[0], path)
    ensures LastSign(x + y, path) == LastSign(y, path)
  {
    if !SignOfLife(y[|y| - 1], path) {
      LastSignStays(x, y[..|y| - 1], path);
      assert (x + y)[..|x + y| - 1] == x + y[..|y| - 1];
    }
  }

  /** Within one open spell, a later start counts no more views and sees the same last sign. */
  lemma {:induction false} LaterStart(run: seq<Event>, a: nat, b: nat, path: string)
    requires a <= b && OpenSince(run, a, path) && OpenSince(run, b, path)
    ensures Balance(run[b..], path) <= Balance(run[a..], path)
    ensures LastSign(run[b..], path) == LastSign(run[a..], path)
  {
    assert run[a..] == run[a..b] + run[b..];
    BalanceSplits(run[a..b], run[b..], path);
    LastSignStays(run[a..b], run[b..], path);
    if a < b {
      assert Balance(run[a..b], path) >= 1;
    }
  }

  lemma {:induction false} KeepsViewStep(run: seq<Event>, e: Event, b: nat, path: string)
    requires b < |run|
    ensures KeepsView(run + [e], b, path) <==> KeepsView(run, b, path) && Balance(run[b..] + [e], path) >= 1
  {
    var longer := run + [e];
    assert longer[b..|longer|] == run[b..] + [e];
    forall k | b < k <= |run|
      ensures longer[b..k] == run[b..k]
    {
    }
  }

  lemma {:induction false} NeverLateStep(run: seq<Event>, e: Event, b: nat, path: string)
    requires b < |run|
    ensures NeverLate(run + [e], b, path) <==>
            NeverLate(run, b, path) && (e.Asked? ==> e.at - LastSign(run[b..], path) < 3600)
  {
    var longer := run + [e];
    assert longer[b..|run|] == run[b..] && longer[|run|] == e;
    forall k | b < k < |run|
      ensures longer[b..k] == run[b..k] && longer[k] == run[k]
    {
    }
  }

  /** One more event: an open spell goes on if a view is left and the question is not too late. */
  lemma {:induction false} OpenSinceStep(run: seq<Event>, e: Event, b: nat, path: string)
    requires b < |run|
    ensures OpenSince(run + [e], b, path) <==>
            OpenSince(run, b, path) && Balance(run[b..] + [e], path) >= 1 &&
            (e.Asked? ==> e.at - LastSign(run[b..], path) < 3600)
  {
    KeepsViewStep(run, e, b, path);
    NeverLateStep(run, e, b, path);
    assert (run + [e])[b] == run[b];
  }

  lemma {:induction false} OpenSinceNow(run: seq<Event>, e: Event, path: string)
    ensures OpenSince(run + [e], |run|, path) <==> e.Entered? && e.path == path
  {
    var longer := run + [e];
    assert longer[|run|..|run| + 1] == [e];
    assert [e][..0] == [];
    assert Balance([e], path) == Balance([], path) +
      (if e.Entered? && e.path == path then 1 else if e.Left? && e.path == path then -1 else 0);
  }

  lemma {:induction false} OneMore(events: seq<Event>, e: Event, path: string)
    ensures Balance(events + [e], path) == Balance(events, path) +
            (if e.Entered? && e.path == path then 1 else if e.Left? && e.path == path then -1 else 0)
    ensures LastSign(events + [e], path) == if SignOfLife(e, path) then e.at else LastSign(events, path)
  {
    assert (events + [e])[..|events|] == events;
  }

  /** The entry for `path` says what the run says: nothing if no spell is open; else the views and last
      sign counted from `start`, where the earliest spell still open began. */
  ghost predicate Explained(folders: Folders, run: seq<Event>, path: string, start: nat) {
    if path in folders then
      && OpenSince(run, start, path)
      && (forall b: nat :: OpenSince(run, b, path) ==> start <= b)
      && folders[path].views == Balance(run[start..], path)
      && folders[path].lastSeen == LastSign(run[start..], path)
    else
      forall b: nat :: !OpenSince(run, b, path)
  }

  lemma {:induction false} ExplainedWhenUntracked(folders: Folders, run: seq<Event>, e: Event, path: string)
    requires path !in folders && Explained(folders, run, path, 0)
    ensures Explained(Apply(folders, e), run + [e], path, |run|)
  {
    OpenSinceNow(run, e, path);
    forall b: nat | b < |run|
      ensures !OpenSince(run + [e], b, path)
    {
      OpenSinceStep(run, e, b, path);
    }
    assert (run + [e])[|run|..] == [] + [e];
    OneMore([], e, path);
  }

  lemma {:induction false} SpellsAgree(run: seq<Event>, e: Event, path: string, start: nat, b: nat)
    requires start <= b && OpenSince(run, start, path) && OpenSince(run + [e], b, path) && b < |run|
    ensures OpenSince(run + [e], start, path)
  {
    OpenSinceStep(run, e, b, path);
    OpenSinceStep(run, e, start, path);
    LaterStart(run, start, b, path);
    OneMore(run[b..], e, path);
    OneMore(run[start..], e, path);
  }

  lemma {:induction false} ExplainedWhenTracked(folders: Folders, run: seq<Event>, e: Event, path: string, start: nat)
    requires path in folders && Explained(folders, run, path, start)
    ensures Explained(Apply(folders, e), run + [e], path, start)
  {
    var longer := run + [e];
    OpenSinceStep(run, e, start, path);
    OneMore(run[start..], e, path);
    assert longer[start..] == run[start..] + [e];
    assert run[start..|run|] == run[start..];
    assert path in Apply(folders, e) <==> OpenSince(longer, start, path);
    forall b: nat | OpenSince(longer, b, path)
      ensures start <= b && OpenSince(longer, start, path)
    {
      if b < |run| {
        OpenSinceStep(run, e, b, path);
        SpellsAgree(run, e, path, start, b);
      } else {
        OpenSinceNow(run, e, path);
      }
    }
  }

  /** After any run a folder is tracked exactly when some spell of it is still open; its views are those
      opened less those closed since the first such spell began, and it was last seen at the last entry or
      touch since. */
  lemma {:induction false} TrackedExactly(run: seq<Event>, path: string) returns (start: nat)
    ensures Explained(Tracked(run), run, path, start)
  {
    start := 0;
    if run != [] {
      var before, e := run[..|run| - 1], run[|run| - 1];
      assert run == before + [e];
      start := TrackedExactly(before, path);
      if path in Tracked(before) {
        ExplainedWhenTracked(Tracked(before), before, e, path, start);
      } else {
        ExplainedWhenUntracked(Tracked(before), before, e, path);
        start := |before|;
      }
    }
  }

  /** So the answer to a question is exactly the folders with a view still open that were entered or
      touched less than an hour ago, and each has at least one view. */
  lemma {:induction false} AnswerIsRecent(run: seq<Event>, now: int, path: string)
    ensures path in Tracked(run + [Asked(now)]) <==>
            exists b: nat :: OpenSince(run, b, path) && now - LastSign(run[b..], path) < 3600
    ensures path in Tracked(run) ==> Tracked(run)[path].views >= 1
  {
    var start := TrackedExactly(run, path);
    assert (run + [Asked(now)])[..|run|] == run;
    if path in Tracked(run) {
      forall b: nat | OpenSince(run, b, path)
        ensures LastSign(run[b..], path) == LastSign(run[start..], path)
      {
        LaterStart(run, start, b, path);
      }
      assert run[start..|run|] == run[start..];
    }
  }

  /** An hour's silence loses count for good: of two views, one closed after re-entry leaves none tracked. */
  lemma {:induction false} ExpiryForgetsViews(p: string)
    ensures var run := [Entered(p, 0), Entered(p, 0), Asked(EXPIRY), Entered(p, EXPIRY), Left(p)];
      p !in Tracked(run) && Balance(run, p) == 2
  {
    var s1 := [Entered(p, 0)];
    var s2 := s1 + [Entered(p, 0)];
    var s3 := s2 + [Asked(EXPIRY)];
    var s4 := s3 + [Entered(p, EXPIRY)];
    var s5 := s4 + [Left(p)];
    assert s1[..0] == [] && s2[..1] == s1 && s3[..2] == s2 && s4[..3] == s3 && s5[..4] == s4;
    assert p !in Tracked(s3);
    OneMore([], Entered(p, 0), p);
    assert s1 == [] + [Entered(p, 0)];
    OneMore(s1, Entered(p, 0), p);
    OneMore(s2, Asked(EXPIRY), p);
    OneMore(s3, Entered(p, EXPIRY), p);
    OneMore(s4, Left(p), p);
    assert s5 == [Entered(p, 0), Entered(p, 0), Asked(EXPIRY), Entered(p, EXPIRY), Left(p)];
  }
}
