/** The daemon's upkeep of the stat and listing caches: the full sweep, the revalidation of one
    folder, and the cooldown between revalidations. */
module Refresh {
  import opened Paths
  import opened Drive
  import opened Calls
  import M = MetaCache

  // ---- The sweep --------------------------------------------------------------------

  /** One pass over the cached stat paths. `kept` collects the paths left as they were after an
      error other than "not found", `changed` those to announce. */
  datatype Sweep = Sweep(m: M.Meta, r: Remote, kept: set<string>, changed: set<string>)

  function SweepStat(w: Sweep, path: string): Sweep {
    var (res, r1) := Stat(w.r, path);
    match res
    case Ok(entry) => Sweep(M.StoreStat(w.m, path, entry), r1, w.kept, w.changed + {path})
    case Err(e) =>
      if e == NotFound then Sweep(M.InvalidateStat(w.m, path), r1, w.kept, w.changed)
      else Sweep(w.m, r1, w.kept + {path}, w.changed)
  }

  function SweepStats(w: Sweep, paths: seq<string>): Sweep
    decreases |paths|
  {
    if paths == [] then w else SweepStats(SweepStat(w, paths[0]), paths[1..])
  }

  /** `order(p)` is the order in which Drive lists folder `p`. */
  function SweepListing(w: Sweep, path: string, order: string -> seq<Item>): Sweep {
    var (res, r1) := ListFolder(w.r, path, order(path));
    match res
    case Ok(items) => Sweep(M.StoreListing(w.m, path, items), r1, w.kept, w.changed + M.ChildrenOf(items, path))
    case Err(e) =>
      if e == NotFound then Sweep(M.InvalidateListing(w.m, path), r1, w.kept, w.changed)
      else Sweep(w.m, r1, w.kept + {path}, w.changed)
  }

  function SweepListings(w: Sweep, paths: seq<string>, order: string -> seq<Item>): Sweep
    decreases |paths|
  {
    if paths == [] then w else SweepListings(SweepListing(w, paths[0], order), paths[1..], order)
  }

  /** Both passes; what the second keeps is counted apart. */
  function SweepAll(m: M.Meta, r: Remote, statPaths: seq<string>, listPaths: seq<string>, order: string -> seq<Item>)
    : (Sweep, set<string>)
  {
    var first := SweepStats(Sweep(m, r, {}, {}), statPaths);
    (SweepListings(first.(kept := {}), listPaths, order), first.kept)
  }

  // ---- Which entries are left as they were ------------------------------------------

  /** The i-th coming call reports an error of its own, and not that the path is missing. */
  predicate FailsOtherwise(faults: seq<Option<Fault>>, i: nat) {
    i < |faults| && faults[i].Some? && faults[i].value != NotFound
  }

  /** The paths whose own call does, when each gets one call in turn. */
  function Failing(faults: seq<Option<Fault>>, paths: seq<string>): set<string> {
    set i | 0 <= i < |paths| && FailsOtherwise(faults, i) :: paths[i]
  }

  lemma {:induction false} FailingCons(faults: seq<Option<Fault>>, paths: seq<string>)
    requires paths != []
    ensures Failing(faults, paths) ==
            (if FailsOtherwise(faults, 0) then {paths[0]} else {}) + Failing(Later(faults, 1), paths[1..])
  {
    var rest := Later(faults, 1);
    forall i | 1 <= i < |paths|
      ensures FailsOtherwise(faults, i) <==> FailsOtherwise(rest, i - 1)
    {
      if i < |faults| { assert rest[i - 1] == faults[i]; }
    }
    forall p | p in Failing(faults, paths)
      ensures p in (if FailsOtherwise(faults, 0) then {paths[0]} else {}) + Failing(rest, paths[1..])
    {
      var i :| 0 <= i < |paths| && FailsOtherwise(faults, i) && paths[i] == p;
      if i > 0 { assert paths[1..][i - 1] == p; }
    }
    forall p | p in Failing(rest, paths[1..])
      ensures p in Failing(faults, paths)
    {
      var i :| 0 <= i < |paths[1..]| && FailsOtherwise(rest, i) && paths[1..][i] == p;
      assert paths[i + 1] == p && FailsOtherwise(faults, i + 1);
    }
  }

  lemma {:induction false} KeptByOne(w: Sweep, path: string)
    ensures var w1 := SweepStat(w, path);
      && w1.kept == w.kept + (if FailsOtherwise(w.r.faults, 0) then {path} else {})
      && w1.r.faults == Later(w.r.faults, 1)
  {
  }

  lemma {:induction false} KeptByOneListing(w: Sweep, path: string, order: string -> seq<Item>)
    ensures var w1 := SweepListing(w, path, order);
      && w1.kept == w.kept + (if FailsOtherwise(w.r.faults, 0) then {path} else {})
      && w1.r.faults == Later(w.r.faults, 1)
  {
  }

  /** The first pass keeps exactly the paths whose own stat failed otherwise than by not being found. */
  lemma {:induction false} StatsKept(w: Sweep, paths: seq<string>)
    ensures SweepStats(w, paths).kept == w.kept + Failing(w.r.faults, paths)
    ensures SweepStats(w, paths).r.faults == Later(w.r.faults, |paths|)
    decreases |paths|
  {
    if paths == [] {
      assert w.kept + {} == w.kept;
    } else {
      KeptByOne(w, paths[0]);
      StatsKept(SweepStat(w, paths[0]), paths[1..]);
      FailingCons(w.r.faults, paths);
      LaterTwice(w.r.faults, 1, |paths[1..]|);
    }
  }

  /** The second, exactly those whose own listing did. */
  lemma {:induction false} ListingsKept(w: Sweep, paths: seq<string>, order: string -> seq<Item>)
    ensures SweepListings(w, paths, order).kept == w.kept + Failing(w.r.faults, paths)
    decreases |paths|
  {
    if paths == [] {
      assert w.kept + {} == w.kept;
    } else {
      KeptByOneListing(w, paths[0], order);
      ListingsKept(SweepListing(w, paths[0], order), paths[1..], order);
      FailingCons(w.r.faults, paths);
    }
  }

  // ---- What the sweep achieves ------------------------------------------------------

  /** Drive's current value, or the old one of a path whose own call failed. */
  predicate StatsFresh(m0: M.Meta, m: M.Meta, tree: Tree, kept: set<string>, left: set<string>) {
    forall p :: p in m.stats ==>
      M.LiveStat(m.stats, tree, p) || (p in m0.stats && m.stats[p] == m0.stats[p] && (p in kept || p in left))
  }

  predicate ListingsFresh(m0: M.Meta, m: M.Meta, tree: Tree, kept: set<string>, left: set<string>) {
    forall p :: p in m.listings ==>
      (FolderAt(tree, p) && Lists(tree, p, m.listings[p])) ||
      (p in m0.listings && m.listings[p] == m0.listings[p] && (p in kept || p in left))
  }

  lemma {:induction false} StatsSwept(m0: M.Meta, w: Sweep, paths: seq<string>, tree: Tree)
    requires w.r.tree == tree && StatsFresh(m0, w.m, tree, w.kept, set i | 0 <= i < |paths| :: paths[i])
    ensures var w' := SweepStats(w, paths);
      w'.r.tree == tree && StatsFresh(m0, w'.m, tree, w'.kept, {}) && w'.m.listings == w.m.listings
    decreases |paths|
  {
    if paths != [] {
      var w1 := SweepStat(w, paths[0]);
      forall p | p in w1.m.stats
        ensures M.LiveStat(w1.m.stats, tree, p) ||
          (p in m0.stats && w1.m.stats[p] == m0.stats[p] &&
            (p in w1.kept || p in set i | 0 <= i < |paths[1..]| :: paths[1..][i]))
      {
        if p != paths[0] && p in (set i | 0 <= i < |paths| :: paths[i]) {
          var i :| 0 <= i < |paths| && paths[i] == p;
          assert paths[1..][i - 1] == p;
        }
      }
      StatsSwept(m0, w1, paths[1..], tree);
    }
  }

  /** The first pass leaves the listings alone. */
  lemma {:induction false} StatsAlone(w: Sweep, paths: seq<string>)
    ensures SweepStats(w, paths).m.listings == w.m.listings
    decreases |paths|
  {
    if paths != [] { StatsAlone(SweepStat(w, paths[0]), paths[1..]); }
  }

  lemma {:induction false} ListingsSwept(m0: M.Meta, w: Sweep, paths: seq<string>, order: string -> seq<Item>,
                                         tree: Tree, keptStats: set<string>)
    requires w.r.tree == tree && forall p :: FolderAt(tree, p) ==> Lists(tree, p, order(p))
    requires StatsFresh(m0, w.m, tree, keptStats, {})
    requires ListingsFresh(m0, w.m, tree, w.kept, set i | 0 <= i < |paths| :: paths[i])
    ensures var w' := SweepListings(w, paths, order);
      && w'.r.tree == tree && StatsFresh(m0, w'.m, tree, keptStats, {})
      && ListingsFresh(m0, w'.m, tree, w'.kept, {})
    decreases |paths|
  {
    if paths != [] {
      var w1 := SweepListing(w, paths[0], order);
      if FolderAt(tree, paths[0]) { M.StoredItems(w.m.stats, tree, paths[0], order(paths[0])); }
      StoredStaysFresh(m0, w, w1, paths[0], order, tree, keptStats);
      forall p | p in w1.m.listings
        ensures (FolderAt(tree, p) && Lists(tree, p, w1.m.listings[p])) ||
          (p in m0.listings && w1.m.listings[p] == m0.listings[p] &&
            (p in w1.kept || p in set i | 0 <= i < |paths[1..]| :: paths[1..][i]))
      {
        if p != paths[0] && p in (set i | 0 <= i < |paths| :: paths[i]) {
          var i :| 0 <= i < |paths| && paths[i] == p;
          assert paths[1..][i - 1] == p;
        }
      }
      ListingsSwept(m0, w1, paths[1..], order, tree, keptStats);
    }
  }

  lemma {:induction false} StoredStaysFresh(m0: M.Meta, w: Sweep, w1: Sweep, path: string, order: string -> seq<Item>,
                                            tree: Tree, keptStats: set<string>)
    requires w.r.tree == tree && w1 == SweepListing(w, path, order) && StatsFresh(m0, w.m, tree, keptStats, {})
    requires FolderAt(tree, path) ==> Lists(tree, path, order(path))
    ensures StatsFresh(m0, w1.m, tree, keptStats, {})
  {
    if FolderAt(tree, path) { M.StoredItems(w.m.stats, tree, path, order(path)); }
  }

  /** After a sweep against an unchanging Drive every cached stat and listing is Drive's, except entries
      left as they were because their own call failed, otherwise than by not being found. */
  lemma {:induction false} SweepMakesFresh(m: M.Meta, r: Remote, statPaths: seq<string>, listPaths: seq<string>,
                                           order: string -> seq<Item>)
    requires forall p :: FolderAt(r.tree, p) ==> Lists(r.tree, p, order(p))
    requires (forall p :: p in m.stats ==> p in statPaths) && (forall p :: p in m.listings ==> p in listPaths)
    ensures var (w, keptStats) := SweepAll(m, r, statPaths, listPaths, order);
      && w.r.tree == r.tree
      && keptStats == Failing(r.faults, statPaths)
      && w.kept == Failing(Later(r.faults, |statPaths|), listPaths)
      && (forall p :: p in w.m.stats ==>
            M.LiveStat(w.m.stats, r.tree, p) || (p in keptStats && p in m.stats && w.m.stats[p] == m.stats[p]))
      && (forall p :: p in w.m.listings ==>
            (FolderAt(r.tree, p) && Lists(r.tree, p, w.m.listings[p])) ||
            (p in w.kept && p in m.listings && w.m.listings[p] == m.listings[p]))
  {
    var w0 := Sweep(m, r, {}, {});
    forall p | p in m.stats
      ensures p in set i | 0 <= i < |statPaths| :: statPaths[i]
    {
      var i :| 0 <= i < |statPaths| && statPaths[i] == p;
    }
    forall p | p in m.listings
      ensures p in set i | 0 <= i < |listPaths| :: listPaths[i]
    {
      var i :| 0 <= i < |listPaths| && listPaths[i] == p;
    }
    StatsSwept(m, w0, statPaths, r.tree);
    StatsKept(w0, statPaths);
    var w1 := SweepStats(w0, statPaths);
    ListingsSwept(m, w1.(kept := {}), listPaths, order, r.tree, w1.kept);
    ListingsKept(w1.(kept := {}), listPaths, order);
  }

  /** When no call fails by itself, everything cached afterwards is Drive's. */
  lemma {:induction false} CalmSweepIsLive(m: M.Meta, r: Remote, statPaths: seq<string>, listPaths: seq<string>,
                                           order: string -> seq<Item>)
    requires forall p :: FolderAt(r.tree, p) ==> Lists(r.tree, p, order(p))
    requires (forall p :: p in m.stats ==> p in statPaths) && (forall p :: p in m.listings ==> p in listPaths)
    requires r.faults == []
    ensures var w := SweepAll(m, r, statPaths, listPaths, order).0;
      && (forall p :: p in w.m.stats ==> M.LiveStat(w.m.stats, r.tree, p))
      && (forall p :: p in w.m.listings ==> FolderAt(r.tree, p) && Lists(r.tree, p, w.m.listings[p]))
  {
    SweepMakesFresh(m, r, statPaths, listPaths, order);
    assert Failing([], statPaths) == {} && Failing([], listPaths) == {};
  }

  // ---- What is dropped, and what is told --------------------------------------------

  /** What becomes of an entry: Drive answers with its value, or that it is gone, or the call fails. */
  datatype Fate = Renewed | Gone | Kept

  function FateOf(faults: seq<Option<Fault>>, i: nat, there: bool): Fate {
    match FaultAt(faults, i)
    case None => if there then Renewed else Gone
    case Some(e) => if e == NotFound then Gone else Kept
  }

  predicate Distinct(paths: seq<string>) {
    forall i, j :: 0 <= i < j < |paths| ==> paths[i] != paths[j]
  }

  predicate StatIs(m: M.Meta, m': M.Meta, tree: Tree, p: string, fate: Fate) {
    match fate
    case Renewed => M.LiveStat(m'.stats, tree, p)
    case Gone => p !in m'.stats
    case Kept => M.SameStat(m, m', p)
  }

  predicate ListingIs(m: M.Meta, m': M.Meta, p: string, reply: seq<Item>, fate: Fate) {
    match fate
    case Renewed => p in m'.listings && m'.listings[p] == reply
    case Gone => p !in m'.listings
    case Kept => M.SameListing(m, m', p)
  }

  /** A path whose stat was renewed. */
  ghost predicate Renews(faults: seq<Option<Fault>>, tree: Tree, paths: seq<string>, p: string) {
    exists i: nat :: i < |paths| && paths[i] == p && FateOf(faults, i, p in tree) == Renewed
  }

  /** A child of the i-th folder, whose listing was renewed. */
  predicate ChildOf(faults: seq<Option<Fault>>, tree: Tree, paths: seq<string>, order: string -> seq<Item>, i: nat,
                    p: string)
  {
    i < |paths| && FateOf(faults, i, FolderAt(tree, paths[i])) == Renewed &&
    p in M.ChildrenOf(order(paths[i]), paths[i])
  }

  ghost predicate Covers(faults: seq<Option<Fault>>, tree: Tree, paths: seq<string>, order: string -> seq<Item>,
                         p: string)
  {
    exists i: nat :: ChildOf(faults, tree, paths, order, i, p)
  }

  lemma {:induction false} OneStat(w: Sweep, path: string)
    ensures var w1 := SweepStat(w, path);
      var fate := FateOf(w.r.faults, 0, path in w.r.tree);
      && w1.r.tree == w.r.tree && w1.r.faults == Later(w.r.faults, 1) && w1.m.listings == w.m.listings
      && StatIs(w.m, w1.m, w.r.tree, path, fate)
      && (forall p :: p != path ==> M.SameStat(w.m, w1.m, p))
      && w1.changed == w.changed + (if fate == Renewed then {path} else {})
  {
  }

  lemma {:induction false} RenewsCons(faults: seq<Option<Fault>>, tree: Tree, paths: seq<string>, p: string)
    requires paths != []
    ensures Renews(faults, tree, paths, p) <==>
            (p == paths[0] && FateOf(faults, 0, p in tree) == Renewed) || Renews(Later(faults, 1), tree, paths[1..], p)
  {
    var rest := paths[1..];
    if i: nat :| i < |paths| && paths[i] == p && FateOf(faults, i, p in tree) == Renewed {
      if i > 0 {
        LaterTwice(faults, 1, i - 1);
        assert rest[i - 1] == p && FateOf(Later(faults, 1), i - 1, p in tree) == Renewed;
      }
    }
    if i: nat :| i < |rest| && rest[i] == p && FateOf(Later(faults, 1), i, p in tree) == Renewed {
      LaterTwice(faults, 1, i);
      assert paths[i + 1] == p && FateOf(faults, i + 1, p in tree) == Renewed;
    }
  }

  lemma {:induction false} CoversCons(faults: seq<Option<Fault>>, tree: Tree, paths: seq<string>,
                                      order: string -> seq<Item>, p: string)
    requires paths != []
    ensures Covers(faults, tree, paths, order, p) <==>
            ChildOf(faults, tree, paths, order, 0, p) || Covers(Later(faults, 1), tree, paths[1..], order, p)
  {
    if i: nat :| ChildOf(faults, tree, paths, order, i, p) {
      if i > 0 {
        LaterTwice(faults, 1, i - 1);
        assert ChildOf(Later(faults, 1), tree, paths[1..], order, i - 1, p);
      }
    }
    if i: nat :| ChildOf(Later(faults, 1), tree, paths[1..], order, i, p) {
      LaterTwice(faults, 1, i);
      assert ChildOf(faults, tree, paths, order, i + 1, p);
    }
  }

  /** Each path's stat is settled by its own call. */
  ghost predicate StatsAre(m: M.Meta, m': M.Meta, faults: seq<Option<Fault>>, tree: Tree, paths: seq<string>) {
    && (forall i :: 0 <= i < |paths| ==> StatIs(m, m', tree, paths[i], FateOf(faults, i, paths[i] in tree)))
    && (forall p :: p !in paths ==> M.SameStat(m, m', p))
  }

  ghost predicate ListingsAre(m: M.Meta, m': M.Meta, faults: seq<Option<Fault>>, tree: Tree, paths: seq<string>,
                        order: string -> seq<Item>)
  {
    && (forall i :: 0 <= i < |paths| ==>
          ListingIs(m, m', paths[i], order(paths[i]), FateOf(faults, i, FolderAt(tree, paths[i]))))
    && (forall p :: p !in paths ==> M.SameListing(m, m', p))
  }

  lemma {:induction false} StatsAreCons(m: M.Meta, m1: M.Meta, m': M.Meta, faults: seq<Option<Fault>>, tree: Tree,
                                        paths: seq<string>)
    requires paths != [] && Distinct(paths) && StatsAre(m1, m', Later(faults, 1), tree, paths[1..])
    requires StatIs(m, m1, tree, paths[0], FateOf(faults, 0, paths[0] in tree))
    requires forall p :: p != paths[0] ==> M.SameStat(m, m1, p)
    ensures StatsAre(m, m', faults, tree, paths)
  {
    var rest := paths[1..];
    assert paths[0] !in rest;
    forall i | 0 <= i < |paths|
      ensures StatIs(m, m', tree, paths[i], FateOf(faults, i, paths[i] in tree))
    {
      if i == 0 {
        assert M.SameStat(m1, m', paths[0]);
      } else {
        LaterTwice(faults, 1, i - 1);
        assert rest[i - 1] == paths[i] && M.SameStat(m, m1, paths[i]);
      }
    }
    forall p | p !in paths
      ensures M.SameStat(m, m', p)
    {
      assert p != paths[0] && p !in rest;
      assert M.SameStat(m, m1, p) && M.SameStat(m1, m', p);
    }
  }

  lemma {:induction false} ListingsAreCons(m: M.Meta, m1: M.Meta, m': M.Meta, faults: seq<Option<Fault>>, tree: Tree,
                                           paths: seq<string>, order: string -> seq<Item>)
    requires paths != [] && Distinct(paths) && ListingsAre(m1, m', Later(faults, 1), tree, paths[1..], order)
    requires ListingIs(m, m1, paths[0], order(paths[0]), FateOf(faults, 0, FolderAt(tree, paths[0])))
    requires forall p :: p != paths[0] ==> M.SameListing(m, m1, p)
    ensures ListingsAre(m, m', faults, tree, paths, order)
  {
    var rest := paths[1..];
    assert paths[0] !in rest;
    forall i | 0 <= i < |paths|
      ensures ListingIs(m, m', paths[i], order(paths[i]), FateOf(faults, i, FolderAt(tree, paths[i])))
    {
      if i == 0 {
        assert M.SameListing(m1, m', paths[0]);
      } else {
        LaterTwice(faults, 1, i - 1);
        assert rest[i - 1] == paths[i] && M.SameListing(m, m1, paths[i]);
      }
    }
    forall p | p !in paths
      ensures M.SameListing(m, m', p)
    {
      assert p != paths[0] && p !in rest;
      assert M.SameListing(m, m1, p) && M.SameListing(m1, m', p);
    }
  }

  /** The first pass settles each path's stat and touches no other; it announces exactly the renewed ones. */
  lemma {:induction false} StatsSettled(w: Sweep, paths: seq<string>)
    requires Distinct(paths)
    ensures var w' := SweepStats(w, paths);
      && w'.r.tree == w.r.tree && w'.m.listings == w.m.listings
      && StatsAre(w.m, w'.m, w.r.faults, w.r.tree, paths)
      && (forall p :: p in w'.changed <==> p in w.changed || Renews(w.r.faults, w.r.tree, paths, p))
    decreases |paths|
  {
    if paths != [] {
      var w1, w' := SweepStat(w, paths[0]), SweepStats(w, paths);
      OneStat(w, paths[0]);
      StatsSettled(w1, paths[1..]);
      StatsAreCons(w.m, w1.m, w'.m, w.r.faults, w.r.tree, paths);
      forall p
        ensures p in w'.changed <==> p in w.changed || Renews(w.r.faults, w.r.tree, paths, p)
      {
        RenewsCons(w.r.faults, w.r.tree, paths, p);
      }
    }
  }

  lemma {:induction false} OneListing(w: Sweep, path: string, order: string -> seq<Item>)
    requires FolderAt(w.r.tree, path) ==> Lists(w.r.tree, path, order(path))
    ensures var w1 := SweepListing(w, path, order);
      var fate := FateOf(w.r.faults, 0, FolderAt(w.r.tree, path));
      var children := if fate == Renewed then M.ChildrenOf(order(path), path) else {};
      && w1.r.tree == w.r.tree && w1.r.faults == Later(w.r.faults, 1)
      && ListingIs(w.m, w1.m, path, order(path), fate)
      && (forall p :: p != path ==> M.SameListing(w.m, w1.m, p))
      && (forall p :: p in children ==> M.LiveStat(w1.m.stats, w.r.tree, p))
      && (forall p :: p !in children ==> M.SameStat(w.m, w1.m, p))
      && w1.changed == w.changed + children
  {
    if FateOf(w.r.faults, 0, FolderAt(w.r.tree, path)) == Renewed {
      M.StoredExactly(w.m.stats, w.r.tree, path, order(path));
    }
  }

  /** The children of renewed folders have Drive's entry as their stat, and no other stat changed. */
  ghost predicate ChildrenAre(m: M.Meta, m': M.Meta, faults: seq<Option<Fault>>, tree: Tree, paths: seq<string>,
                              order: string -> seq<Item>)
  {
    forall p :: if Covers(faults, tree, paths, order, p) then M.LiveStat(m'.stats, tree, p) else M.SameStat(m, m', p)
  }

  lemma {:induction false} ChildrenAreCons(m: M.Meta, m1: M.Meta, m': M.Meta, faults: seq<Option<Fault>>, tree: Tree,
                                           paths: seq<string>, order: string -> seq<Item>)
    requires paths != [] && ChildrenAre(m1, m', Later(faults, 1), tree, paths[1..], order)
    requires forall p :: ChildOf(faults, tree, paths, order, 0, p) ==> M.LiveStat(m1.stats, tree, p)
    requires forall p :: !ChildOf(faults, tree, paths, order, 0, p) ==> M.SameStat(m, m1, p)
    ensures ChildrenAre(m, m', faults, tree, paths, order)
  {
    forall p
      ensures if Covers(faults, tree, paths, order, p) then M.LiveStat(m'.stats, tree, p) else M.SameStat(m, m', p)
    {
      CoversCons(faults, tree, paths, order, p);
    }
  }

  /** The second pass does the same for the listings; the children of the renewed ones get Drive's entry as
      their stat and are announced. */
  lemma {:induction false} ListingsSettled(w: Sweep, paths: seq<string>, order: string -> seq<Item>)
    requires Distinct(paths) && forall p :: FolderAt(w.r.tree, p) ==> Lists(w.r.tree, p, order(p))
    ensures var w' := SweepListings(w, paths, order);
      && ListingsAre(w.m, w'.m, w.r.faults, w.r.tree, paths, order)
      && ChildrenAre(w.m, w'.m, w.r.faults, w.r.tree, paths, order)
      && (forall p :: p in w'.changed <==> p in w.changed || Covers(w.r.faults, w.r.tree, paths, order, p))
    decreases |paths|
  {
    if paths != [] {
      var w1, w' := SweepListing(w, paths[0], order), SweepListings(w, paths, order);
      OneListing(w, paths[0], order);
      ListingsSettled(w1, paths[1..], order);
      ListingsAreCons(w.m, w1.m, w'.m, w.r.faults, w.r.tree, paths, order);
      ChildrenAreCons(w.m, w1.m, w'.m, w.r.faults, w.r.tree, paths, order);
      forall p
        ensures p in w'.changed <==> p in w.changed || Covers(w.r.faults, w.r.tree, paths, order, p)
      {
        CoversCons(w.r.faults, w.r.tree, paths, order, p);
      }
    }
  }

  /** What the whole sweep settles; `later` is the script left for the second pass. */
  ghost predicate Settled(m: M.Meta, r: Remote, statPaths: seq<string>, listPaths: seq<string>,
                          order: string -> seq<Item>, m': M.Meta, changed: set<string>)
  {
    var later := Later(r.faults, |statPaths|);
    && ListingsAre(m, m', later, r.tree, listPaths, order)
    && (forall i :: 0 <= i < |statPaths| && !Covers(later, r.tree, listPaths, order, statPaths[i]) ==>
          StatIs(m, m', r.tree, statPaths[i], FateOf(r.faults, i, statPaths[i] in r.tree)))
    && (forall p :: Covers(later, r.tree, listPaths, order, p) ==> M.LiveStat(m'.stats, r.tree, p))
    && (forall p :: p !in statPaths && !Covers(later, r.tree, listPaths, order, p) ==> M.SameStat(m, m', p))
    && (forall p :: p in changed <==>
          Renews(r.faults, r.tree, statPaths, p) || Covers(later, r.tree, listPaths, order, p))
  }

  /** The sweep drops exactly what Drive says is gone, holds Drive's value wherever Drive gave one, leaves the
      rest alone, and announces exactly what it renewed. */
  lemma {:induction false} SweepSettles(m: M.Meta, r: Remote, statPaths: seq<string>, listPaths: seq<string>,
                                        order: string -> seq<Item>)
    requires forall p :: FolderAt(r.tree, p) ==> Lists(r.tree, p, order(p))
    requires Distinct(statPaths) && Distinct(listPaths)
    ensures var w := SweepAll(m, r, statPaths, listPaths, order).0;
      Settled(m, r, statPaths, listPaths, order, w.m, w.changed)
  {
    var w0 := Sweep(m, r, {}, {});
    StatsSettled(w0, statPaths);
    StatsKept(w0, statPaths);
    var w1 := SweepStats(w0, statPaths).(kept := {});
    ListingsSettled(w1, listPaths, order);
    SameBefore(m, w1.m, SweepListings(w1, listPaths, order).m, w1.r.faults, r.tree, listPaths, order);
  }

  lemma {:induction false} SameBefore(m: M.Meta, m1: M.Meta, m': M.Meta, faults: seq<Option<Fault>>, tree: Tree,
                                      paths: seq<string>, order: string -> seq<Item>)
    requires m1.listings == m.listings && ListingsAre(m1, m', faults, tree, paths, order)
    ensures ListingsAre(m, m', faults, tree, paths, order)
  {
    forall i | 0 <= i < |paths|
      ensures ListingIs(m, m', paths[i], order(paths[i]), FateOf(faults, i, FolderAt(tree, paths[i])))
    {
      assert ListingIs(m1, m', paths[i], order(paths[i]), FateOf(faults, i, FolderAt(tree, paths[i])));
    }
    forall p | p !in paths
      ensures M.SameListing(m, m', p)
    {
      assert M.SameListing(m1, m', p);
    }
  }

  /** Each pass checks an entry as `RecheckStat` and `RecheckListing` do. */
  lemma {:induction false} SweepRechecks(w: Sweep, path: string, order: string -> seq<Item>)
    ensures var w1 := SweepStat(w, path);
      (w1.m, w1.r) == M.RecheckStat(w.m, w.r, path)
    ensures var w1 := SweepListing(w, path, order);
      (w1.m, w1.r) == M.RecheckListing(w.m, w.r, path, order(path))
  {
  }

  // ---- The cooldown -----------------------------------------------------------------

  const COOLDOWN := 10

  /** `Instant::elapsed`, which never goes below zero. */
  function Elapsed(at: int, now: int): nat {
    if now < at then 0 else now - at
  }

  /** `claim_revalidation`: forget old entries, refuse a recent one, record a new one. */
  function Claim(last: map<string, int>, parent: string, now: int): (bool, map<string, int>) {
    var recent := map p | p in last && Elapsed(last[p], now) < COOLDOWN :: last[p];
    if parent in recent then (false, recent) else (true, recent[parent := now])
  }

  datatype Request = Request(parent: string, now: int)

  function ClaimsAfter(reqs: seq<Request>): map<string, int>
    decreases |reqs|
  {
    if reqs == [] then map[]
    else
      var last := reqs[|reqs| - 1];
      Claim(ClaimsAfter(reqs[..|reqs| - 1]), last.parent, last.now).1
  }

  /** Whether the k-th request was granted. */
  predicate Granted(reqs: seq<Request>, k: nat)
    requires k < |reqs|
  {
    Claim(ClaimsAfter(reqs[..k]), reqs[k].parent, reqs[k].now).0
  }

  predicate InTimeOrder(reqs: seq<Request>) {
    forall i, j :: 0 <= i < j < |reqs| ==> reqs[i].now <= reqs[j].now
  }

  /** A grant for `parent` less than ten seconds before `now`. */
  ghost predicate RecentGrant(reqs: seq<Request>, n: nat, parent: string, now: int)
    requires n <= |reqs|
  {
    exists i :: 0 <= i < n && reqs[i].parent == parent && Granted(reqs, i) && now - reqs[i].now < 10
  }

  predicate Recent(last: map<string, int>, parent: string, now: int) {
    parent in last && Elapsed(last[parent], now) < COOLDOWN
  }

  /** What one claim does to who counts as recent later on. */
  lemma {:induction false} ClaimThenRecent(last: map<string, int>, req: Request, parent: string, now: int)
    requires req.now <= now && (parent in last ==> last[parent] <= req.now)
    ensures var (granted, last') := Claim(last, req.parent, req.now);
      && (Recent(last', parent, now) <==>
            Recent(last, parent, now) || (req.parent == parent && granted && now - req.now < COOLDOWN))
      && (parent in last' ==> last'[parent] <= now)
  {
  }

  lemma {:induction false} MapKnowsRecentGrants(reqs: seq<Request>, n: nat, parent: string, now: int)
    requires InTimeOrder(reqs) && n <= |reqs| && forall i :: 0 <= i < n ==> reqs[i].now <= now
    ensures Recent(ClaimsAfter(reqs[..n]), parent, now) <==> RecentGrant(reqs, n, parent, now)
    ensures parent in ClaimsAfter(reqs[..n]) ==> ClaimsAfter(reqs[..n])[parent] <= now
    decreases n
  {
    if n > 0 {
      var req, last := reqs[n - 1], ClaimsAfter(reqs[..n - 1]);
      assert reqs[..n][..n - 1] == reqs[..n - 1];
      MapKnowsRecentGrants(reqs, n - 1, parent, now);
      MapKnowsRecentGrants(reqs, n - 1, parent, req.now);
      ClaimThenRecent(last, req, parent, now);
      RecentGrantStep(reqs, n, parent, now);
      assert ClaimsAfter(reqs[..n]) == Claim(last, req.parent, req.now).1;
      assert Granted(reqs, n - 1) == Claim(last, req.parent, req.now).0;
    }
  }

  lemma {:induction false} RecentGrantStep(reqs: seq<Request>, n: nat, parent: string, now: int)
    requires 0 < n <= |reqs|
    ensures RecentGrant(reqs, n, parent, now) <==>
      RecentGrant(reqs, n - 1, parent, now) ||
      (reqs[n - 1].parent == parent && Granted(reqs, n - 1) && now - reqs[n - 1].now < 10)
  {
    if RecentGrant(reqs, n - 1, parent, now) {
      var i :| 0 <= i < n - 1 && reqs[i].parent == parent && Granted(reqs, i) && now - reqs[i].now < 10;
    }
  }

  /** The record holds nothing older than ten seconds, as of its last request. */
  lemma {:induction false} OldClaimsGo(reqs: seq<Request>, p: string)
    requires reqs != [] && p in ClaimsAfter(reqs)
    ensures reqs[|reqs| - 1].now - ClaimsAfter(reqs)[p] < 10
  {
  }

  /** A request is granted exactly when no request for the same folder was granted less than ten
      seconds before it: grants are at least that far apart, and waiting it out is enough. */
  lemma {:induction false} GrantedIff(reqs: seq<Request>, k: nat)
    requires InTimeOrder(reqs) && k < |reqs|
    ensures Granted(reqs, k) <==> !RecentGrant(reqs, k, reqs[k].parent, reqs[k].now)
  {
    MapKnowsRecentGrants(reqs, k, reqs[k].parent, reqs[k].now);
  }

  // ---- Revalidating one folder ------------------------------------------------------

  /** `revalidate_listing`: whether Dolphin is told to list the folder again. */
  function Revalidate(m: M.Meta, last: map<string, int>, r: Remote, parent: string, now: int, reply: seq<Item>)
    : (M.Meta, map<string, int>, Remote, bool)
  {
    if parent == "/" || parent == "" then (m, last, r, false)
    else
      var (granted, last1) := Claim(last, parent, now);
      if !granted then (m, last1, r, false)
      else
        var (res, r1) := ListFolder(r, parent, reply);
        match res
        case Ok(items) =>
          if parent in m.listings && m.listings[parent] == items then (m, last1, r1, false)
          else (M.StoreListing(m, parent, items), last1, r1, true)
        case Err(e) => (if e == NotFound then M.InvalidateListing(m, parent) else m, last1, r1, false)
  }

  /** Drive is asked exactly for a real folder that was not claimed a moment ago; Dolphin is told exactly when
      Drive then lists something else than was cached; and the cached listing becomes Drive's answer, or goes
      when the folder is gone, or stays when the call failed. */
  lemma {:induction false} ToldIff(m: M.Meta, last: map<string, int>, r: Remote, parent: string, now: int,
                                   reply: seq<Item>)
    ensures var (m', _, r', told) := Revalidate(m, last, r, parent, now, reply);
      var asked := parent != "/" && parent != "" && !Recent(last, parent, now);
      var fate := FateOf(r.faults, 0, FolderAt(r.tree, parent));
      && Since(r, r') == (if asked then [List(parent)] else []) && r'.tree == r.tree
      && (told <==> asked && fate == Renewed && !(parent in m.listings && m.listings[parent] == reply))
      && (if asked then ListingIs(m, m', parent, reply, fate) else m' == m)
      && (forall p :: p != parent ==> M.SameListing(m, m', p))
      && (!told ==> m'.stats == m.stats)
  {
  }

  /** Dolphin lists a folder, or the daemon revalidates one; `reply` is Drive's answer then. */
  datatype Visit = Browse(path: string, reply: seq<Item>) | Check(path: string, now: int, reply: seq<Item>)

  datatype View = View(m: M.Meta, last: map<string, int>, r: Remote)

  function Do(v: View, visit: Visit): (View, bool) {
    match visit
    case Browse(path, reply) =>
      var (m, r, _) := M.ListDir(v.m, v.r, path, reply);
      (View(m, v.last, r), false)
    case Check(path, now, reply) =>
      var (m, last, r, told) := Revalidate(v.m, v.last, v.r, path, now, reply);
      (View(m, last, r), told)
  }

  /** How often the visits made the daemon tell Dolphin to list `path` again. */
  function Told(v: View, visits: seq<Visit>, path: string): nat
    decreases |visits|
  {
    if visits == [] then 0
    else
      var (v1, told) := Do(v, visits[0]);
      (if told && visits[0].path == path then 1 else 0) + Told(v1, visits[1..], path)
  }

  /** Drive keeps listing `path` the same way, and never reports it missing. */
  predicate SteadyAnswer(v: View, visits: seq<Visit>, path: string, answer: seq<Item>)
    decreases |visits|
  {
    visits == [] ||
    (var visit := visits[0];
     && (visit.path == path ==> visit.reply == answer && ListFolder(v.r, path, answer).0 != Err(NotFound))
     && SteadyAnswer(Do(v, visit).0, visits[1..], path, answer))
  }

  lemma {:induction false} SettledIsQuiet(v: View, visits: seq<Visit>, path: string, answer: seq<Item>)
    requires SteadyAnswer(v, visits, path, answer) && path in v.m.listings && v.m.listings[path] == answer
    ensures Told(v, visits, path) == 0
    decreases |visits|
  {
    if visits != [] {
      SettledIsQuiet(Do(v, visits[0]).0, visits[1..], path, answer);
    }
  }

  /** While Drive's answer for a folder stays the same, browsing and revalidating it, in any
      order and however often, makes Dolphin list it again at most once. */
  lemma {:induction false} ToldAtMostOnce(v: View, visits: seq<Visit>, path: string, answer: seq<Item>)
    requires SteadyAnswer(v, visits, path, answer)
    ensures Told(v, visits, path) <= 1
    decreases |visits|
  {
    if visits != [] {
      var (v1, told) := Do(v, visits[0]);
      if told && visits[0].path == path {
        SettledIsQuiet(v1, visits[1..], path, answer);
      } else {
        ToldAtMostOnce(v1, visits[1..], path, answer);
      }
    }
  }
}
