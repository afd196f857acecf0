/** The calls on whole trees. `rename_tree`: the pins of one tree, and their local copies, move to
    another tree and nothing else changes. `unpin_tree`: they go, up to the first that may not. */
module PinTree {
  import opened Paths
  import opened Relocation
  import opened Drive
  import opened PinStore

  function Mirrored(root: string, m: Rows): Rows {
    map k | k in m :: m[k].(local := root + k)
  }

  /** The local copies, among the files on disk, of the paths in `paths`. */
  function Copies(root: string, disk: Disk, paths: set<string>): set<string> {
    set l | l in disk && root <= l && l[|root|..] in paths
  }

  lemma {:induction false} LocalTree(root: string, src: string, dst: string, q: string)
    requires Under(src, q)
    ensures Under(root + src, root + q)
    ensures Rekey(root + src, root + dst, root + q) == root + Rekey(src, dst, q)
    ensures (root + q)[|root|..] == q
  {
    assert (root + q)[..|root + src|] == root + q[..|src|];
  }

  lemma {:induction false} CopiesBelow(root: string, disk: Disk, paths: set<string>, src: string)
    requires forall q :: q in paths ==> Under(src, q)
    ensures forall l :: l in Copies(root, disk, paths) ==> Under(root + src, l)
  {
    forall l | l in Copies(root, disk, paths)
      ensures Under(root + src, l)
    {
      LocalTree(root, src, src, l[|root|..]);
      assert l == root + l[|root|..];
    }
  }

  lemma {:induction false} LocalUnder(root: string, src: string, p: string)
    requires Under(root + src, root + p)
    ensures Under(src, p)
  {
    assert (root + p)[|root|..] == p && (root + src)[|root|..] == src;
    if root + p != root + src {
      assert p[..|src|] == (root + p)[..|root + src|][|root|..] == src;
      assert p[|src|] == (root + p)[|root + src|];
    }
  }

  lemma {:induction false} LocalTreesApart(root: string, src: string, dst: string)
    requires !Under(src, dst)
    ensures !Under(root + src, root + dst)
  {
    if Under(root + src, root + dst) { LocalUnder(root, src, dst); }
  }

  ghost function AfterPins(s: PinState, done: set<string>, src: string, dst: string): Rows
    requires done <= s.pins.Keys && forall q :: q in done ==> Under(src, q)
  {
    Mirrored(s.root, MoveKeys(s.pins, done, src, dst))
  }

  ghost function AfterDisk(s: PinState, done: set<string>, src: string, dst: string): Disk
    requires forall q :: q in done ==> Under(src, q)
  {
    CopiesBelow(s.root, s.disk, done, src);
    MoveKeys(s.disk, Copies(s.root, s.disk, done), s.root + src, s.root + dst)
  }

  /** The state once the pins in `done` have moved. */
  ghost function After(s: PinState, done: set<string>, src: string, dst: string): PinState
    requires done <= s.pins.Keys && forall q :: q in done ==> Under(src, q)
  {
    PinState(s.root, AfterPins(s, done, src, dst), AfterDisk(s, done, src, dst))
  }

  /** The situation the move is for: normal paths, trees apart, nothing pinned in the new tree. */
  predicate Movable(s: PinState, src: string, dst: string) {
    && Mirror(s) && Norm(src) && Norm(dst) && !Under(src, dst) && !Under(dst, src)
    && forall q :: q in s.pins ==> !Under(dst, q)
  }

  lemma {:induction false} MirroredAlready(s: PinState)
    requires Mirror(s)
    ensures Mirrored(s.root, s.pins) == s.pins
  {
  }

  lemma {:induction false} AfterNothing(s: PinState, src: string, dst: string)
    requires Mirror(s)
    ensures After(s, {}, src, dst) == s
  {
    MoveNothing(s.pins, src, dst);
    MoveNothing(s.disk, src, dst);
    MirroredAlready(s);
    assert Copies(s.root, s.disk, {}) == {};
  }

  lemma {:induction false} AfterOnePin(s: PinState, done: set<string>, q: string, src: string, dst: string)
    requires Movable(s, src, dst) && done <= s.pins.Keys && q in s.pins && q !in done
    requires Under(src, q) && forall k :: k in done ==> Under(src, k)
    ensures var target := Rekey(src, dst, q);
      var pins, pins' := AfterPins(s, done, src, dst), AfterPins(s, done + {q}, src, dst);
      && q in pins && target !in pins && pins[q] == s.pins[q]
      && pins' == (pins - {q})[target := s.pins[q].(local := s.root + target)]
      && target != q
  {
    var target := Rekey(src, dst, q);
    MoveOneMore(s.pins, done, q, src, dst);
    RekeyUnder(src, dst, q);
    DisjointTrees(src, dst, q);
    var moved := MoveKeys(s.pins, done, src, dst);
    assert Under(dst, target) && !Arrived(done, src, dst, target) && target !in moved;
    MirroredStep(s.root, moved, q, target);
    assert moved[q] == s.pins[q];
  }

  lemma {:induction false} MirroredStep(root: string, m: Rows, q: string, target: string)
    requires q in m
    ensures Mirrored(root, (m - {q})[target := m[q]]) ==
            (Mirrored(root, m) - {q})[target := m[q].(local := root + target)]
  {
  }

  lemma {:induction false} AfterOneFile(s: PinState, done: set<string>, q: string, src: string, dst: string)
    requires Movable(s, src, dst) && done <= s.pins.Keys && q in s.pins && q !in done
    requires Under(src, q) && forall k :: k in done ==> Under(src, k)
    ensures var disk, disk' := AfterDisk(s, done, src, dst), AfterDisk(s, done + {q}, src, dst);
      var l, l' := s.root + q, s.root + Rekey(src, dst, q);
      && (l in disk <==> l in s.disk) && (l in disk ==> disk[l] == s.disk[l])
      && disk' == (if l in disk then (disk - {l})[l' := disk[l]] else disk)
  {
    var l := s.root + q;
    LocalTree(s.root, src, dst, q);
    LocalTreesApart(s.root, src, dst);
    LocalTreesApart(s.root, dst, src);
    var c := Copies(s.root, s.disk, done);
    CopiesBelow(s.root, s.disk, done, src);
    CopiesOneMore(s.root, s.disk, done, q);
    MoveOneIfThere(s.disk, c, l, s.root + src, s.root + dst);
  }

  lemma {:induction false} CopiesOneMore(root: string, disk: Disk, done: set<string>, q: string)
    ensures Copies(root, disk, done + {q}) == Copies(root, disk, done) + (if root + q in disk then {root + q} else {})
  {
    forall x | x in Copies(root, disk, done + {q})
      ensures x in Copies(root, disk, done) || x == root + q
    {
      assert x == root + x[|root|..];
    }
    assert (root + q)[|root|..] == q;
  }

  /** One round takes the state one pin further, or leaves it and reports the stuck file. */
  lemma {:induction false} OneRound(s: PinState, done: set<string>, q: string, src: string, dst: string,
                                    stuck: set<string>)
    requires Movable(s, src, dst) && done <= s.pins.Keys && q in s.pins && q !in done
    requires Under(src, q) && forall k :: k in done ==> Under(src, k)
    ensures var (s1, res) := MoveRow(After(s, done, src, dst), q, s.pins[q].local, src, dst, stuck);
      s1 == After(s, if res.Ok? then done + {q} else done, src, dst) && (stuck == {} ==> res.Ok?)
  {
    MoveRowIs(After(s, done, src, dst), q, s.pins[q].local, src, dst, stuck);
    AfterOnePin(s, done, q, src, dst);
    AfterOneFile(s, done, q, src, dst);
    MoveRowToFree(After(s, done, src, dst), q, Rekey(src, dst, q), s.root + Rekey(src, dst, q), stuck);
  }

  function Elems(rows: seq<string>): set<string> {
    set i | 0 <= i < |rows| :: rows[i]
  }

  /** The rows still to do are distinct pins of the tree, none of them done. */
  ghost predicate ToDo(s: PinState, done: set<string>, rows: seq<string>, src: string) {
    && done <= s.pins.Keys
    && (forall q :: q in done ==> Under(src, q))
    && (forall i :: 0 <= i < |rows| ==> rows[i] in s.pins && Under(src, rows[i]) && rows[i] !in done)
    && (forall i, j :: 0 <= i < j < |rows| ==> rows[i] != rows[j])
  }

  lemma {:induction false} ToDoNext(s: PinState, done: set<string>, rows: seq<string>, src: string)
    requires ToDo(s, done, rows, src) && rows != []
    ensures ToDo(s, done + {rows[0]}, rows[1..], src)
    ensures forall i :: 0 <= i < |rows[1..]| ==> rows[1..][i] in s.pins && Under(src, rows[1..][i])
  {
  }

  lemma {:induction false} Rounds(s: PinState, done: set<string>, rows: seq<string>, src: string, dst: string,
                                  stuck: set<string>)
    returns (k: nat)
    requires Movable(s, src, dst) && ToDo(s, done, rows, src)
    ensures k <= |rows| && done + Elems(rows[..k]) <= s.pins.Keys && (stuck == {} ==> k == |rows|)
    ensures forall q :: q in done + Elems(rows[..k]) ==> Under(src, q)
    ensures var (s1, res) := RenameRows(After(s, done, src, dst), s.pins, rows, src, dst, stuck);
      (res.Ok? <==> k == |rows|) && s1 == After(s, done + Elems(rows[..k]), src, dst)
    decreases |rows|
  {
    if rows == [] {
      k := 0;
      assert done + Elems([]) == done;
      return;
    }
    var q := rows[0];
    OneRound(s, done, q, src, dst, stuck);
    var res := MoveRow(After(s, done, src, dst), q, s.pins[q].local, src, dst, stuck).1;
    if res.Err? {
      k := 0;
      assert done + Elems(rows[..0]) == done;
    } else {
      ToDoNext(s, done, rows, src);
      var k1 := Rounds(s, done + {q}, rows[1..], src, dst, stuck);
      k := k1 + 1;
      ElemsCons(rows, k);
      UnionAssoc(done, {q}, Elems(rows[1..][..k1]));
    }
  }

  lemma {:induction false} UnionAssoc(a: set<string>, b: set<string>, c: set<string>)
    ensures a + b + c == a + (b + c)
  {
  }

  lemma {:induction false} ElemsCons(rows: seq<string>, k: nat)
    requires 0 < k <= |rows|
    ensures Elems(rows[..k]) == {rows[0]} + Elems(rows[1..][..k - 1])
  {
    forall x | x in Elems(rows[..k])
      ensures x in {rows[0]} + Elems(rows[1..][..k - 1])
    {
      var i :| 0 <= i < k && rows[..k][i] == x;
      if i > 0 { assert rows[1..][..k - 1][i - 1] == x; }
    }
    forall x | x in Elems(rows[1..][..k - 1])
      ensures x in Elems(rows[..k])
    {
      var i :| 0 <= i < k - 1 && rows[1..][..k - 1][i] == x;
      assert rows[..k][i + 1] == x;
    }
    assert rows[..k][0] == rows[0];
  }

  /** Whatever order the rows come in, `rename_tree` moves a first part of them, all of them exactly
      when it succeeds, as it does when no file is stuck; each moved row and its file go to the mirrored
      place, and every other row and file is as before. */
  lemma {:induction false} RenameTreeMoves(s: PinState, src: string, dst: string, rows: seq<string>, stuck: set<string>)
    returns (k: nat)
    requires Movable(s, src, dst) && Selects(rows, s.pins, src)
    ensures TrimEnd(src) == src && forall i :: 0 <= i < |rows| ==> rows[i] in s.pins && Under(src, rows[i])
    ensures k <= |rows| && (stuck == {} ==> k == |rows|)
    ensures var (s1, res) := RenameTree(s, src, dst, rows, stuck);
      (res.Ok? <==> k == |rows|) && s1 == After(s, Elems(rows[..k]), src, dst)
    ensures k == |rows| ==> Elems(rows[..k]) == Subtree(s.pins, src)
  {
    NormPlain(src);
    NormPlain(dst);
    AfterNothing(s, src, dst);
    k := Rounds(s, {}, rows, src, dst, stuck);
    assert {} + Elems(rows[..k]) == Elems(rows[..k]);
    if k == |rows| {
      assert rows[..k] == rows;
      forall q
        ensures q in Elems(rows) <==> q in Subtree(s.pins, src)
      {
      }
    }
  }

  lemma {:induction false} WithoutAndBack(done: set<string>, q: string)
    requires q in done
    ensures done - {q} + {q} == done
  {
  }

  /** A moved row, in the state after the move. */
  lemma {:induction false} MovedRow(s: PinState, src: string, dst: string, q: string)
    requires Movable(s, src, dst) && q in s.pins && Under(src, q)
    ensures var pins1 := AfterPins(s, Subtree(s.pins, src), src, dst);
      var target := Rekey(src, dst, q);
      q !in pins1 && target in pins1 && pins1[target] == s.pins[q].(local := s.root + target)
  {
    WithoutAndBack(Subtree(s.pins, src), q);
    AfterOnePin(s, Subtree(s.pins, src) - {q}, q, src, dst);
  }

  /** And its file. */
  lemma {:induction false} MovedFile(s: PinState, src: string, dst: string, q: string)
    requires Movable(s, src, dst) && q in s.pins && Under(src, q)
    ensures var disk1 := AfterDisk(s, Subtree(s.pins, src), src, dst);
      var target := Rekey(src, dst, q);
      && s.root + q !in disk1
      && (s.root + q in s.disk ==> s.root + target in disk1 && disk1[s.root + target] == s.disk[s.root + q])
  {
    WithoutAndBack(Subtree(s.pins, src), q);
    AfterOneFile(s, Subtree(s.pins, src) - {q}, q, src, dst);
    RekeyUnder(src, dst, q);
    DisjointTrees(src, dst, q);
    if s.root + q == s.root + Rekey(src, dst, q) { RootInjective(s.root, q, Rekey(src, dst, q)); }
  }

  /** What the state after the move says, path by path. */
  lemma {:induction false} AfterPathByPath(s: PinState, src: string, dst: string, q: string)
    requires Movable(s, src, dst) && q in s.pins
    ensures var s1 := After(s, Subtree(s.pins, src), src, dst);
      if Under(src, q)
      then var target := Rekey(src, dst, q);
           && q !in s1.pins && target in s1.pins && s1.pins[target] == s.pins[q].(local := s.root + target)
           && s.root + q !in s1.disk
           && (s.root + q in s.disk ==> s.root + target in s1.disk && s1.disk[s.root + target] == s.disk[s.root + q])
      else q in s1.pins && s1.pins[q] == s.pins[q]
  {
    if Under(src, q) {
      MovedRow(s, src, dst, q);
      MovedFile(s, src, dst, q);
    }
  }

  /** The local copy of `q`, after the move, is at `l`. */
  predicate CopyOf(s: PinState, src: string, dst: string, q: string, l: string) {
    Under(src, q) && s.root + q in s.disk && l == s.root + Rekey(src, dst, q)
  }

  /** And file by file: a copy that arrived, or a file that was there and did not leave. */
  lemma {:induction false} AfterFileByFile(s: PinState, src: string, dst: string, l: string)
    requires Movable(s, src, dst)
    ensures var done := Subtree(s.pins, src);
      var disk1 := AfterDisk(s, done, src, dst);
      l in disk1 ==>
        || (exists q :: CopyOf(s, src, dst, q, l) && q in done && disk1[l] == s.disk[s.root + q])
        || (l in s.disk && l !in Copies(s.root, s.disk, done) && disk1[l] == s.disk[l])
  {
    var done := Subtree(s.pins, src);
    var c := Copies(s.root, s.disk, done);
    CopiesBelow(s.root, s.disk, done, src);
    if Arrived(c, s.root + src, s.root + dst, l) {
      var x := Rekey(s.root + dst, s.root + src, l);
      ArrivedIs(c, s.root + src, s.root + dst, l);
      var q := x[|s.root|..];
      assert x == s.root + q;
      LocalTree(s.root, src, dst, q);
    }
  }

  /** A file that is no moved copy and where none lands stays as it is. */
  lemma {:induction false} AfterElsewhere(s: PinState, src: string, dst: string, q: string)
    requires Movable(s, src, dst) && !Under(src, q) &&
             !(Under(dst, q) && Rekey(dst, src, q) in s.pins && s.root + Rekey(dst, src, q) in s.disk)
    ensures var disk1 := AfterDisk(s, Subtree(s.pins, src), src, dst);
      (s.root + q in disk1 <==> s.root + q in s.disk) &&
      (s.root + q in disk1 ==> disk1[s.root + q] == s.disk[s.root + q])
  {
    var done := Subtree(s.pins, src);
    var c := Copies(s.root, s.disk, done);
    CopiesBelow(s.root, s.disk, done, src);
    assert (s.root + q)[|s.root|..] == q;
    if Under(s.root + dst, s.root + q) {
      LocalUnder(s.root, dst, q);
      LocalTree(s.root, dst, src, q);
      RekeyUnder(dst, src, q);
      assert (s.root + Rekey(dst, src, q))[|s.root|..] == Rekey(dst, src, q);
    }
  }

  /** The move keeps the mirror. */
  lemma {:induction false} AfterMirrors(s: PinState, done: set<string>, src: string, dst: string)
    requires Movable(s, src, dst) && done <= s.pins.Keys && forall q :: q in done ==> Under(src, q)
    ensures Mirror(After(s, done, src, dst))
  {
    var s1 := After(s, done, src, dst);
    forall k | k in s1.pins
      ensures Norm(k) && s1.pins[k].local == s.root + k
    {
      if Arrived(done, src, dst, k) {
        ArrivedIs(done, src, dst, k);
        RekeyNorm(src, dst, Rekey(dst, src, k));
      }
    }
  }

  // ---- Moving back ------------------------------------------------------------------

  /** No file lies where a moved copy would land. */
  predicate LandingClear(s: PinState, src: string, dst: string) {
    forall q :: q in s.pins && Under(src, q) ==> s.root + Rekey(src, dst, q) !in s.disk
  }

  lemma {:induction false} AfterMovable(s: PinState, src: string, dst: string)
    requires Movable(s, src, dst)
    ensures var s1 := After(s, Subtree(s.pins, src), src, dst);
      Movable(s1, dst, src) && Subtree(s1.pins, dst) == Targets(Subtree(s.pins, src), src, dst)
  {
    var done := Subtree(s.pins, src);
    var s1 := After(s, done, src, dst);
    AfterMirrors(s, done, src, dst);
    TargetsArrive(done, src, dst);
    forall k | k in s1.pins
      ensures !Under(src, k)
      ensures Under(dst, k) <==> Arrived(done, src, dst, k)
    {
      if Under(dst, k) { DisjointTrees(src, dst, k); }
    }
    forall k
      ensures k in Subtree(s1.pins, dst) <==> k in Targets(done, src, dst)
    {
    }
  }

  lemma {:induction false} PinsBack(s: PinState, src: string, dst: string)
    requires Movable(s, src, dst)
    ensures var s1 := After(s, Subtree(s.pins, src), src, dst);
      After(s1, Subtree(s1.pins, dst), dst, src).pins == s.pins
  {
    AfterMovable(s, src, dst);
    MirroredAlready(s);
    MirroredBack(s, src, dst, Targets(Subtree(s.pins, src), src, dst));
  }

  lemma {:induction false} MirroredBack(s: PinState, src: string, dst: string, there: set<string>)
    requires Movable(s, src, dst) && Mirrored(s.root, s.pins) == s.pins
    requires there == Targets(Subtree(s.pins, src), src, dst)
    ensures there <= AfterPins(s, Subtree(s.pins, src), src, dst).Keys
    ensures forall k :: k in there ==> Under(dst, k)
    ensures Mirrored(s.root, MoveKeys(AfterPins(s, Subtree(s.pins, src), src, dst), there, dst, src)) == s.pins
  {
    var done := Subtree(s.pins, src);
    MoveBack(s.pins, done, src, dst);
    var one := MoveKeys(s.pins, done, src, dst);
    MirroredMoves(s.root, one, there, dst, src);
    NoneThere(s, src, dst);
  }

  lemma {:induction false} NoneThere(s: PinState, src: string, dst: string)
    requires Movable(s, src, dst)
    ensures s.pins - Targets(Subtree(s.pins, src), src, dst) == s.pins
  {
    TargetsArrive(Subtree(s.pins, src), src, dst);
  }

  /** The order of moving and re-mirroring does not matter. */
  lemma {:induction false} MirroredMoves(root: string, m: Rows, moved: set<string>, src: string, dst: string)
    requires moved <= m.Keys && forall k :: k in moved ==> Under(src, k)
    ensures Mirrored(root, MoveKeys(Mirrored(root, m), moved, src, dst)) == Mirrored(root, MoveKeys(m, moved, src, dst))
  {
    var a, b := MoveKeys(Mirrored(root, m), moved, src, dst), MoveKeys(m, moved, src, dst);
    forall k
      ensures k in a <==> k in b
      ensures k in a ==> a[k].(local := root + k) == b[k].(local := root + k)
    {
    }
  }

  lemma {:induction false} CopyArrives(s: PinState, src: string, dst: string, q: string)
    requires Movable(s, src, dst) && LandingClear(s, src, dst) && q in Subtree(s.pins, src)
    ensures var l := s.root + Rekey(src, dst, q);
      var c := Copies(s.root, s.disk, Subtree(s.pins, src));
      && (l in AfterDisk(s, Subtree(s.pins, src), src, dst) <==> s.root + q in s.disk)
      && (Arrived(c, s.root + src, s.root + dst, l) <==> s.root + q in s.disk)
      && l !in s.disk
  {
    var k := Rekey(src, dst, q);
    RekeyUnder(src, dst, q);
    LocalTree(s.root, src, dst, q);
    LocalTree(s.root, dst, src, k);
    CopiesBelow(s.root, s.disk, Subtree(s.pins, src), src);
  }

  lemma {:induction false} TargetsCopied(s: PinState, src: string, dst: string, l: string) returns (q: string)
    requires Movable(s, src, dst)
    requires forall x :: x in Copies(s.root, s.disk, Subtree(s.pins, src)) ==> Under(s.root + src, x)
    requires l in Targets(Copies(s.root, s.disk, Subtree(s.pins, src)), s.root + src, s.root + dst)
    ensures q in Subtree(s.pins, src) && s.root + q in s.disk && l == s.root + Rekey(src, dst, q)
  {
    var x :| x in Copies(s.root, s.disk, Subtree(s.pins, src)) && l == Rekey(s.root + src, s.root + dst, x);
    q := x[|s.root|..];
    assert x == s.root + q;
    LocalTree(s.root, src, dst, q);
  }

  /** A copy now below the new tree arrived there. */
  lemma {:induction false} CopyThereArrived(s: PinState, src: string, dst: string, l: string)
    requires Movable(s, src, dst) && LandingClear(s, src, dst)
    requires l in Copies(s.root, AfterDisk(s, Subtree(s.pins, src), src, dst), Targets(Subtree(s.pins, src), src, dst))
    ensures Arrived(Copies(s.root, s.disk, Subtree(s.pins, src)), s.root + src, s.root + dst, l)
  {
    var done := Subtree(s.pins, src);
    var q := TargetOf(done, src, dst, l[|s.root|..]);
    assert l == s.root + Rekey(src, dst, q);
    CopyArrives(s, src, dst, q);
  }

  lemma {:induction false} TargetOf(done: set<string>, src: string, dst: string, k: string) returns (q: string)
    requires (forall q :: q in done ==> Under(src, q)) && k in Targets(done, src, dst)
    ensures q in done && Under(src, q) && k == Rekey(src, dst, q)
  {
    q :| q in done && Under(src, q) && k == Rekey(src, dst, q);
  }

  lemma {:induction false} CopiesThere(s: PinState, src: string, dst: string)
    requires Movable(s, src, dst) && LandingClear(s, src, dst)
    ensures forall x :: x in Copies(s.root, s.disk, Subtree(s.pins, src)) ==> Under(s.root + src, x)
    ensures Copies(s.root, AfterDisk(s, Subtree(s.pins, src), src, dst), Targets(Subtree(s.pins, src), src, dst)) ==
            Targets(Copies(s.root, s.disk, Subtree(s.pins, src)), s.root + src, s.root + dst)
  {
    var done := Subtree(s.pins, src);
    var there, c := Targets(done, src, dst), Copies(s.root, s.disk, done);
    var disk1 := AfterDisk(s, done, src, dst);
    CopiesBelow(s.root, s.disk, done, src);
    TargetsArrive(c, s.root + src, s.root + dst);
    forall l | l in Copies(s.root, disk1, there)
      ensures l in Targets(c, s.root + src, s.root + dst)
    {
      CopyThereArrived(s, src, dst, l);
    }
    forall l | l in Targets(c, s.root + src, s.root + dst)
      ensures l in Copies(s.root, disk1, there)
    {
      var q := TargetsCopied(s, src, dst, l);
      CopyArrives(s, src, dst, q);
      assert l[|s.root|..] == Rekey(src, dst, q);
    }
  }

  /** The disk comes back exactly when the landing was clear. */
  lemma {:induction false} DiskBack(s: PinState, src: string, dst: string)
    requires Movable(s, src, dst)
    ensures forall k :: k in Targets(Subtree(s.pins, src), src, dst) ==> Under(dst, k)
    ensures var s1 := After(s, Subtree(s.pins, src), src, dst);
      AfterDisk(s1, Targets(Subtree(s.pins, src), src, dst), dst, src) == s.disk <==> LandingClear(s, src, dst)
  {
    var done := Subtree(s.pins, src);
    var there, c := Targets(done, src, dst), Copies(s.root, s.disk, done);
    TargetsArrive(done, src, dst);
    var s1 := After(s, done, src, dst);
    LocalTreesApart(s.root, src, dst);
    LocalTreesApart(s.root, dst, src);
    if LandingClear(s, src, dst) {
      CopiesThere(s, src, dst);
      MoveBack(s.disk, c, s.root + src, s.root + dst);
      forall l | l in Targets(c, s.root + src, s.root + dst)
        ensures l !in s.disk
      {
        var q := TargetsCopied(s, src, dst, l);
      }
      assert s.disk - Targets(c, s.root + src, s.root + dst) == s.disk;
    } else {
      var q :| q in s.pins && Under(src, q) && s.root + Rekey(src, dst, q) in s.disk;
      LandingEmptied(s, src, dst, q);
    }
  }

  lemma {:induction false} LandingEmptied(s: PinState, src: string, dst: string, q: string)
    requires Movable(s, src, dst) && q in Subtree(s.pins, src) && s.root + Rekey(src, dst, q) in s.disk
    requires forall k :: k in Targets(Subtree(s.pins, src), src, dst) ==> Under(dst, k)
    ensures var s1 := After(s, Subtree(s.pins, src), src, dst);
      s.root + Rekey(src, dst, q) !in AfterDisk(s1, Targets(Subtree(s.pins, src), src, dst), dst, src)
  {
    var done := Subtree(s.pins, src);
    var there := Targets(done, src, dst);
    var k := Rekey(src, dst, q);
    var l := s.root + k;
    var disk1 := AfterDisk(s, done, src, dst);
    RekeyUnder(src, dst, q);
    DisjointTrees(src, dst, k);
    LocalTree(s.root, dst, src, k);
    CopiesBelow(s.root, s.disk, done, src);
    CopiesBelow(s.root, disk1, there, dst);
    assert l !in Copies(s.root, s.disk, done);
    assert l in disk1 && l in Copies(s.root, disk1, there);
    assert !Under(s.root + src, l) by {
      if Under(s.root + src, l) { LocalUnder(s.root, src, k); }
    }
  }

  /** Renaming the tree back restores every row, and restores the disk exactly when no file lay
      where a moved copy landed. */
  lemma {:induction false} RenameTreeUndone(s: PinState, src: string, dst: string, rows: seq<string>,
                                            rows': seq<string>)
    requires Movable(s, src, dst) && Selects(rows, s.pins, src)
    requires forall i :: 0 <= i < |rows| ==> rows[i] in s.pins && Under(TrimEnd(src), rows[i])
    requires Selects(rows', RenameTree(s, src, dst, rows, {}).0.pins, dst)
    requires forall i :: 0 <= i < |rows'| ==>
               rows'[i] in RenameTree(s, src, dst, rows, {}).0.pins && Under(TrimEnd(dst), rows'[i])
    requires RenameTree(s, src, dst, rows, {}).1.Ok?
    requires RenameTree(RenameTree(s, src, dst, rows, {}).0, dst, src, rows', {}).1.Ok?
    ensures var s2 := RenameTree(RenameTree(s, src, dst, rows, {}).0, dst, src, rows', {}).0;
      s2.pins == s.pins && (s2 == s <==> LandingClear(s, src, dst))
  {
    var k := RenameTreeMoves(s, src, dst, rows, {});
    var s1 := After(s, Subtree(s.pins, src), src, dst);
    AfterMovable(s, src, dst);
    var k' := RenameTreeMoves(s1, dst, src, rows', {});
    BackAgain(s, src, dst);
  }

  lemma {:induction false} BackAgain(s: PinState, src: string, dst: string)
    requires Movable(s, src, dst)
    ensures var s1 := After(s, Subtree(s.pins, src), src, dst);
      var s2 := After(s1, Subtree(s1.pins, dst), dst, src);
      s2.pins == s.pins && (s2 == s <==> LandingClear(s, src, dst))
  {
    AfterMovable(s, src, dst);
    PinsBack(s, src, dst);
    DiskBack(s, src, dst);
  }

  // ---- unpin_tree -------------------------------------------------------------------

  /** The pin may not be dropped: its copy has unsynced edits, or cannot be removed. */
  predicate Blocked(s: PinState, q: string, force: bool, stuck: set<string>)
    requires q in s.pins
  {
    Lookup(s, q).Some? && ((!force && IsDirty(s, s.pins[q].local, q)) || s.pins[q].local in stuck)
  }

  function Locals(root: string, paths: set<string>): set<string> {
    set q | q in paths :: root + q
  }

  lemma {:induction false} UnpinOne(s: PinState, q: string, force: bool, stuck: set<string>)
    requires Mirror(s) && q in s.pins
    ensures var (s1, res) := Unpin(s, q, force, stuck);
      if Blocked(s, q, force, stuck) then res.Err? && s1 == s
      else res == Ok(Unit) && s1 == PinState(s.root, s.pins - {q}, s.disk - {s.root + q})
  {
    if Lookup(s, q).None? {
      assert s.disk - {s.root + q} == s.disk;
    }
  }

  /** Dropping one pin blocks and unblocks no other. */
  lemma {:induction false} OthersAsBlocked(s: PinState, q: string, p: string, force: bool, stuck: set<string>)
    requires Mirror(s) && q in s.pins && p in s.pins && p != q
    ensures Blocked(PinState(s.root, s.pins - {q}, s.disk - {s.root + q}), p, force, stuck) ==
            Blocked(s, p, force, stuck)
  {
    if s.root + p == s.root + q { RootInjective(s.root, p, q); }
  }

  lemma {:induction false} LocalsCons(root: string, q: string, paths: set<string>)
    ensures Locals(root, {q} + paths) == {root + q} + Locals(root, paths)
  {
  }

  lemma {:induction false} DropTwice<V>(m: map<string, V>, x: string, xs: set<string>)
    ensures m - {x} - xs == m - ({x} + xs)
  {
  }

  /** What `k` says of the rows after the first, once that one is gone, it says of all of them. */
  lemma {:induction false} BlockedNext(s: PinState, rows: seq<string>, k: nat, force: bool, stuck: set<string>)
    requires Mirror(s) && rows != [] && forall i :: 0 <= i < |rows| ==> rows[i] in s.pins
    requires (forall i, j :: 0 <= i < j < |rows| ==> rows[i] != rows[j]) && k < |rows| &&
             !Blocked(s, rows[0], force, stuck)
    requires forall i :: 0 <= i < |rows[1..]| ==> rows[1..][i] in s.pins - {rows[0]}
    requires var s1 := PinState(s.root, s.pins - {rows[0]}, s.disk - {s.root + rows[0]});
      && (forall i :: 0 <= i < k ==> !Blocked(s1, rows[1..][i], force, stuck))
      && (k < |rows[1..]| ==> Blocked(s1, rows[1..][k], force, stuck))
    ensures forall i :: 0 <= i < k + 1 ==> !Blocked(s, rows[i], force, stuck)
    ensures k + 1 < |rows| ==> Blocked(s, rows[k + 1], force, stuck)
  {
    forall i | 0 <= i < k + 1
      ensures !Blocked(s, rows[i], force, stuck)
    {
      if i > 0 {
        assert rows[1..][i - 1] == rows[i];
        OthersAsBlocked(s, rows[0], rows[i], force, stuck);
      }
    }
    if k + 1 < |rows| {
      assert rows[1..][k] == rows[k + 1];
      OthersAsBlocked(s, rows[0], rows[k + 1], force, stuck);
    }
  }

  /** The pins go one after another, each with its own file and nothing else, up to the first that is
      blocked; the call succeeds exactly when none is. */
  lemma {:induction false} UnpinRowsDrop(s: PinState, rows: seq<string>, force: bool, stuck: set<string>)
    returns (k: nat)
    requires Mirror(s) && forall i :: 0 <= i < |rows| ==> rows[i] in s.pins
    requires forall i, j :: 0 <= i < j < |rows| ==> rows[i] != rows[j]
    ensures k <= |rows| && (UnpinRows(s, rows, force, stuck).1.Ok? <==> k == |rows|)
    ensures UnpinRows(s, rows, force, stuck).0 ==
            PinState(s.root, s.pins - Elems(rows[..k]), s.disk - Locals(s.root, Elems(rows[..k])))
    ensures forall i :: 0 <= i < k ==> !Blocked(s, rows[i], force, stuck)
    ensures k < |rows| ==> Blocked(s, rows[k], force, stuck)
    decreases |rows|
  {
    k := 0;
    if rows == [] || Blocked(s, rows[0], force, stuck) {
      if rows != [] { UnpinOne(s, rows[0], force, stuck); }
      assert rows[..0] == [] && Elems([]) == {} && Locals(s.root, {}) == {};
      assert s.pins - {} == s.pins && s.disk - {} == s.disk;
    } else {
      var q := rows[0];
      UnpinOne(s, q, force, stuck);
      var s1 := PinState(s.root, s.pins - {q}, s.disk - {s.root + q});
      var k1 := UnpinRowsDrop(s1, rows[1..], force, stuck);
      k := k1 + 1;
      ElemsCons(rows, k);
      LocalsCons(s.root, q, Elems(rows[1..][..k1]));
      DropTwice(s.pins, q, Elems(rows[1..][..k1]));
      DropTwice(s.disk, s.root + q, Locals(s.root, Elems(rows[1..][..k1])));
      BlockedNext(s, rows, k1, force, stuck);
    }
  }

  /** A successful `unpin_tree` leaves exactly the pins outside the tree, and every file but theirs. */
  lemma {:induction false} UnpinTreeIsExact(s: PinState, path: string, rows: seq<string>, force: bool,
                                            stuck: set<string>)
    requires Mirror(s) && Norm(path) && Selects(rows, s.pins, path)
    ensures var (s1, res) := UnpinRows(s, rows, force, stuck);
      && (res.Ok? <==> forall q :: q in s.pins && Under(path, q) ==> !Blocked(s, q, force, stuck))
      && (res.Ok? ==> (forall q :: q in s1.pins <==> q in s.pins && !Under(path, q)) &&
                      (forall q :: q in s1.pins ==> s1.pins[q] == s.pins[q]) &&
                      s1.disk == s.disk - Locals(s.root, Subtree(s.pins, path)))
  {
    NormPlain(path);
    var k := UnpinRowsDrop(s, rows, force, stuck);
    if k == |rows| {
      assert rows[..k] == rows;
      assert Elems(rows) == Subtree(s.pins, path);
      forall q | q in s.pins && Under(path, q)
        ensures !Blocked(s, q, force, stuck)
      {
        var i :| 0 <= i < |rows| && rows[i] == q;
      }
    }
  }
}
