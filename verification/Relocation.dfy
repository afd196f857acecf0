/** Moving a set of keys of a path-keyed map from below one path to below another: what a
    rename does to the Drive tree, to the pin rows and to the files on disk. */
module Relocation {
  import opened Paths

  function Targets(moved: set<string>, src: string, dst: string): set<string>
    requires forall k :: k in moved ==> Under(src, k)
  {
    set k | k in moved && Under(src, k) :: Rekey(src, dst, k)
  }

  /** Where key `x` of the moved map came from, when it was moved. */
  predicate Arrived(moved: set<string>, src: string, dst: string, x: string) {
    Under(dst, x) && Rekey(dst, src, x) in moved
  }

  /** `m` with every key in `moved` carried from below `src` to below `dst`. */
  function MoveKeys<V>(m: map<string, V>, moved: set<string>, src: string, dst: string): (r: map<string, V>)
    requires moved <= m.Keys
    requires forall k :: k in moved ==> Under(src, k)
    ensures forall x {:trigger x in r} :: x in r <==> (x in m && x !in moved) || Arrived(moved, src, dst, x)
    ensures forall x {:trigger r[x]} :: x in r ==>
      r[x] == if Arrived(moved, src, dst, x) then m[Rekey(dst, src, x)] else m[x]
  {
    var keys := (m.Keys - moved) + Targets(moved, src, dst);
    TargetsArrive(moved, src, dst);
    map x | x in keys :: if Arrived(moved, src, dst, x) then m[Rekey(dst, src, x)] else m[x]
  }

  lemma {:induction false} TargetsArrive(moved: set<string>, src: string, dst: string)
    requires forall k :: k in moved ==> Under(src, k)
    ensures forall x :: x in Targets(moved, src, dst) <==> Arrived(moved, src, dst, x)
  {
    forall x | Arrived(moved, src, dst, x)
      ensures x in Targets(moved, src, dst)
    {
      RekeyUnder(dst, src, x);
      var k := Rekey(dst, src, x);
      assert k in moved && Rekey(src, dst, k) == x;
    }
    forall x | x in Targets(moved, src, dst)
      ensures Arrived(moved, src, dst, x)
    {
      var k :| k in moved && x == Rekey(src, dst, k);
      RekeyUnder(src, dst, k);
    }
  }

  lemma {:induction false} ArrivedIs(moved: set<string>, src: string, dst: string, x: string)
    requires Arrived(moved, src, dst, x)
    ensures Under(src, Rekey(dst, src, x)) && Rekey(src, dst, Rekey(dst, src, x)) == x
  {
    RekeyUnder(dst, src, x);
  }

  /** One more key moved, between two trees that do not meet. */
  lemma {:induction false} MoveOneMore<V>(m: map<string, V>, moved: set<string>, k: string, src: string, dst: string)
    requires moved <= m.Keys && k in m && k !in moved
    requires Under(src, k) && forall k' :: k' in moved ==> Under(src, k')
    requires !Under(src, dst) && !Under(dst, src)
    ensures MoveKeys(m, moved + {k}, src, dst) == (MoveKeys(m, moved, src, dst) - {k})[Rekey(src, dst, k) := m[k]]
    ensures k in MoveKeys(m, moved, src, dst) && MoveKeys(m, moved, src, dst)[k] == m[k]
  {
    var a, b := MoveKeys(m, moved + {k}, src, dst), MoveKeys(m, moved, src, dst);
    var c := (b - {k})[Rekey(src, dst, k) := m[k]];
    RekeyUnder(src, dst, k);
    DisjointTrees(src, dst, k);
    forall x
      ensures x in a <==> x in c
      ensures x in a ==> a[x] == c[x]
    {
      if Under(dst, x) {
        RekeyUnder(dst, src, x);
        DisjointTrees(src, dst, x);
      }
    }
  }

  lemma {:induction false} MoveNothing<V>(m: map<string, V>, src: string, dst: string)
    ensures MoveKeys(m, {}, src, dst) == m
  {
  }

  /** The same for a key that may not be there. */
  lemma {:induction false} MoveOneIfThere<V>(m: map<string, V>, moved: set<string>, k: string, src: string, dst: string)
    requires moved <= m.Keys && k !in moved
    requires Under(src, k) && forall k' :: k' in moved ==> Under(src, k')
    requires !Under(src, dst) && !Under(dst, src)
    ensures var b := MoveKeys(m, moved, src, dst);
      && (k in b <==> k in m) && (k in b ==> b[k] == m[k])
      && MoveKeys(m, moved + (if k in m then {k} else {}), src, dst) ==
         if k in b then (b - {k})[Rekey(src, dst, k) := b[k]] else b
  {
    if k in m {
      MoveOneMore(m, moved, k, src, dst);
    } else {
      assert moved + {} == moved;
    }
    DisjointTrees(src, dst, k);
  }

  /** Moving back restores the map exactly when nothing was in the way. */
  lemma {:induction false} MoveBack<V>(m: map<string, V>, moved: set<string>, src: string, dst: string)
    requires moved <= m.Keys && forall k :: k in moved ==> Under(src, k)
    requires !Under(src, dst) && !Under(dst, src)
    ensures Targets(moved, src, dst) <= MoveKeys(m, moved, src, dst).Keys
    ensures forall k :: k in Targets(moved, src, dst) ==> Under(dst, k)
    ensures MoveKeys(MoveKeys(m, moved, src, dst), Targets(moved, src, dst), dst, src) == m - Targets(moved, src, dst)
  {
    var there := Targets(moved, src, dst);
    TargetsArrive(moved, src, dst);
    var m1 := MoveKeys(m, moved, src, dst);
    var m2, m3 := MoveKeys(m1, there, dst, src), m - there;
    forall x
      ensures x in m2 <==> x in m3
      ensures x in m2 ==> m2[x] == m3[x]
    {
      if Under(src, x) {
        RekeyUnder(src, dst, x);
        DisjointTrees(src, dst, x);
        assert Arrived(there, dst, src, x) <==> x in moved;
        if x in moved {
          DisjointTrees(src, dst, Rekey(src, dst, x));
        }
      }
    }
  }

  // ---- Whole trees ------------------------------------------------------------------

  function Subtree<V>(m: map<string, V>, p: string): (s: set<string>)
    ensures s <= m.Keys
    ensures forall k {:trigger k in s} :: k in s ==> Under(p, k)
  {
    set k | k in m && Under(p, k)
  }

  /** The whole tree at `src` carried to `dst`. */
  function Relocate<V>(m: map<string, V>, src: string, dst: string): map<string, V> {
    MoveKeys(m, Subtree(m, src), src, dst)
  }

  /** Two moves in a row, the middle place having been free, are one move. */
  lemma {:induction false} RelocateTwice<V>(m: map<string, V>, src: string, mid: string, dst: string)
    requires Subtree(m, mid) == {}
    requires !Under(mid, src) && !Under(src, mid)
    ensures Relocate(Relocate(m, src, mid), mid, dst) == Relocate(m, src, dst)
  {
    var one := Relocate(m, src, mid);
    var two, once := Relocate(one, mid, dst), Relocate(m, src, dst);
    forall x
      ensures x in two <==> x in once
      ensures x in two ==> two[x] == once[x]
    {
      assert x in m && Under(mid, x) ==> x in Subtree(m, mid);
      if Under(dst, x) {
        var y, z := Rekey(dst, mid, x), Rekey(dst, src, x);
        RekeyUnder(dst, mid, x);
        RekeyUnder(dst, src, x);
        assert Rekey(mid, src, y) == z;
        assert y in one <==> z in Subtree(m, src) by {
          assert y in m ==> y in Subtree(m, mid);
        }
      }
      if Under(mid, x) { DisjointTrees(mid, src, x); }
    }
  }

  lemma {:induction false} TargetsLess(s: set<string>, k: string, src: string, dst: string)
    requires k in s && Under(src, k) && forall x :: x in s ==> Under(src, x)
    ensures Rekey(src, dst, k) in Targets(s, src, dst)
    ensures Targets(s - {k}, src, dst) == Targets(s, src, dst) - {Rekey(src, dst, k)}
  {
    RekeyUnder(src, dst, k);
    TargetsArrive(s, src, dst);
    TargetsArrive(s - {k}, src, dst);
    forall x
      ensures x in Targets(s - {k}, src, dst) <==> x in Targets(s, src, dst) && x != Rekey(src, dst, k)
    {
      if Arrived(s, src, dst, x) {
        ArrivedIs(s, src, dst, x);
      }
    }
  }

  lemma {:induction false} InjectiveImage(s: set<string>, src: string, dst: string)
    requires forall k :: k in s ==> Under(src, k)
    ensures |Targets(s, src, dst)| == |s|
    decreases s
  {
    if s == {} {
      assert Targets(s, src, dst) == {};
    } else {
      var k :| k in s;
      TargetsLess(s, k, src, dst);
      InjectiveImage(s - {k}, src, dst);
    }
  }
}
