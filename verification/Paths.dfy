/** Drive paths as the program holds them (strings), their segments, and the mirror of a
    Drive path below the local cache root. */
module Paths {
  import opened Text

  datatype Option<+T> = None | Some(value: T)

  // ---- Segments ---------------------------------------------------------------------

  predicate ValidName(n: string) {
    n != "" && n != "." && n != ".." && '/' !in n
  }

  predicate Names(segs: seq<string>) {
    forall i :: 0 <= i < |segs| ==> ValidName(segs[i])
  }

  function Print(segs: seq<string>): string {
    if segs == [] then "" else "/" + segs[0] + Print(segs[1..])
  }

  function NonEmpty(parts: seq<string>): seq<string> {
    if parts == [] then []
    else if parts[0] == "" then NonEmpty(parts[1..])
    else [parts[0]] + NonEmpty(parts[1..])
  }

  /** `path.split('/').filter(|s| !s.is_empty())`. */
  function Segs(p: string): seq<string> {
    NonEmpty(Split(p, '/'))
  }

  /** A path in normal form: absolute, no empty, `.` or `..` segment, not the root. */
  predicate Norm(p: string) {
    var segs := Segs(p);
    segs != [] && Names(segs) && Print(segs) == p
  }

  lemma {:induction false} NonEmptyNames(segs: seq<string>)
    requires Names(segs)
    ensures NonEmpty(segs) == segs
  {
    if segs != [] {
      assert Names(segs[1..]);
      NonEmptyNames(segs[1..]);
    }
  }

  lemma {:induction false} SplitPrint(segs: seq<string>)
    requires Names(segs)
    ensures Split(Print(segs), '/') == [""] + segs
  {
    if segs != [] {
      var t := Print(segs[1..]);
      var s := segs[0] + t;
      assert Names(segs[1..]);
      SplitPrint(segs[1..]);
      assert Split(s, '/') == segs by {
        if segs[1..] == [] {
          SplitWhole(segs[0], '/');
          assert s == segs[0];
        } else {
          SplitSlash(t, segs[1..]);
          SplitHead(segs[0], '/', t[1..]);
          assert segs[0] + ['/'] + t[1..] == s;
        }
      }
      assert Print(segs) == "/" + s;
      assert ("/" + s)[1..] == s;
    } else {
      assert Print(segs) == "";
    }
  }

  lemma {:induction false} SplitSlash(t: string, rest: seq<string>)
    requires t != "" && t[0] == '/' && Split(t, '/') == [""] + rest
    ensures Split(t[1..], '/') == rest
  {
    assert ([""] + Split(t[1..], '/'))[1..] == Split(t[1..], '/');
    assert ([""] + rest)[1..] == rest;
  }

  /** Printing then splitting gives the segments back, so normal paths are exactly the printed ones. */
  lemma {:induction false} SegsPrint(segs: seq<string>)
    requires Names(segs)
    ensures Segs(Print(segs)) == segs
    ensures segs != [] ==> Norm(Print(segs))
  {
    SplitPrint(segs);
    NonEmptyNames(segs);
    assert ([""] + segs)[1..] == segs;
  }

  lemma {:induction false} PrintAppend(a: seq<string>, b: seq<string>)
    ensures Print(a + b) == Print(a) + Print(b)
  {
    if a == [] {
      assert a + b == b;
    } else {
      PrintAppend(a[1..], b);
      assert (a + b)[1..] == a[1..] + b;
    }
  }

  lemma {:induction false} PrintOne(name: string)
    ensures Print([name]) == "/" + name
  {
    assert [name][1..] == [];
    assert Print([]) == "";
  }

  lemma {:induction false} PrintLast(segs: seq<string>)
    requires segs != []
    ensures Print(segs) == Print(segs[..|segs| - 1]) + "/" + segs[|segs| - 1]
  {
    var init, name := segs[..|segs| - 1], segs[|segs| - 1];
    assert init + [name] == segs;
    PrintAppend(init, [name]);
    PrintOne(name);
  }

  // ---- Parents, names and children --------------------------------------------------

  /** `trim_end_matches('/')`. */
  function TrimEnd(s: string): string {
    if s != "" && s[|s| - 1] == '/' then TrimEnd(s[..|s| - 1]) else s
  }

  /** `trim_start_matches('/')`. */
  function TrimStart(s: string): string {
    if s != "" && s[0] == '/' then TrimStart(s[1..]) else s
  }

  /** What follows the last `/`. */
  function BaseName(p: string): string {
    p[LastIndexOf(p, '/') + 1..]
  }

  /** The daemon's `remote_parent`. */
  function RemoteParent(p: string): string {
    var i := LastIndexOf(p, '/');
    if i <= 0 then "/" else p[..i]
  }

  /** The CLI wrapper's `split_parent_and_name`. */
  function SplitParentAndName(p: string): (string, string) {
    var i := LastIndexOf(p, '/');
    if i < 0 then ("", p) else if i == 0 then ("/", p[1..]) else (p[..i], p[i + 1..])
  }

  function Child(parent: string, name: string): string {
    TrimEnd(parent) + "/" + name
  }

  predicate IsDir(p: string) {
    p == "/" || Norm(p)
  }

  lemma {:induction false} NormShape(p: string) returns (init: seq<string>, name: string)
    requires Norm(p)
    ensures Names(init) && ValidName(name) && Segs(p) == init + [name]
    ensures p == Print(init) + "/" + name
    ensures LastIndexOf(p, '/') == |Print(init)|
    ensures BaseName(p) == name
    ensures RemoteParent(p) == if init == [] then "/" else Print(init)
    ensures SplitParentAndName(p) == (RemoteParent(p), name)
    ensures init != [] ==> Norm(Print(init))
    ensures p != "/"
  {
    var segs := Segs(p);
    init, name := segs[..|segs| - 1], segs[|segs| - 1];
    PrintLast(segs);
    LastIndexBefore(Print(init), '/', name);
    SegsPrint(init);
    if init != [] {
      assert Print(init) != "";
    }
  }

  lemma {:induction false} TrimEndPrint(segs: seq<string>)
    requires Names(segs)
    ensures TrimEnd(Print(segs)) == Print(segs)
  {
    if segs != [] {
      PrintLast(segs);
      var name := segs[|segs| - 1];
      assert Print(segs)[|Print(segs)| - 1] == name[|name| - 1];
    }
  }

  /** A normal path is the child of its parent under its own name. */
  lemma {:induction false} ChildOfParent(p: string)
    requires Norm(p)
    ensures IsDir(RemoteParent(p)) && ValidName(BaseName(p))
    ensures Child(RemoteParent(p), BaseName(p)) == p
    ensures SplitParentAndName(p) == (RemoteParent(p), BaseName(p))
  {
    var init, name := NormShape(p);
    TrimEndPrint(init);
    assert TrimEnd("/") == "";
  }

  /** And the child of a folder has that folder as its parent. */
  lemma {:induction false} ParentOfChild(parent: string, name: string)
    requires IsDir(parent) && ValidName(name)
    ensures Norm(Child(parent, name))
    ensures RemoteParent(Child(parent, name)) == parent
    ensures BaseName(Child(parent, name)) == name
  {
    var segs := if parent == "/" then [] else Segs(parent);
    TrimEndPrint(segs);
    assert TrimEnd("/") == "";
    assert Child(parent, name) == Print(segs) + "/" + name;
    var all := segs + [name];
    PrintLast(all);
    assert all[..|all| - 1] == segs;
    SegsPrint(all);
    var init, n := NormShape(Print(all));
    assert init == segs by {
      assert init == (init + [n])[..|init|];
    }
    assert parent != "/" ==> segs != [];
  }

  // ---- Trees ------------------------------------------------------------------------

  /** The SQL match `p = ?1 OR substr(p, 1, length(?2)) = ?2` with `?2 = root + "/"`. */
  predicate Under(root: string, p: string) {
    p == root || (|root| < |p| && p[..|root|] == root && p[|root|] == '/')
  }

  function Rekey(src: string, dst: string, p: string): string
    requires |src| <= |p|
  {
    dst + p[|src|..]
  }

  /** The literal prefix match is descent segment by segment. */
  lemma {:induction false} UnderIsDescent(p: string, q: string)
    requires Norm(p) && Norm(q)
    ensures Under(p, q) <==> Segs(p) <= Segs(q)
  {
    var a, b := Segs(p), Segs(q);
    if a <= b {
      var t := b[|a|..];
      assert a + t == b;
      PrintAppend(a, t);
      if t != [] {
        assert Print(t)[0] == '/';
        assert q[|p|] == '/';
      }
    }
    if Under(p, q) && p != q {
      var t := q[|p| + 1..];
      assert q == p + "/" + t;
      PrefixSegs(a, b, t);
    }
  }

  lemma {:induction false} PrefixSegs(a: seq<string>, b: seq<string>, t: string)
    requires Names(a) && Names(b)
    requires Print(b) == Print(a) + "/" + t
    ensures a <= b
  {
    if a != [] {
      assert b != [];
      var x, y := Print(a[1..]) + "/" + t, Print(b[1..]);
      assert Print(a) + "/" + t == "/" + a[0] + x;
      assert a[0] + x == Print(b)[1..] == b[0] + y;
      assert x[0] == '/' && (y != "" ==> y[0] == '/');
      FirstName(a[0], x, b[0], y);
      assert x == (a[0] + x)[|a[0]|..] == y;
      PrefixSegs(a[1..], b[1..], t);
      assert a == [a[0]] + a[1..] && b == [b[0]] + b[1..];
    }
  }

  lemma {:induction false} FirstName(m: string, x: string, n: string, y: string)
    requires '/' !in m && '/' !in n
    requires x != "" && x[0] == '/' && (y != "" ==> y[0] == '/')
    requires m + x == n + y
    ensures m == n
  {
    assert FirstIndexOf(m + x, '/') == |m| by {
      assert m + ['/'] + x[1..] == m + x;
      FirstIndexAfter(m, '/', x[1..]);
    }
    assert (n + y)[|m|] == '/';
    assert y != "";
    assert n + ['/'] + y[1..] == n + y;
    FirstIndexAfter(n, '/', y[1..]);
    assert m == (m + x)[..|m|] && n == (n + y)[..|n|];
  }

  /** Rekeying a tree keeps paths normal, lands inside the new tree and can be undone. */
  lemma {:induction false} RekeyNorm(src: string, dst: string, p: string)
    requires Norm(src) && Norm(dst) && Norm(p) && Under(src, p)
    ensures Norm(Rekey(src, dst, p))
    ensures Under(dst, Rekey(src, dst, p))
    ensures Rekey(dst, src, Rekey(src, dst, p)) == p
  {
    UnderIsDescent(src, p);
    var t := Segs(p)[|Segs(src)|..];
    assert Segs(src) + t == Segs(p);
    PrintAppend(Segs(src), t);
    assert p[|src|..] == Print(t);
    PrintAppend(Segs(dst), t);
    SegsPrint(Segs(dst) + t);
  }

  lemma {:induction false} RekeyUnder(src: string, dst: string, p: string)
    requires Under(src, p)
    ensures Under(dst, Rekey(src, dst, p))
    ensures Rekey(dst, src, Rekey(src, dst, p)) == p
  {
  }

  /** Two trees that share a path are nested. */
  lemma {:induction false} SharedPathNests(a: string, b: string, p: string)
    requires Under(a, p) && Under(b, p) && |a| <= |b|
    ensures Under(a, b)
  {
    assert b[..|a|] == p[..|b|][..|a|] == p[..|a|] == a;
    assert |a| < |b| ==> b[|a|] == p[|a|];
    assert |a| == |b| ==> b == b[..|a|];
  }

  /** Two trees that do not contain one another share no path. */
  lemma {:induction false} DisjointTrees(a: string, b: string, p: string)
    requires !Under(a, b) && !Under(b, a)
    ensures !(Under(a, p) && Under(b, p))
  {
    if Under(a, p) && Under(b, p) {
      if |a| <= |b| { SharedPathNests(a, b, p); } else { SharedPathNests(b, a, p); }
    }
  }

  lemma {:induction false} UnderTrans(a: string, b: string, p: string)
    requires Under(a, b) && Under(b, p)
    ensures Under(a, p)
  {
    if a != b && b != p {
      assert p[..|a|] == p[..|b|][..|a|] == a;
      assert p[|a|] == p[..|b|][|a|] == '/';
    }
  }

  /** Below a folder, a path's parent is still in the folder's tree. */
  lemma {:induction false} ParentUnder(a: string, p: string)
    requires Norm(a) && Norm(p) && Under(a, p) && p != a
    ensures Norm(RemoteParent(p)) && Under(a, RemoteParent(p))
  {
    UnderIsDescent(a, p);
    var init, name := NormShape(p);
    assert Segs(a) <= Segs(p);
    assert |Segs(a)| == |Segs(p)| ==> Segs(a) == Segs(p);
    assert init == Segs(p)[..|init|];
    assert Segs(a) <= init;
    SegsPrint(init);
    UnderIsDescent(a, RemoteParent(p));
  }

  // ---- The local mirror -------------------------------------------------------------

  /** `Path::join`. */
  function Join(dir: string, rel: string): string {
    if rel != "" && rel[0] == '/' then rel
    else if dir == "" || dir[|dir| - 1] == '/' then dir + rel
    else dir + "/" + rel
  }

  function JoinParts(parts: seq<string>): string {
    if parts == [] then "" else if |parts| == 1 then parts[0] else parts[0] + "/" + JoinParts(parts[1..])
  }

  /** Drops the trailing pieces `Path::components` does not see: empty ones, and `.` unless it leads. */
  function DropSkipped(parts: seq<string>): seq<string> {
    if parts == [] then []
    else
      var last := parts[|parts| - 1];
      if last == "" || (last == "." && |parts| > 1) then DropSkipped(parts[..|parts| - 1]) else parts
  }

  /** Every component of the relative path is `Component::Normal`. */
  predicate PlainRel(rel: string) {
    var parts := Split(rel, '/');
    parts[0] != "." && forall i :: 0 <= i < |parts| ==> parts[i] != ".."
  }

  /** `Cache::target_dir_for`: the directory of a path's local copy, or `None` when the path
      is refused. */
  function TargetDir(root: string, remote: string): Option<string> {
    var rel := TrimStart(remote);
    if !PlainRel(rel) then None
    else
      var comps := DropSkipped(Split(rel, '/'));
      var parent := if comps == [] then "" else JoinParts(DropSkipped(comps[..|comps| - 1]));
      Some(if parent == "" then root else Join(root, parent))
  }

  /** `Path::file_name` of the path below the root. */
  function FileName(remote: string): Option<string> {
    var comps := DropSkipped(Split(TrimStart(remote), '/'));
    if comps == [] then None else Some(comps[|comps| - 1])
  }

  /** Where `pin` and `rename_tree` put the local copy of `remote`. */
  function LocalPath(root: string, remote: string): Option<string> {
    match (TargetDir(root, remote), FileName(remote))
    case (Some(dir), Some(name)) => Some(Join(dir, name))
    case _ => None
  }

  predicate ValidRoot(root: string) {
    root != "" && root[|root| - 1] != '/'
  }

  lemma {:induction false} JoinPartsPrint(segs: seq<string>)
    requires segs != []
    ensures "/" + JoinParts(segs) == Print(segs)
  {
    if |segs| > 1 {
      JoinPartsPrint(segs[1..]);
    } else {
      assert segs[1..] == [];
    }
  }

  lemma {:induction false} SplitJoinParts(segs: seq<string>)
    requires segs != [] && Names(segs)
    ensures Split(JoinParts(segs), '/') == segs
    ensures JoinParts(segs)[..1] != "/"
  {
    if |segs| == 1 {
      SplitWhole(segs[0], '/');
    } else {
      assert Names(segs[1..]);
      SplitJoinParts(segs[1..]);
      SplitHead(segs[0], '/', JoinParts(segs[1..]));
      assert [segs[0]] + segs[1..] == segs;
    }
  }

  lemma {:induction false} TrimStartPlain(s: string)
    requires s != "" && s[0] == '/' && (|s| > 1 ==> s[1] != '/')
    ensures TrimStart(s) == s[1..]
  {
    assert TrimStart(s[1..]) == s[1..];
  }

  lemma {:induction false} DropSkippedNames(segs: seq<string>)
    requires Names(segs)
    ensures DropSkipped(segs) == segs
  {
    if segs != [] {
      assert ValidName(segs[|segs| - 1]);
    }
  }

  /** What `Path` sees of a normal path's relative form. */
  lemma {:induction false} RelParts(p: string)
    requires Norm(p)
    ensures TrimStart(p) == p[1..] == JoinParts(Segs(p))
    ensures Split(TrimStart(p), '/') == Segs(p)
    ensures DropSkipped(Segs(p)) == Segs(p)
  {
    var segs := Segs(p);
    JoinPartsPrint(segs);
    SplitJoinParts(segs);
    assert p == "/" + JoinParts(segs);
    TrimStartPlain(p);
    DropSkippedNames(segs);
  }

  lemma {:induction false} JoinPlain(dir: string, rel: string)
    requires ValidRoot(dir) && rel != "" && rel[0] != '/'
    ensures Join(dir, rel) == dir + "/" + rel
  {
  }

  lemma {:induction false} MirrorTarget(root: string, p: string, init: seq<string>, name: string)
    requires ValidRoot(root) && Norm(p) && Segs(p) == init + [name]
    ensures TargetDir(root, p) == Some(root + Print(init))
    ensures FileName(p) == Some(name)
  {
    RelParts(p);
    var segs := Segs(p);
    assert segs[..|segs| - 1] == init && segs[|segs| - 1] == name;
    DropSkippedNames(init);
    MirrorDir(root, init);
    assert PlainRel(TrimStart(p));
  }

  lemma {:induction false} LocalPathIs(root: string, p: string, init: seq<string>, name: string)
    requires ValidRoot(root) && Norm(p) && Segs(p) == init + [name]
    requires Names(init) && ValidName(name) && p == Print(init) + "/" + name
    ensures LocalPath(root, p) == Some(root + p)
  {
    var dir := root + Print(init);
    MirrorTarget(root, p, init, name);
    MirrorDirValid(root, init);
    JoinPlain(dir, name);
    assert dir + "/" + name == root + p;
  }

  /** On normal paths the local copy lives at the cache root followed by the Drive path, so
      distinct Drive paths have distinct local copies. */
  lemma {:induction false} LocalPathMirrors(root: string, p: string)
    requires ValidRoot(root) && Norm(p)
    ensures TargetDir(root, p) == Some(if RemoteParent(p) == "/" then root else root + RemoteParent(p))
    ensures LocalPath(root, p) == Some(root + p)
  {
    var init, name := NormShape(p);
    MirrorTarget(root, p, init, name);
    MirrorDirValid(root, init);
    NormNotSlash(init);
    LocalPathIs(root, p, init, name);
  }

  lemma {:induction false} NormNotSlash(init: seq<string>)
    requires init != [] ==> Norm(Print(init))
    ensures init != [] ==> Print(init) != "/"
  {
    if init != [] { var i, n := NormShape(Print(init)); }
  }

  lemma {:induction false} MirrorDirValid(root: string, init: seq<string>)
    requires ValidRoot(root) && Names(init)
    ensures ValidRoot(root + Print(init))
    ensures init == [] ==> root + Print(init) == root
  {
    if init != [] {
      PrintLast(init);
      assert ValidName(init[|init| - 1]);
    }
  }

  lemma {:induction false} MirrorDir(root: string, init: seq<string>)
    requires ValidRoot(root) && Names(init)
    ensures (if JoinParts(init) == "" then root else Join(root, JoinParts(init))) == root + Print(init)
  {
    if init == [] {
      assert root + "" == root;
    } else {
      JoinPartsPrint(init);
      SplitJoinParts(init);
      JoinPlain(root, JoinParts(init));
      assert root + "/" + JoinParts(init) == root + ("/" + JoinParts(init));
    }
  }

  /** Without the normal form the mirror is not injective: two Drive paths, one local file. */
  lemma {:induction false} UnnormalisedPathsCollide(root: string)
    requires ValidRoot(root)
    ensures LocalPath(root, "/a//x") == LocalPath(root, "/a/x") == Some(root + "/a/x")
  {
    SplitSamples();
    SampleParents();
    JoinPlain(root, "a");
    var dir := root + "/a";
    assert root + "/" + "a" == dir;
    JoinPlain(dir, "x");
    assert dir + "/" + "x" == root + "/a/x";
  }

  lemma {:induction false} SampleParents()
    ensures DropSkipped(["a", "", "x"]) == ["a", "", "x"] && DropSkipped(["a", "x"]) == ["a", "x"]
    ensures DropSkipped(["a", "", "x"][..2]) == DropSkipped(["a", "x"][..1]) == ["a"]
  {
    assert ["a", "", "x"][..2] == ["a", ""] && ["a", ""][..1] == ["a"] && ["a", "x"][..1] == ["a"];
    assert DropSkipped(["a", ""]) == DropSkipped(["a"]) == ["a"];
  }

  lemma {:induction false} SplitSamples()
    ensures TrimStart("/a//x") == "a//x" && TrimStart("/a/x") == "a/x"
    ensures Split("a/x", '/') == ["a", "x"]
    ensures Split("a//x", '/') == ["a", "", "x"]
  {
    TrimStartPlain("/a//x");
    TrimStartPlain("/a/x");
    SplitWhole("x", '/');
    SplitHead("a", '/', "x");
    SplitHead("", '/', "x");
    SplitHead("a", '/', "/x");
    assert "a" + ['/'] + "x" == "a/x" && "" + ['/'] + "x" == "/x" && "a" + ['/'] + "/x" == "a//x";
  }
}
