/** The remote tree and the CLI calls on it. Each call first consumes one scripted fault, which
    may make it fail without touching the tree; otherwise the tree decides the outcome. */
module Drive {
  import opened Paths
  import opened Relocation

  datatype DriveError =
    NotFound | NotAuthenticated | AlreadyExists | Unsupported | Cli | Parse | Spawn | Timeout | Io | Sqlite

  datatype Result<+T> = Ok(value: T) | Err(error: DriveError)

  datatype Unit = Unit

  type Byte = b: int | 0 <= b < 256
  type Bytes = seq<Byte>

  datatype NodeEntry = NodeEntry(uid: nat, isFolder: bool, webOnly: bool, mtime: nat, size: nat)
  datatype Node = Node(entry: NodeEntry, bytes: Bytes)
  type Tree = map<string, Node>

  /** One entry of a folder listing: the display name and the node. */
  datatype Item = Item(name: string, entry: NodeEntry)

  /** What the CLI can report on its own account: a collision is never invented. */
  type Fault = e: DriveError | !e.AlreadyExists? witness Cli

  datatype Call =
    | Info(path: string)
    | List(path: string)
    | CreateFolder(parent: string, name: string)
    | Move(path: string, parent: string)
    | Rename(path: string, name: string)
    | Upload(local: string, parent: string)
    | Download(path: string, dir: string)
    | Trash(path: string)
    | Copy(path: string, parent: string, name: string)

  /** `faults` scripts the coming calls, `calls` logs the issued ones, `stored` the uploads Drive
      accepted, and `clock` supplies fresh uids and times. */
  datatype Remote = Remote(
    tree: Tree,
    faults: seq<Option<Fault>>,
    calls: seq<Call>,
    stored: seq<(string, Bytes)>,
    clock: nat)

  // ---- The tree ---------------------------------------------------------------------

  predicate FolderAt(tree: Tree, p: string) {
    p == "/" || (p in tree && tree[p].entry.isFolder)
  }

  /** Every path is normal and hangs off an existing parent. */
  predicate WellFormed(tree: Tree) {
    forall p :: p in tree ==> Norm(p) && (RemoteParent(p) == "/" || RemoteParent(p) in tree)
  }

  lemma {:induction false} AncestorsExist(tree: Tree, a: string, p: string)
    requires WellFormed(tree) && p in tree && Norm(a) && Under(a, p)
    ensures a in tree
    decreases |p|
  {
    if p != a {
      ParentUnder(a, p);
      var init, name := NormShape(p);
      AncestorsExist(tree, a, RemoteParent(p));
    }
  }

  lemma {:induction false} NothingBelowAbsent(tree: Tree, a: string)
    requires WellFormed(tree) && Norm(a) && a !in tree
    ensures Subtree(tree, a) == {}
  {
    forall p | p in tree
      ensures !Under(a, p)
    {
      if Under(a, p) { AncestorsExist(tree, a, p); }
    }
  }

  /** `items` is a listing of folder `p`: its children, once each, in some order. */
  predicate Lists(tree: Tree, p: string, items: seq<Item>) {
    && (forall i :: 0 <= i < |items| ==> LiveItem(tree, p, items[i]))
    && (forall i, j :: 0 <= i < j < |items| ==> items[i].name != items[j].name)
    && (forall k :: k in tree && RemoteParent(k) == p ==> exists i :: 0 <= i < |items| && items[i].name == BaseName(k))
  }

  predicate LiveItem(tree: Tree, p: string, item: Item) {
    ValidName(item.name) && Child(p, item.name) in tree && tree[Child(p, item.name)].entry == item.entry
  }

  // ---- Calls ------------------------------------------------------------------------

  /** Logs a call and takes the next scripted fault. */
  function Begin(r: Remote, c: Call): (Option<Fault>, Remote) {
    var r1 := r.(calls := r.calls + [c], clock := r.clock + 1);
    if r.faults == [] then (None, r1) else (r.faults[0], r1.(faults := r.faults[1..]))
  }

  function Stat(r: Remote, p: string): (Result<NodeEntry>, Remote) {
    var (fault, r1) := Begin(r, Info(p));
    match fault
    case Some(e) => (Err(e), r1)
    case None => (if p in r.tree then Ok(r.tree[p].entry) else Err(NotFound), r1)
  }

  /** `filesystem list`; `reply` is the order Drive answers in. */
  function ListFolder(r: Remote, p: string, reply: seq<Item>): (Result<seq<Item>>, Remote) {
    var (fault, r1) := Begin(r, List(p));
    if fault.Some? then (Err(fault.value), r1)
    else if !FolderAt(r.tree, p) then (Err(NotFound), r1)
    else (Ok(reply), r1)
  }

  function NewFolder(uid: nat, mtime: nat): Node {
    Node(NodeEntry(uid, true, false, mtime, 0), [])
  }

  function MakeFolder(r: Remote, parent: string, name: string): (Result<NodeEntry>, Remote) {
    var (fault, r1) := Begin(r, CreateFolder(parent, name));
    var p := Child(parent, name);
    var node := NewFolder(r.clock, r.clock);
    if fault.Some? then (Err(fault.value), r1)
    else if !FolderAt(r.tree, parent) then (Err(NotFound), r1)
    else if !ValidName(name) then (Err(Cli), r1)
    else if p in r.tree then (Err(AlreadyExists), r1)
    else (Ok(node.entry), r1.(tree := r.tree[p := node]))
  }

  /** `filesystem rename`: a new name under the same parent. */
  function RenamePath(r: Remote, p: string, name: string): (Result<Unit>, Remote) {
    var (fault, r1) := Begin(r, Rename(p, name));
    var dest := Child(RemoteParent(p), name);
    if fault.Some? then (Err(fault.value), r1)
    else if p !in r.tree then (Err(NotFound), r1)
    else if !ValidName(name) then (Err(Cli), r1)
    else if dest in r.tree then (Err(AlreadyExists), r1)
    else (Ok(Unit), r1.(tree := Relocate(r.tree, p, dest)))
  }

  /** `filesystem move`: a new parent for the same name. */
  function MovePath(r: Remote, p: string, parent: string): (Result<Unit>, Remote) {
    var (fault, r1) := Begin(r, Move(p, parent));
    var dest := Child(parent, BaseName(p));
    if fault.Some? then (Err(fault.value), r1)
    else if p !in r.tree || !FolderAt(r.tree, parent) then (Err(NotFound), r1)
    else if Under(p, parent) then (Err(Cli), r1)
    else if dest in r.tree then (Err(AlreadyExists), r1)
    else (Ok(Unit), r1.(tree := Relocate(r.tree, p, dest)))
  }

  /** `filesystem upload -f replace`: the remote name is the local base name. */
  function UploadFile(r: Remote, local: string, bytes: Bytes, parent: string): (Result<Unit>, Remote) {
    var (fault, r1) := Begin(r, Upload(local, parent));
    var p := Child(parent, BaseName(local));
    if fault.Some? then (Err(fault.value), r1)
    else if !FolderAt(r.tree, parent) then (Err(NotFound), r1)
    else if FolderAt(r.tree, p) then (Err(AlreadyExists), r1)
    else (Ok(Unit), r1.(tree := r.tree[p := NewVersion(r, p, bytes)], stored := r.stored + [(p, bytes)]))
  }

  /** A file keeps its identity when a new version replaces it. */
  function NewVersion(r: Remote, p: string, bytes: Bytes): Node {
    Node(NodeEntry(if p in r.tree then r.tree[p].entry.uid else r.clock, false, false, r.clock, |bytes|), bytes)
  }

  function DownloadFile(r: Remote, p: string, dir: string): (Result<Bytes>, Remote) {
    var (fault, r1) := Begin(r, Download(p, dir));
    if fault.Some? then (Err(fault.value), r1)
    else if p !in r.tree then (Err(NotFound), r1)
    else if r.tree[p].entry.isFolder then (Err(Cli), r1)
    else (Ok(r.tree[p].bytes), r1)
  }

  function TrashPath(r: Remote, p: string): (Result<Unit>, Remote) {
    var (fault, r1) := Begin(r, Trash(p));
    if fault.Some? then (Err(fault.value), r1)
    else if p !in r.tree then (Err(NotFound), r1)
    else (Ok(Unit), r1.(tree := r.tree - Subtree(r.tree, p)))
  }

  /** `filesystem copy -n`: folders are copied with what is below them. */
  function CopyPath(r: Remote, p: string, parent: string, name: string): (Result<Unit>, Remote) {
    var (fault, r1) := Begin(r, Copy(p, parent, name));
    var dest := Child(parent, name);
    if fault.Some? then (Err(fault.value), r1)
    else if p !in r.tree || !FolderAt(r.tree, parent) then (Err(NotFound), r1)
    else if !ValidName(name) then (Err(Cli), r1)
    else if dest in r.tree then (Err(AlreadyExists), r1)
    else (Ok(Unit), r1.(tree := r.tree + Relocate(r.tree, p, dest)))
  }

  // ---- rename_or_move ---------------------------------------------------------------

  /** KIO's rename: the name changes in place, or the node moves first and is renamed there. */
  function RenameOrMove(r: Remote, source: string, target: string): (Result<Unit>, Remote) {
    var (oldParent, oldName) := SplitParentAndName(source);
    var (newParent, newName) := SplitParentAndName(target);
    if oldParent == newParent then RenamePath(r, source, newName)
    else
      var (moved, r1) := MovePath(r, source, newParent);
      if moved.Err? || oldName == newName then (moved, r1)
      else RenamePath(r1, Child(newParent, oldName), newName)
  }

  /** The half-way place of a rename that also changes the parent. */
  function HalfWay(source: string, target: string): string {
    Child(RemoteParent(target), BaseName(source))
  }

  /** The same call on normal paths, in terms of parents and base names. */
  function RenameOrMoveNorm(r: Remote, source: string, target: string): (Result<Unit>, Remote) {
    if RemoteParent(source) == RemoteParent(target) then RenamePath(r, source, BaseName(target))
    else
      var (moved, r1) := MovePath(r, source, RemoteParent(target));
      if moved.Err? || BaseName(source) == BaseName(target) then (moved, r1)
      else RenamePath(r1, HalfWay(source, target), BaseName(target))
  }

  lemma {:induction false} RenameOrMoveIsNorm(r: Remote, source: string, target: string)
    requires Norm(source) && Norm(target)
    ensures RenameOrMove(r, source, target) == RenameOrMoveNorm(r, source, target)
  {
    ChildOfParent(source);
    ChildOfParent(target);
  }

  lemma {:induction false} HalfWayFacts(source: string, target: string)
    requires Norm(source) && Norm(target)
    ensures var mid := HalfWay(source, target);
      && Norm(mid) && RemoteParent(mid) == RemoteParent(target) && BaseName(mid) == BaseName(source)
      && Child(RemoteParent(target), BaseName(target)) == target
      && ValidName(BaseName(target))
      && (mid == target <==> BaseName(source) == BaseName(target))
      && (RemoteParent(source) != RemoteParent(target) ==> mid != source)
  {
    ChildOfParent(source);
    ChildOfParent(target);
    ParentOfChild(RemoteParent(target), BaseName(source));
  }

  lemma {:induction false} NotBelowSource(source: string, p: string)
    requires Norm(source) && Norm(p) && p != source && !Under(source, RemoteParent(p))
    ensures !Under(source, p)
  {
    if Under(source, p) { ParentUnder(source, p); }
  }

  lemma {:induction false} NotBelowSibling(mid: string, p: string)
    requires Norm(mid) && Norm(p) && p != mid && RemoteParent(mid) == RemoteParent(p)
    ensures !Under(mid, p)
  {
    if Under(mid, p) {
      ParentUnder(mid, p);
      var init, name := NormShape(mid);
    }
  }

  lemma {:induction false} AbsentNotAbove(tree: Tree, dest: string, p: string)
    requires WellFormed(tree) && Norm(dest) && p in tree && dest !in tree
    ensures !Under(dest, p)
  {
    if Under(dest, p) { AncestorsExist(tree, dest, p); }
  }

  /** Moving to the half-way place and renaming there adds up to one relocation. */
  lemma {:induction false} TwoSteps(tree: Tree, source: string, target: string)
    requires WellFormed(tree) && Norm(source) && Norm(target) && source in tree
    requires RemoteParent(source) != RemoteParent(target) && !Under(source, RemoteParent(target))
    requires HalfWay(source, target) !in tree
    ensures var mid := HalfWay(source, target);
      && Relocate(Relocate(tree, source, mid), mid, target) == Relocate(tree, source, target)
      && mid in Relocate(tree, source, mid)
      && (target in Relocate(tree, source, mid) <==> target in tree || target == mid)
  {
    var mid := HalfWay(source, target);
    HalfWayFacts(source, target);
    NothingBelowAbsent(tree, mid);
    AbsentNotAbove(tree, mid, source);
    assert RemoteParent(mid) == RemoteParent(target);
    NotBelowSource(source, mid);
    RelocateTwice(tree, source, mid, target);
    assert source in Subtree(tree, source);
    assert Rekey(mid, source, mid) == source;
    assert mid in Relocate(tree, source, mid);
    if target != mid {
      NotBelowSibling(mid, target);
      if target in tree {
        NotBelowSource(source, target);
      }
    }
  }

  lemma {:induction false} RenameOrMoveNormRelocates(r: Remote, source: string, target: string)
    requires WellFormed(r.tree) && Norm(source) && Norm(target)
    requires RenameOrMoveNorm(r, source, target).0.Ok?
    ensures source in r.tree && target !in r.tree
    ensures RenameOrMoveNorm(r, source, target).1.tree == Relocate(r.tree, source, target)
  {
    HalfWayFacts(source, target);
    var parent, name := RemoteParent(target), BaseName(target);
    if RemoteParent(source) == parent {
      Renamed(r, source, name, target);
    } else {
      var mid := HalfWay(source, target);
      MovedTo(r, source, parent, mid);
      TwoSteps(r.tree, source, target);
      Renamed(MovePath(r, source, parent).1, mid, name, target);
    }
  }

  lemma {:induction false} Renamed(r: Remote, p: string, name: string, dest: string)
    requires dest == Child(RemoteParent(p), name)
    ensures RenamePath(r, p, name).0.Ok? ==>
              p in r.tree && dest !in r.tree && RenamePath(r, p, name).1.tree == Relocate(r.tree, p, dest)
  {
  }

  lemma {:induction false} MovedTo(r: Remote, p: string, parent: string, dest: string)
    requires dest == Child(parent, BaseName(p))
    requires MovePath(r, p, parent).0.Ok?
    ensures p in r.tree && dest !in r.tree && FolderAt(r.tree, parent) && !Under(p, parent)
    ensures MovePath(r, p, parent).1.tree == Relocate(r.tree, p, dest)
  {
  }

  /** What a successful call did: exactly the old subtree moved, to exactly the new path. */
  lemma {:induction false} RenameOrMoveRelocates(r: Remote, source: string, target: string)
    requires WellFormed(r.tree) && Norm(source) && Norm(target)
    ensures RenameOrMove(r, source, target).0.Ok? ==>
              source in r.tree && target !in r.tree &&
              RenameOrMove(r, source, target).1.tree == Relocate(r.tree, source, target)
  {
    RenameOrMoveIsNorm(r, source, target);
    if RenameOrMoveNorm(r, source, target).0.Ok? {
      RenameOrMoveNormRelocates(r, source, target);
    }
  }

  lemma {:induction false} FailedRenameOrMoveNorm(r: Remote, source: string, target: string)
    requires RenameOrMoveNorm(r, source, target).0.Err?
    ensures var tree' := RenameOrMoveNorm(r, source, target).1.tree;
      var (moved, r1) := MovePath(r, source, RemoteParent(target));
      if RemoteParent(source) != RemoteParent(target) && moved.Ok?
      then source in r.tree && HalfWay(source, target) !in r.tree &&
           tree' == r1.tree == Relocate(r.tree, source, HalfWay(source, target))
      else tree' == r.tree
  {
    var parent, name := RemoteParent(target), BaseName(target);
    if RemoteParent(source) == parent {
      FailedCalls(r, source, parent, name);
    } else {
      FailedCalls(r, source, parent, name);
      var (moved, r1) := MovePath(r, source, parent);
      if moved.Ok? {
        MovedTo(r, source, parent, HalfWay(source, target));
        FailedCalls(r1, HalfWay(source, target), parent, name);
      }
    }
  }

  lemma {:induction false} FailedCalls(r: Remote, p: string, parent: string, name: string)
    ensures RenamePath(r, p, name).0.Err? ==> RenamePath(r, p, name).1.tree == r.tree
    ensures MovePath(r, p, parent).0.Err? ==> MovePath(r, p, parent).1.tree == r.tree
  {
  }

  /** A failed call leaves the tree alone, except exactly when the move went through and the
      rename did not: then the subtree sits under the new parent with its old name. */
  lemma {:induction false} FailedRenameOrMove(r: Remote, source: string, target: string)
    requires Norm(source) && Norm(target)
    requires RenameOrMove(r, source, target).0.Err?
    ensures var tree' := RenameOrMove(r, source, target).1.tree;
      if RemoteParent(source) != RemoteParent(target) && MovePath(r, source, RemoteParent(target)).0.Ok?
      then source in r.tree && HalfWay(source, target) !in r.tree &&
           tree' == Relocate(r.tree, source, HalfWay(source, target))
      else tree' == r.tree
  {
    RenameOrMoveIsNorm(r, source, target);
    FailedRenameOrMoveNorm(r, source, target);
  }

  // ---- Well-formedness is kept ------------------------------------------------------

  lemma {:induction false} ParentAbove(p: string)
    requires Norm(p) && RemoteParent(p) != "/"
    ensures Norm(RemoteParent(p)) && Under(RemoteParent(p), p) && |RemoteParent(p)| < |p|
  {
    var init, name := NormShape(p);
  }

  lemma {:induction false} ParentOutside(a: string, p: string)
    requires Norm(p) && RemoteParent(p) != "/" && !Under(a, p)
    ensures !Under(a, RemoteParent(p))
  {
    ParentAbove(p);
    if Under(a, RemoteParent(p)) { UnderTrans(a, RemoteParent(p), p); }
  }

  /** Rekeying commutes with taking the parent, below the moved path itself. */
  lemma {:induction false} RekeyParent(src: string, dst: string, p: string)
    requires Norm(src) && Norm(dst) && Norm(p) && Under(src, p) && p != src
    ensures Norm(RemoteParent(p)) && Under(src, RemoteParent(p))
    ensures Norm(Rekey(src, dst, p)) && RemoteParent(Rekey(src, dst, p)) == Rekey(src, dst, RemoteParent(p))
  {
    ParentUnder(src, p);
    ChildOfParent(p);
    RekeyNorm(src, dst, p);
    RekeyNorm(src, dst, RemoteParent(p));
    var d, n := RemoteParent(p), BaseName(p);
    RekeyChild(src, dst, d, n);
    ParentOfChild(Rekey(src, dst, d), n);
  }

  lemma {:induction false} RekeyChild(src: string, dst: string, d: string, name: string)
    requires Norm(d) && |src| <= |d| && Norm(Rekey(src, dst, d))
    ensures |src| <= |Child(d, name)|
    ensures Rekey(src, dst, Child(d, name)) == Child(Rekey(src, dst, d), name)
  {
    SlashedPath(d, name);
    SlashedPath(Rekey(src, dst, d), name);
    RekeyAppends(src, dst, d, ['/'] + name);
    assert Child(d, name) == d + (['/'] + name);
  }

  lemma {:induction false} RekeyAppends(src: string, dst: string, d: string, tail: string)
    requires |src| <= |d|
    ensures Rekey(src, dst, d + tail) == Rekey(src, dst, d) + tail
  {
    assert (d + tail)[|src|..] == d[|src|..] + tail;
  }

  lemma {:induction false} SlashedPath(parent: string, name: string)
    requires Norm(parent)
    ensures Child(parent, name) == parent + "/" + name
  {
    TrimEndPrint(Segs(parent));
  }

  lemma {:induction false} RelocateKeepsWellFormed(tree: Tree, src: string, dst: string)
    requires WellFormed(tree) && Norm(src) && Norm(dst) && dst !in tree && !Under(src, dst)
    requires RemoteParent(dst) == "/" || RemoteParent(dst) in tree
    ensures WellFormed(Relocate(tree, src, dst))
  {
    var after := Relocate(tree, src, dst);
    forall p | p in after
      ensures Norm(p) && (RemoteParent(p) == "/" || RemoteParent(p) in after)
    {
      if Arrived(Subtree(tree, src), src, dst, p) {
        ArrivedIs(Subtree(tree, src), src, dst, p);
        var k := Rekey(dst, src, p);
        RekeyNorm(src, dst, k);
        if k == src {
          assert p == dst;
          if RemoteParent(dst) != "/" { ParentOutside(src, dst); }
        } else {
          RekeyParent(src, dst, k);
          RekeyUnder(src, dst, RemoteParent(k));
          ParentInTree(tree, src, k);
        }
      } else if RemoteParent(p) != "/" {
        ParentOutside(src, p);
      }
    }
  }

  lemma {:induction false} ParentInTree(tree: Tree, src: string, k: string)
    requires WellFormed(tree) && k in tree && Norm(src) && Under(src, k) && k != src
    ensures RemoteParent(k) in Subtree(tree, src)
  {
    ParentUnder(src, k);
    var init, name := NormShape(k);
    var init', name' := NormShape(RemoteParent(k));
  }

  lemma {:induction false} TrashKeepsWellFormed(tree: Tree, p: string)
    requires WellFormed(tree)
    ensures WellFormed(tree - Subtree(tree, p))
  {
    var after := tree - Subtree(tree, p);
    forall k | k in after
      ensures Norm(k) && (RemoteParent(k) == "/" || RemoteParent(k) in after)
    {
      if RemoteParent(k) != "/" { ParentOutside(p, k); }
    }
  }

  lemma {:induction false} CopyKeepsWellFormed(tree: Tree, src: string, dst: string)
    requires WellFormed(tree) && Norm(src) && Norm(dst) && (RemoteParent(dst) == "/" || RemoteParent(dst) in tree)
    ensures WellFormed(tree + Relocate(tree, src, dst))
  {
    var after := tree + Relocate(tree, src, dst);
    forall p | p in after
      ensures Norm(p) && (RemoteParent(p) == "/" || RemoteParent(p) in after)
    {
      if p !in tree {
        ArrivedIs(Subtree(tree, src), src, dst, p);
        var k := Rekey(dst, src, p);
        RekeyNorm(src, dst, k);
        if k == src {
          assert p == dst;
        } else {
          RekeyParent(src, dst, k);
          RekeyUnder(src, dst, RemoteParent(k));
          ParentInTree(tree, src, k);
        }
      }
    }
  }

  /** Whatever happens, every path still hangs off an existing parent. */
  lemma {:induction false} RenameOrMoveKeepsWellFormed(r: Remote, source: string, target: string)
    requires WellFormed(r.tree) && Norm(source) && Norm(target)
    ensures WellFormed(RenameOrMove(r, source, target).1.tree)
    ensures RenameOrMove(r, source, target).0.Ok? ==> !Under(source, target) && !Under(target, source)
  {
    if RenameOrMove(r, source, target).0.Ok? {
      RenameOrMoveRelocates(r, source, target);
      RenameOrMoveIsNorm(r, source, target);
      RenamedFrom(r, source, target);
      RenameRoom(r.tree, source, target);
      RelocateKeepsWellFormed(r.tree, source, target);
    } else {
      FailedRenameOrMove(r, source, target);
      if RenameOrMove(r, source, target).1.tree != r.tree {
        HalfWayKeepsWellFormed(r, source, target);
      }
    }
  }

  lemma {:induction false} HalfWayKeepsWellFormed(r: Remote, source: string, target: string)
    requires WellFormed(r.tree) && Norm(source) && Norm(target)
    requires RemoteParent(source) != RemoteParent(target) && MovePath(r, source, RemoteParent(target)).0.Ok?
    ensures HalfWay(source, target) !in r.tree && !Under(source, HalfWay(source, target))
    ensures WellFormed(Relocate(r.tree, source, HalfWay(source, target)))
  {
    HalfWayFacts(source, target);
    MovedTo(r, source, RemoteParent(target), HalfWay(source, target));
    NotBelowSource(source, HalfWay(source, target));
    RelocateKeepsWellFormed(r.tree, source, HalfWay(source, target));
  }

  lemma {:induction false} RenamedFrom(r: Remote, source: string, target: string)
    requires RenameOrMoveNorm(r, source, target).0.Ok?
    ensures source in r.tree
    ensures RemoteParent(source) != RemoteParent(target) ==>
              FolderAt(r.tree, RemoteParent(target)) && !Under(source, RemoteParent(target)) &&
              HalfWay(source, target) !in r.tree
  {
  }

  lemma {:induction false} RenameRoom(tree: Tree, source: string, target: string)
    requires WellFormed(tree) && Norm(source) && Norm(target) && source in tree && target !in tree
    requires RemoteParent(source) != RemoteParent(target) ==>
               FolderAt(tree, RemoteParent(target)) && !Under(source, RemoteParent(target))
    ensures !Under(source, target) && !Under(target, source)
    ensures RemoteParent(target) == "/" || RemoteParent(target) in tree
  {
    AbsentNotAbove(tree, target, source);
    if RemoteParent(source) == RemoteParent(target) {
      NotBelowSibling(source, target);
    } else {
      NotBelowSource(source, target);
    }
  }

  function Places(tree: Tree, uid: nat): set<string> {
    set p | p in tree && tree[p].entry.uid == uid
  }

  lemma {:induction false} PlacesSplit(tree: Tree, p: string, dest: string, uid: nat, there: set<string>,
                                       arrived: set<string>)
    requires WellFormed(tree) && Norm(dest) && dest !in tree
    requires there == Places(tree, uid) * Subtree(tree, p)
    requires arrived == Targets(there, p, dest)
    ensures Places(Relocate(tree, p, dest), uid) == (Places(tree, uid) - there) + arrived
    ensures (Places(tree, uid) - there) !! arrived
  {
    NothingBelowAbsent(tree, dest);
    TargetsArrive(there, p, dest);
    var moved, after := Subtree(tree, p), Relocate(tree, p, dest);
    forall x
      ensures x in Places(after, uid) <==> x in (Places(tree, uid) - there) + arrived
      ensures !(x in Places(tree, uid) && x in arrived)
    {
      assert x in tree && Under(dest, x) ==> x in Subtree(tree, dest);
    }
  }

  lemma {:induction false} ExchangeKeepsSize(before: set<string>, there: set<string>, arrived: set<string>,
                                             after: set<string>)
    requires there <= before && (before - there) !! arrived && |arrived| == |there|
    requires after == (before - there) + arrived
    ensures |after| == |before|
  {
    assert before == (before - there) + there;
  }

  /** Moving a subtree to a free place keeps every node in as many places as before. */
  lemma {:induction false} RelocateConserves(tree: Tree, p: string, dest: string, uid: nat)
    requires WellFormed(tree) && Norm(dest) && dest !in tree
    ensures |Places(Relocate(tree, p, dest), uid)| == |Places(tree, uid)|
  {
    var there := Places(tree, uid) * Subtree(tree, p);
    var arrived := Targets(there, p, dest);
    PlacesSplit(tree, p, dest, uid, there, arrived);
    InjectiveImage(there, p, dest);
    ExchangeKeepsSize(Places(tree, uid), there, arrived, Places(Relocate(tree, p, dest), uid));
  }

  /** Whatever happens, every node still exists exactly as often as before. */
  lemma {:induction false} RenameOrMoveConserves(r: Remote, source: string, target: string, uid: nat)
    requires WellFormed(r.tree) && Norm(source) && Norm(target)
    ensures |Places(RenameOrMove(r, source, target).1.tree, uid)| == |Places(r.tree, uid)|
  {
    var (res, r') := RenameOrMove(r, source, target);
    if res.Ok? {
      RenameOrMoveRelocates(r, source, target);
      RelocateConserves(r.tree, source, target, uid);
    } else {
      FailedRenameOrMove(r, source, target);
      if r'.tree != r.tree {
        HalfWayFacts(source, target);
        RelocateConserves(r.tree, source, HalfWay(source, target), uid);
      }
    }
  }

  /** When the CLI itself does not fail, the call succeeds exactly in this situation. The place
      the node passes through must be free too, not only the one it is renamed to. */
  lemma {:induction false} RenameOrMoveSucceeds(r: Remote, source: string, target: string)
    requires WellFormed(r.tree) && Norm(source) && Norm(target) && r.faults == []
    ensures RenameOrMove(r, source, target).0.Ok? <==>
              (source in r.tree && target !in r.tree &&
               (RemoteParent(source) != RemoteParent(target) ==>
                  FolderAt(r.tree, RemoteParent(target)) && !Under(source, RemoteParent(target)) &&
                  HalfWay(source, target) !in r.tree))
  {
    RenameOrMoveIsNorm(r, source, target);
    HalfWayFacts(source, target);
    var (moved, r1) := MovePath(r, source, RemoteParent(target));
    if RemoteParent(source) != RemoteParent(target) && moved.Ok? {
      TwoSteps(r.tree, source, target);
    }
  }

  // ---- ensure_remote_dir_chain ------------------------------------------------------

  /** Walks down from `current`, creating each missing folder. */
  function ExtendChain(r: Remote, current: string, segs: seq<string>): (Result<Unit>, Remote)
    decreases |segs|
  {
    if segs == [] then (Ok(Unit), r)
    else
      var next := current + "/" + segs[0];
      var (stat, r1) := Stat(r, next);
      if stat.Ok? then ExtendChain(r1, next, segs[1..])
      else if stat.error != NotFound then (Err(stat.error), r1)
      else
        var (made, r2) := MakeFolder(r1, current, segs[0]);
        if made.Err? && made.error != AlreadyExists then (Err(made.error), r2)
        else ExtendChain(r2, next, segs[1..])
  }

  function EnsureChain(r: Remote, dir: string): (Result<Unit>, Remote) {
    var segs := Segs(dir);
    if |segs| <= 1 then (Ok(Unit), r) else ExtendChain(r, "/" + segs[0], segs[1..])
  }

  /** `ensure_remote_dir_chain` as the loop it is. */
  method EnsureRemoteDirChain(remote: Remote, dir: string) returns (result: Result<Unit>, r: Remote)
    ensures (result, r) == EnsureChain(remote, dir)
  {
    r := remote;
    var segs := Segs(dir);
    if |segs| <= 1 {
      return Ok(Unit), r;
    }
    var current := "/" + segs[0];
    var i := 1;
    while i < |segs|
      invariant 1 <= i <= |segs|
      invariant ExtendChain(r, current, segs[i..]) == EnsureChain(remote, dir)
    {
      var parent := current;
      current := current + "/" + segs[i];
      var stat, made;
      assert segs[i..][1..] == segs[i + 1..];
      var (s, r1) := Stat(r, current);
      stat, r := s, r1;
      if stat.Err? {
        if stat.error != NotFound {
          return Err(stat.error), r;
        }
        var (m, r2) := MakeFolder(r, parent, segs[i]);
        made, r := m, r2;
        if made.Err? && made.error != AlreadyExists {
          return Err(made.error), r;
        }
      }
      i := i + 1;
    }
    return Ok(Unit), r;
  }

  /** The tree only gains folders, each an ancestor of what the chain leads to. */
  predicate OnlyGains(tree: Tree, tree': Tree, base: string) {
    && (forall p :: p in tree ==> p in tree' && tree'[p] == tree[p])
    && (forall p :: p in tree' && p !in tree ==> tree'[p].entry.isFolder && Under(p, base))
    && (WellFormed(tree) ==> WellFormed(tree'))
  }

  lemma {:induction false} OnlyGainsTrans(t0: Tree, t1: Tree, t2: Tree, base: string)
    requires OnlyGains(t0, t1, base) && OnlyGains(t1, t2, base)
    ensures OnlyGains(t0, t2, base)
  {
  }

  lemma {:induction false} MakeFolderGains(r: Remote, parent: string, name: string, base: string)
    requires Norm(parent) && ValidName(name) && Under(Child(parent, name), base)
    ensures var (made, r') := MakeFolder(r, parent, name);
      OnlyGains(r.tree, r'.tree, base) && (made.Ok? ==> Child(parent, name) in r'.tree) &&
      (made.Err? && made.error.AlreadyExists? ==> Child(parent, name) in r.tree)
  {
    ParentOfChild(parent, name);
    MakeFolderIs(r, parent, name);
  }

  lemma {:induction false} MakeFolderIs(r: Remote, parent: string, name: string)
    ensures var (made, r') := MakeFolder(r, parent, name);
      && (made.Err? ==> r'.tree == r.tree)
      && (made.Err? && made.error.AlreadyExists? ==> Child(parent, name) in r.tree)
  {
  }

  /** One step of the walk. */
  lemma {:induction false} ChainStep(r: Remote, done: seq<string>, name: string, base: string)
    requires done != [] && Names(done) && ValidName(name) && Under(Print(done) + "/" + name, base)
    ensures var next := Print(done) + "/" + name;
      var (stat, r1) := Stat(r, next);
      var (made, r2) := MakeFolder(r1, Print(done), name);
      && r1.tree == r.tree && OnlyGains(r.tree, r2.tree, base)
      && (stat.Ok? ==> next in r1.tree)
      && (made.Ok? || made.error == AlreadyExists ==> next in r2.tree)
  {
    SegsPrint(done);
    TrimEndPrint(done);
    assert Child(Print(done), name) == Print(done) + "/" + name;
    var (stat, r1) := Stat(r, Print(done) + "/" + name);
    MakeFolderGains(r1, Print(done), name, base);
  }

  lemma {:induction false} ExtendChainExists(r: Remote, done: seq<string>, segs: seq<string>, base: string)
    requires done != [] && Names(done) && Names(segs) && base == Print(done + segs)
    ensures OnlyGains(r.tree, ExtendChain(r, Print(done), segs).1.tree, base)
    ensures ExtendChain(r, Print(done), segs).0.Ok? ==>
              forall n :: |done| < n <= |done + segs| ==>
                  Print((done + segs)[..n]) in ExtendChain(r, Print(done), segs).1.tree
    decreases |segs|
  {
    if segs == [] {
      assert done + segs == done;
    } else {
      var done' := done + [segs[0]];
      PrintLast(done');
      assert done'[..|done|] == done && done' + segs[1..] == done + segs;
      var next := Print(done');
      SegsPrint(done');
      SegsPrint(done + segs);
      UnderIsDescent(next, base);
      ChainStep(r, done, segs[0], base);
      var (stat, r1) := Stat(r, next);
      var (made, r2) := MakeFolder(r1, Print(done), segs[0]);
      var r3 := if stat.Ok? then r1 else r2;
      if stat.Ok? || (stat.error == NotFound && (made.Ok? || made.error == AlreadyExists)) {
        ExtendChainExists(r3, done', segs[1..], base);
        var (res, r') := ExtendChain(r3, next, segs[1..]);
        OnlyGainsTrans(r.tree, r3.tree, r'.tree, base);
        assert next in r3.tree;
        assert (done + segs)[..|done'|] == done';
      }
    }
  }

  /** After success every ancestor below the section exists, and nothing that was there changed. */
  lemma {:induction false} EnsureChainExists(r: Remote, dir: string)
    requires Norm(dir)
    ensures var (res, r') := EnsureChain(r, dir);
      OnlyGains(r.tree, r'.tree, dir) &&
      (res.Ok? ==> forall p :: Norm(p) && Under(p, dir) && |Segs(p)| > 1 ==> p in r'.tree)
  {
    var segs := Segs(dir);
    var (res, r') := EnsureChain(r, dir);
    if |segs| > 1 {
      var done := [segs[0]];
      PrintOne(segs[0]);
      assert done + segs[1..] == segs;
      ExtendChainExists(r, done, segs[1..], dir);
      if res.Ok? {
        forall p | Norm(p) && Under(p, dir) && |Segs(p)| > 1
          ensures p in r'.tree
        {
          UnderIsDescent(p, dir);
          assert segs[..|Segs(p)|] == Segs(p);
        }
      }
    } else {
      forall p | Norm(p) && Under(p, dir) && |Segs(p)| > 1
        ensures false
      {
        UnderIsDescent(p, dir);
      }
    }
  }
}
