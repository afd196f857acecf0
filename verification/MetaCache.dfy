/** The stat and listing caches and the bridge calls that read through, write through and
    invalidate them. With this program as the only writer the caches stay coherent with Drive. */
module MetaCache {
  import opened Paths
  import opened Relocation
  import opened Drive
  import opened PinStore

  datatype Meta = Meta(stats: map<string, NodeEntry>, listings: map<string, seq<Item>>)

  // ---- The tables -------------------------------------------------------------------

  function StoreStat(m: Meta, path: string, entry: NodeEntry): Meta {
    m.(stats := m.stats[path := entry])
  }

  /** One `store_stat` per listed child, in order. */
  function StoreItems(stats: map<string, NodeEntry>, parent: string, items: seq<Item>): map<string, NodeEntry>
    decreases |items|
  {
    if items == [] then stats
    else StoreItems(stats[Child(parent, items[0].name) := items[0].entry], parent, items[1..])
  }

  function StoreListing(m: Meta, parent: string, items: seq<Item>): Meta {
    Meta(StoreItems(m.stats, parent, items), m.listings[parent := items])
  }

  function InvalidateStat(m: Meta, path: string): Meta {
    m.(stats := m.stats - {path})
  }

  function InvalidateListing(m: Meta, parent: string): Meta {
    m.(listings := m.listings - {parent})
  }

  function InvalidateTree(m: Meta, path: string): Meta {
    Meta(map p | p in m.stats && !Matches(path, p) :: m.stats[p],
         map p | p in m.listings && !Matches(path, p) :: m.listings[p])
  }

  /** The listing of the folder `path` is in, if its text names one. */
  function InvalidateParent(m: Meta, path: string): Meta {
    if '/' in path then InvalidateListing(m, SplitParentAndName(path).0) else m
  }

  // ---- The bridge calls -------------------------------------------------------------

  function ListDir(m: Meta, r: Remote, path: string, reply: seq<Item>): (Meta, Remote, Result<seq<Item>>) {
    if path == "/" then
      var (res, r1) := ListFolder(r, path, reply);
      (m, r1, res)
    else if path in m.listings then (m, r, Ok(m.listings[path]))
    else
      var (res, r1) := ListFolder(r, path, reply);
      (if res.Ok? then StoreListing(m, path, res.value) else m, r1, res)
  }

  function StatPath(m: Meta, r: Remote, path: string): (Meta, Remote, Result<NodeEntry>) {
    if path in m.stats then (m, r, Ok(m.stats[path]))
    else
      var (res, r1) := Stat(r, path);
      (if res.Ok? then StoreStat(m, path, res.value) else m, r1, res)
  }

  function MakeDir(m: Meta, r: Remote, parent: string, name: string): (Meta, Remote, Result<NodeEntry>) {
    var (res, r1) := MakeFolder(r, parent, name);
    (if res.Ok? then StoreStat(InvalidateListing(m, parent), Child(parent, name), res.value) else m, r1, res)
  }

  /** `poll_transfer` once the upload of `put()` is done. */
  function FinishUpload(m: Meta, r: Remote, local: string, bytes: Bytes, parent: string): (Meta, Remote, Result<Unit>) {
    var (res, r1) := UploadFile(r, local, bytes, parent);
    (if res.Ok? then InvalidateListing(m, parent) else m, r1, res)
  }

  function TrashNode(m: Meta, r: Remote, path: string): (Meta, Remote, Result<Unit>) {
    var (res, r1) := TrashPath(r, path);
    (if res.Ok? then InvalidateParent(InvalidateTree(m, path), path) else m, r1, res)
  }

  function RenameNode(m: Meta, r: Remote, source: string, target: string): (Meta, Remote, Result<Unit>) {
    var (res, r1) := RenameOrMove(r, source, target);
    var m1 := InvalidateTree(InvalidateTree(m, source), target);
    (if res.Ok? then InvalidateParent(InvalidateParent(m1, source), target) else m, r1, res)
  }

  function CopyNode(m: Meta, r: Remote, source: string, target: string): (Meta, Remote, Result<Unit>) {
    if '/' !in target then (m, r, Err(NotFound))
    else
      var (parent, name) := SplitParentAndName(target);
      var (res, r1) := CopyPath(r, source, parent, name);
      (if res.Ok? then InvalidateListing(InvalidateStat(m, target), parent) else m, r1, res)
  }

  /** The live checks that store what they find: the daemon's and `lookup_cached`'s. */
  function RecheckStat(m: Meta, r: Remote, path: string): (Meta, Remote) {
    var (res, r1) := Stat(r, path);
    (if res.Ok? then StoreStat(m, path, res.value) else if res.error == NotFound then InvalidateStat(m, path)
      else m, r1)
  }

  function RecheckListing(m: Meta, r: Remote, path: string, reply: seq<Item>): (Meta, Remote) {
    var (res, r1) := ListFolder(r, path, reply);
    (if res.Ok? then StoreListing(m, path, res.value) else if res.error == NotFound then InvalidateListing(m, path)
      else m, r1)
  }

  // ---- Listings ---------------------------------------------------------------------

  /** Two listings of one folder have the same items, each once. */
  lemma {:induction false} ListingsAgree(tree: Tree, p: string, a: seq<Item>, b: seq<Item>)
    requires IsDir(p) && Lists(tree, p, a) && Lists(tree, p, b)
    ensures forall item :: item in a <==> item in b
  {
    forall i | 0 <= i < |a| ensures a[i] in b { ListedIn(tree, p, a, b, i); }
    forall i | 0 <= i < |b| ensures b[i] in a { ListedIn(tree, p, b, a, i); }
  }

  lemma {:induction false} ListedIn(tree: Tree, p: string, a: seq<Item>, b: seq<Item>, i: nat)
    requires IsDir(p) && Lists(tree, p, a) && Lists(tree, p, b) && i < |a|
    ensures a[i] in b
  {
    assert LiveItem(tree, p, a[i]);
    ParentOfChild(p, a[i].name);
    var k := Child(p, a[i].name);
    var j :| 0 <= j < |b| && b[j].name == BaseName(k);
    assert LiveItem(tree, p, b[j]);
    assert a[i] == b[j];
  }

  predicate SameEntry(tree: Tree, tree': Tree, k: string) {
    (k in tree <==> k in tree') && (k in tree && k in tree' ==> tree[k].entry == tree'[k].entry)
  }

  /** A listing depends only on the folder's children. */
  lemma {:induction false} ListsFrame(tree: Tree, tree': Tree, p: string, items: seq<Item>)
    requires IsDir(p) && Lists(tree, p, items)
    requires forall k :: RemoteParent(k) == p && Norm(k) ==> SameEntry(tree, tree', k)
    requires WellFormed(tree')
    ensures Lists(tree', p, items)
  {
    forall i | 0 <= i < |items|
      ensures LiveItem(tree', p, items[i])
    {
      assert LiveItem(tree, p, items[i]);
      ParentOfChild(p, items[i].name);
    }
  }

  predicate LiveStat(stats: map<string, NodeEntry>, tree: Tree, k: string) {
    k in stats && k in tree && stats[k] == tree[k].entry
  }

  /** After storing a listing, its children's stats are live and the others are as they were. */
  lemma {:induction false} StoredItems(stats: map<string, NodeEntry>, tree: Tree, p: string, items: seq<Item>)
    requires forall i :: 0 <= i < |items| ==> LiveItem(tree, p, items[i])
    ensures var stats' := StoreItems(stats, p, items);
      && (forall k :: k in stats ==> k in stats')
      && (forall k :: k in stats' ==>
            (k in stats && stats'[k] == stats[k]) || (k in tree && stats'[k] == tree[k].entry))
      && (forall i :: 0 <= i < |items| ==> LiveStat(stats', tree, Child(p, items[i].name)))
    decreases |items|
  {
    if items != [] {
      var stats1 := stats[Child(p, items[0].name) := items[0].entry];
      assert LiveItem(tree, p, items[0]);
      StoredItems(stats1, tree, p, items[1..]);
      var stats' := StoreItems(stats, p, items);
      forall i | 0 <= i < |items|
        ensures LiveStat(stats', tree, Child(p, items[i].name))
      {
        if i > 0 { assert items[1..][i - 1] == items[i]; }
      }
    }
  }

  predicate SameStat(m: Meta, m': Meta, p: string) {
    (p in m'.stats <==> p in m.stats) && (p in m.stats && p in m'.stats ==> m'.stats[p] == m.stats[p])
  }

  predicate SameListing(m: Meta, m': Meta, p: string) {
    (p in m'.listings <==> p in m.listings) &&
    (p in m.listings && p in m'.listings ==> m'.listings[p] == m.listings[p])
  }

  lemma {:induction false} StoredExactly(stats: map<string, NodeEntry>, tree: Tree, parent: string, items: seq<Item>)
    requires forall i :: 0 <= i < |items| ==> LiveItem(tree, parent, items[i])
    ensures var stats' := StoreItems(stats, parent, items);
      forall p :: if p in ChildrenOf(items, parent) then LiveStat(stats', tree, p)
                  else (p in stats' <==> p in stats) && (p in stats ==> stats'[p] == stats[p])
    decreases |items|
  {
    if items != [] {
      assert LiveItem(tree, parent, items[0]);
      var first, rest := Child(parent, items[0].name), items[1..];
      StoredExactly(stats[first := items[0].entry], tree, parent, rest);
      forall p
        ensures p in ChildrenOf(items, parent) <==> p == first || p in ChildrenOf(rest, parent)
      {
        if p in ChildrenOf(items, parent) {
          var i :| 0 <= i < |items| && p == Child(parent, items[i].name);
          if i > 0 { assert rest[i - 1] == items[i]; }
        }
        if p in ChildrenOf(rest, parent) {
          var i :| 0 <= i < |rest| && p == Child(parent, rest[i].name);
          assert items[i + 1] == rest[i];
        }
      }
    }
  }

  // ---- Coherence --------------------------------------------------------------------

  /** `uploaded` remembers the files uploaded since their stat was last taken from Drive. */
  datatype Sys = Sys(m: Meta, r: Remote, uploaded: set<string>)

  datatype Event =
    | Browses(path: string, reply: seq<Item>)
    | Stats(path: string)
    | MakesDir(parent: string, name: string)
    | Uploads(local: string, bytes: Bytes, parent: string)
    | Trashes(path: string)
    | Renames(source: string, target: string)
    | Copies(source: string, target: string)
    | RechecksStat(path: string)
    | RechecksListing(path: string, reply: seq<Item>)

  /** Nothing is cached in the tree at `source`, and no listing of its parent or of `target`'s. */
  predicate NothingCachedAround(m: Meta, source: string, target: string) {
    && (forall p :: p in m.stats ==> !Under(source, p))
    && (forall p :: p in m.listings ==> !Under(source, p))
    && RemoteParent(source) !in m.listings && RemoteParent(target) !in m.listings
  }

  /** Paths are normal, Drive lists what it has, and a rename that failed half-way met nothing cached. */
  predicate Fair(y: Sys, e: Event) {
    match e
    case Browses(path, reply) => IsDir(path) && (FolderAt(y.r.tree, path) ==> Lists(y.r.tree, path, reply))
    case Stats(path) => true
    case MakesDir(parent, _) => IsDir(parent)
    case Uploads(local, _, parent) => IsDir(parent) && ValidName(BaseName(local))
    case Trashes(path) => Norm(path)
    case Renames(source, target) =>
      && Norm(source) && Norm(target)
      && (RenameOrMove(y.r, source, target).0.Err? && RenameOrMove(y.r, source, target).1.tree != y.r.tree ==>
            NothingCachedAround(y.m, source, target))
    case Copies(source, target) => Norm(source) && Norm(target)
    case RechecksStat(path) => true
    case RechecksListing(path, reply) => Norm(path) && (FolderAt(y.r.tree, path) ==> Lists(y.r.tree, path, reply))
  }

  function ChildrenOf(items: seq<Item>, parent: string): set<string> {
    set i | 0 <= i < |items| :: Child(parent, items[i].name)
  }

  function Below(paths: set<string>, root: string): set<string> {
    set p | p in paths && Under(root, p)
  }

  function ListStep(y: Sys, path: string, reply: seq<Item>): Sys {
    var (m, r, res) := ListDir(y.m, y.r, path, reply);
    Sys(m, r, if m == y.m then y.uploaded else y.uploaded - ChildrenOf(reply, path))
  }

  function StatStep(y: Sys, path: string): Sys {
    var (m, r, _) := StatPath(y.m, y.r, path);
    Sys(m, r, if m == y.m then y.uploaded else y.uploaded - {path})
  }

  function MakeDirStep(y: Sys, parent: string, name: string): Sys {
    var (m, r, res) := MakeDir(y.m, y.r, parent, name);
    Sys(m, r, if res.Ok? then y.uploaded - {Child(parent, name)} else y.uploaded)
  }

  function UploadStep(y: Sys, local: string, bytes: Bytes, parent: string): Sys {
    var (m, r, res) := FinishUpload(y.m, y.r, local, bytes, parent);
    Sys(m, r, if res.Ok? then y.uploaded + {Child(parent, BaseName(local))} else y.uploaded)
  }

  function TrashStep(y: Sys, path: string): Sys {
    var (m, r, res) := TrashNode(y.m, y.r, path);
    Sys(m, r, if res.Ok? then y.uploaded - Below(y.uploaded, path) else y.uploaded)
  }

  function RenameStep(y: Sys, source: string, target: string): Sys {
    var (m, r, res) := RenameNode(y.m, y.r, source, target);
    Sys(m, r, if res.Ok? then y.uploaded - Below(y.uploaded, source) - Below(y.uploaded, target) else y.uploaded)
  }

  function CopyStep(y: Sys, source: string, target: string): Sys {
    var (m, r, _) := CopyNode(y.m, y.r, source, target);
    Sys(m, r, y.uploaded)
  }

  function RecheckStatStep(y: Sys, path: string): Sys {
    var (m, r) := RecheckStat(y.m, y.r, path);
    Sys(m, r, if Stat(y.r, path).0.Ok? then y.uploaded - {path} else y.uploaded)
  }

  function RecheckListingStep(y: Sys, path: string, reply: seq<Item>): Sys {
    var (m, r) := RecheckListing(y.m, y.r, path, reply);
    Sys(m, r, if ListFolder(y.r, path, reply).0.Ok? then y.uploaded - ChildrenOf(reply, path) else y.uploaded)
  }

  function Next(y: Sys, e: Event): Sys {
    match e
    case Browses(path, reply) => ListStep(y, path, reply)
    case Stats(path) => StatStep(y, path)
    case MakesDir(parent, name) => MakeDirStep(y, parent, name)
    case Uploads(local, bytes, parent) => UploadStep(y, local, bytes, parent)
    case Trashes(path) => TrashStep(y, path)
    case Renames(source, target) => RenameStep(y, source, target)
    case Copies(source, target) => CopyStep(y, source, target)
    case RechecksStat(path) => RecheckStatStep(y, path)
    case RechecksListing(path, reply) => RecheckListingStep(y, path, reply)
  }

  predicate StatsLive(stats: map<string, NodeEntry>, tree: Tree, uploaded: set<string>) {
    forall p :: p in stats ==> p in tree && (p !in uploaded ==> stats[p] == tree[p].entry)
  }

  predicate ListingsLive(listings: map<string, seq<Item>>, tree: Tree) {
    forall p :: p in listings ==> Norm(p) && FolderAt(tree, p) && Lists(tree, p, listings[p])
  }

  predicate Coherent(y: Sys) {
    WellFormed(y.r.tree) && StatsLive(y.m.stats, y.r.tree, y.uploaded) && ListingsLive(y.m.listings, y.r.tree)
  }

  lemma {:induction false} ListingStored(y: Sys, p: string, items: seq<Item>)
    requires Coherent(y) && Norm(p) && FolderAt(y.r.tree, p) && Lists(y.r.tree, p, items)
    ensures StatsLive(StoreItems(y.m.stats, p, items), y.r.tree, y.uploaded - ChildrenOf(items, p))
    ensures ListingsLive(y.m.listings[p := items], y.r.tree)
  {
    StoredItems(y.m.stats, y.r.tree, p, items);
    var stats' := StoreItems(y.m.stats, p, items);
    forall k | k in stats' && k !in y.uploaded - ChildrenOf(items, p)
      ensures stats'[k] == y.r.tree[k].entry
    {
      if k in ChildrenOf(items, p) {
        var i :| 0 <= i < |items| && k == Child(p, items[i].name);
      }
    }
  }

  lemma {:induction false} ListsKeeps(y: Sys, path: string, reply: seq<Item>)
    requires Coherent(y) && IsDir(path) && (FolderAt(y.r.tree, path) ==> Lists(y.r.tree, path, reply))
    ensures Coherent(ListStep(y, path, reply))
    ensures path != "/" ==> Coherent(RecheckListingStep(y, path, reply))
  {
    if path != "/" && ListFolder(y.r, path, reply).0.Ok? {
      ListingStored(y, path, reply);
    }
  }

  lemma {:induction false} StatsKeeps(y: Sys, path: string)
    requires Coherent(y)
    ensures Coherent(StatStep(y, path))
  {
    StatStored(y.m.stats, y.r.tree, y.uploaded, path);
    StatAlone(y.r, path);
  }

  lemma {:induction false} RecheckStatKeeps(y: Sys, path: string)
    requires Coherent(y)
    ensures Coherent(RecheckStatStep(y, path))
  {
    StatStored(y.m.stats, y.r.tree, y.uploaded, path);
    StatAlone(y.r, path);
  }

  lemma {:induction false} StatStored(stats: map<string, NodeEntry>, tree: Tree, uploaded: set<string>, path: string)
    requires StatsLive(stats, tree, uploaded)
    ensures path in tree ==> StatsLive(stats[path := tree[path].entry], tree, uploaded - {path})
    ensures StatsLive(stats - {path}, tree, uploaded)
  {
  }

  lemma {:induction false} StatAlone(r: Remote, path: string)
    ensures Stat(r, path).1.tree == r.tree
    ensures Stat(r, path).0.Ok? ==> path in r.tree && Stat(r, path).0.value == r.tree[path].entry
  {
  }

  lemma {:induction false} MakesDirKeeps(y: Sys, parent: string, name: string)
    requires Coherent(y) && IsDir(parent)
    ensures Coherent(MakeDirStep(y, parent, name))
  {
    var (res, r1) := MakeFolder(y.r, parent, name);
    if res.Ok? {
      ParentOfChild(parent, name);
      NewNodeKeeps(y, r1.tree, Child(parent, name), parent);
    }
  }

  /** A node written below `parent` only concerns `parent`'s own listing. */
  lemma {:induction false} NewNodeKeeps(y: Sys, tree': Tree, c: string, parent: string)
    requires Coherent(y) && Norm(c) && RemoteParent(c) == parent && FolderAt(y.r.tree, parent)
    requires c in tree' && tree' == y.r.tree[c := tree'[c]] && (c in y.r.tree ==> !y.r.tree[c].entry.isFolder)
    ensures WellFormed(tree')
    ensures StatsLive(y.m.stats, tree', y.uploaded + {c})
    ensures ListingsLive(y.m.listings - {parent}, tree')
  {
    forall p | p in y.m.listings - {parent}
      ensures FolderAt(tree', p) && Lists(tree', p, y.m.listings[p])
    {
      ListsFrame(y.r.tree, tree', p, y.m.listings[p]);
    }
  }

  lemma {:induction false} UploadsKeeps(y: Sys, local: string, bytes: Bytes, parent: string)
    requires Coherent(y) && IsDir(parent) && ValidName(BaseName(local))
    ensures Coherent(UploadStep(y, local, bytes, parent))
  {
    var (res, r1) := UploadFile(y.r, local, bytes, parent);
    if res.Ok? {
      ParentOfChild(parent, BaseName(local));
      NewNodeKeeps(y, r1.tree, Child(parent, BaseName(local)), parent);
    }
  }

  /** A listing outside a tree and other than its parent's has no child in that tree. */
  lemma {:induction false} ChildOutside(root: string, p: string, k: string)
    requires Norm(root) && Norm(k) && RemoteParent(k) == p && !Under(root, p) && RemoteParent(root) != p
    ensures !Under(root, k)
  {
    if Under(root, k) { ParentUnder(root, k); }
  }

  /** The two trees have the same nodes outside `a` and `b`. */
  ghost predicate SameOutside(tree: Tree, tree': Tree, a: string, b: string) {
    forall k :: !Under(a, k) && !Under(b, k) ==> (k in tree' <==> k in tree) && (k in tree' ==> tree'[k] == tree[k])
  }

  /** So a listing stays right when neither the folder nor a child of it is in `a` or `b`. */
  lemma {:induction false} UntouchedListing(tree: Tree, tree': Tree, a: string, b: string, p: string, items: seq<Item>)
    requires WellFormed(tree') && Norm(a) && Norm(b) && Norm(p) && FolderAt(tree, p) && Lists(tree, p, items)
    requires !Under(a, p) && RemoteParent(a) != p && !Under(b, p) && RemoteParent(b) != p
    requires SameOutside(tree, tree', a, b)
    ensures FolderAt(tree', p) && Lists(tree', p, items)
  {
    forall k | RemoteParent(k) == p && Norm(k)
      ensures !Under(a, k) && !Under(b, k)
    {
      ChildOutside(a, p, k);
      ChildOutside(b, p, k);
    }
    ListsFrame(tree, tree', p, items);
  }

  lemma {:induction false} UntouchedListings(tree: Tree, tree': Tree, a: string, b: string,
                                             before: map<string, seq<Item>>, after: map<string, seq<Item>>)
    requires WellFormed(tree') && Norm(a) && Norm(b) && SameOutside(tree, tree', a, b) && ListingsLive(before, tree)
    requires forall p :: p in after ==> p in before && after[p] == before[p] && !Under(a, p) && !Under(b, p)
    requires RemoteParent(a) !in after && RemoteParent(b) !in after
    ensures ListingsLive(after, tree')
  {
    forall p | p in after
      ensures Norm(p) && FolderAt(tree', p) && Lists(tree', p, after[p])
    {
      UntouchedListing(tree, tree', a, b, p, after[p]);
    }
  }

  lemma {:induction false} TrashedListings(y: Sys, path: string, listings: map<string, seq<Item>>)
    requires Coherent(y) && Norm(path)
    requires forall p :: p in listings ==> p in y.m.listings && listings[p] == y.m.listings[p] && !Under(path, p)
    requires RemoteParent(path) !in listings
    ensures WellFormed(y.r.tree - Subtree(y.r.tree, path))
    ensures ListingsLive(listings, y.r.tree - Subtree(y.r.tree, path))
  {
    TrashKeepsWellFormed(y.r.tree, path);
    UntouchedListings(y.r.tree, y.r.tree - Subtree(y.r.tree, path), path, path, y.m.listings, listings);
  }

  lemma {:induction false} TrashesKeeps(y: Sys, path: string)
    requires Coherent(y) && Norm(path)
    ensures Coherent(TrashStep(y, path))
  {
    NormPlain(path);
    ChildOfParent(path);
    TrashedListings(y, path, InvalidateListing(InvalidateTree(y.m, path), RemoteParent(path)).listings);
  }

  lemma {:induction false} RenamedListings(y: Sys, tree': Tree, source: string, target: string,
                                           listings: map<string, seq<Item>>)
    requires Coherent(y) && Norm(source) && Norm(target)
    requires WellFormed(tree') && tree' == Relocate(y.r.tree, source, target)
    requires forall p :: p in listings ==> p in y.m.listings && listings[p] == y.m.listings[p]
    requires forall p :: p in listings ==> !Under(source, p) && !Under(target, p)
    requires RemoteParent(source) !in listings && RemoteParent(target) !in listings
    ensures ListingsLive(listings, tree')
  {
    UntouchedListings(y.r.tree, tree', source, target, y.m.listings, listings);
  }

  /** What the bridge forgets after a rename. */
  function Forget(m: Meta, source: string, target: string): Meta {
    InvalidateListing(InvalidateListing(InvalidateTree(InvalidateTree(m, source), target), RemoteParent(source)),
      RemoteParent(target))
  }

  lemma {:induction false} Forgotten(m: Meta, source: string, target: string)
    requires Norm(source) && Norm(target)
    ensures var m' := Forget(m, source, target);
      && (forall p :: p in m'.listings ==>
            p in m.listings && m'.listings[p] == m.listings[p] && !Under(source, p) && !Under(target, p))
      && RemoteParent(source) !in m'.listings && RemoteParent(target) !in m'.listings
      && (forall p :: p in m'.stats ==>
            p in m.stats && m'.stats[p] == m.stats[p] && !Under(source, p) && !Under(target, p))
  {
    NormPlain(source);
    NormPlain(target);
  }

  lemma {:induction false} RenamesOutcome(y: Sys, source: string, target: string)
    requires WellFormed(y.r.tree) && Norm(source) && Norm(target) && RenameOrMove(y.r, source, target).0.Ok?
    ensures var y' := RenameStep(y, source, target);
      && y'.r.tree == Relocate(y.r.tree, source, target) && WellFormed(y'.r.tree)
      && y'.m == Forget(y.m, source, target)
      && y'.uploaded == y.uploaded - Below(y.uploaded, source) - Below(y.uploaded, target)
  {
    ChildOfParent(source);
    ChildOfParent(target);
    RenameOrMoveRelocates(y.r, source, target);
    RenameOrMoveKeepsWellFormed(y.r, source, target);
  }

  lemma {:induction false} RenamesKeeps(y: Sys, source: string, target: string)
    requires Coherent(y) && Norm(source) && Norm(target)
    requires RenameOrMove(y.r, source, target).0.Err? && RenameOrMove(y.r, source, target).1.tree != y.r.tree ==>
               NothingCachedAround(y.m, source, target)
    ensures Coherent(RenameStep(y, source, target))
  {
    var (res, r1) := RenameOrMove(y.r, source, target);
    if res.Ok? {
      RenamesOutcome(y, source, target);
      RenameCoherent(y, RenameStep(y, source, target), source, target);
    } else if r1.tree != y.r.tree {
      HalfWayCoherentIff(y, source, target);
    }
  }

  lemma {:induction false} HalfWayOutcome(y: Sys, source: string, target: string)
    requires Coherent(y) && Norm(source) && Norm(target)
    requires RenameOrMove(y.r, source, target).0.Err? && RenameOrMove(y.r, source, target).1.tree != y.r.tree
    ensures var mid := HalfWay(source, target);
      && RenameStep(y, source, target).m == y.m && RenameStep(y, source, target).uploaded == y.uploaded
      && RenameStep(y, source, target).r.tree == Relocate(y.r.tree, source, mid)
      && Norm(mid) && RemoteParent(mid) == RemoteParent(target) && mid !in y.r.tree && source in y.r.tree
      && WellFormed(Relocate(y.r.tree, source, mid)) && !Under(mid, source)
  {
    FailedRenameOrMove(y.r, source, target);
    HalfWayFacts(source, target);
    HalfWayKeepsWellFormed(y.r, source, target);
    AbsentNotAbove(y.r.tree, HalfWay(source, target), source);
  }

  /** What was cached at or under the source is wrong now. */
  lemma {:induction false} GoneFromSource(tree: Tree, source: string, mid: string, p: string)
    requires WellFormed(tree) && Norm(source) && Norm(mid) && mid !in tree && source in tree && Under(source, p) &&
             p in tree
    ensures p !in Relocate(tree, source, mid)
  {
    NothingBelowAbsent(tree, mid);
    assert Under(mid, p) ==> p in Subtree(tree, mid);
  }

  /** A listing of the old or the new parent lacks a child or has one too many. */
  lemma {:induction false} ParentListingsWrong(tree: Tree, source: string, mid: string, items: seq<Item>)
    requires WellFormed(tree) && Norm(source) && Norm(mid) && mid !in tree && source in tree && !Under(mid, source)
    ensures Lists(tree, RemoteParent(source), items) ==>
              !Lists(Relocate(tree, source, mid), RemoteParent(source), items)
    ensures Lists(tree, RemoteParent(mid), items) ==> !Lists(Relocate(tree, source, mid), RemoteParent(mid), items)
  {
    var tree' := Relocate(tree, source, mid);
    ChildOfParent(source);
    ChildOfParent(mid);
    assert Rekey(mid, source, mid) == source;
    assert mid in tree' && source in Subtree(tree, source);
    if Lists(tree, RemoteParent(source), items) {
      var i :| 0 <= i < |items| && items[i].name == BaseName(source);
      assert LiveItem(tree, RemoteParent(source), items[i]);
    }
    if Lists(tree, RemoteParent(mid), items) {
      forall i | 0 <= i < |items|
        ensures items[i].name != BaseName(mid)
      {
        assert LiveItem(tree, RemoteParent(mid), items[i]);
      }
    }
  }

  /** After a rename that failed half-way, which the caches are not told of, they are coherent exactly when
      nothing was cached at or under the source and neither parent's listing was. */
  lemma {:induction false} HalfWayCoherentIff(y: Sys, source: string, target: string)
    requires Coherent(y) && Norm(source) && Norm(target)
    requires RenameOrMove(y.r, source, target).0.Err? && RenameOrMove(y.r, source, target).1.tree != y.r.tree
    ensures Coherent(RenameStep(y, source, target)) <==> NothingCachedAround(y.m, source, target)
  {
    HalfWayOutcome(y, source, target);
    if NothingCachedAround(y.m, source, target) {
      HalfWayStaysCoherent(y, source, target);
    } else {
      HalfWayBreaks(y, source, target);
    }
  }

  lemma {:induction false} HalfWayStaysCoherent(y: Sys, source: string, target: string)
    requires Coherent(y) && Norm(source) && Norm(target)
    requires RenameOrMove(y.r, source, target).0.Err? && RenameOrMove(y.r, source, target).1.tree != y.r.tree
    requires NothingCachedAround(y.m, source, target)
    ensures Coherent(RenameStep(y, source, target))
  {
    HalfWayOutcome(y, source, target);
    var mid := HalfWay(source, target);
    var tree' := Relocate(y.r.tree, source, mid);
    NothingBelowAbsent(y.r.tree, mid);
    forall p | p in y.r.tree
      ensures !Under(mid, p)
    {
      assert p !in Subtree(y.r.tree, mid);
    }
    forall p | p in y.m.listings
      ensures !Under(mid, p)
    {
      NormNotRoot(p);
    }
    UntouchedListings(y.r.tree, tree', source, mid, y.m.listings, y.m.listings);
  }

  lemma {:induction false} HalfWayBreaks(y: Sys, source: string, target: string)
    requires Coherent(y) && Norm(source) && Norm(target)
    requires RenameOrMove(y.r, source, target).0.Err? && RenameOrMove(y.r, source, target).1.tree != y.r.tree
    requires !NothingCachedAround(y.m, source, target)
    ensures !Coherent(RenameStep(y, source, target))
  {
    HalfWayOutcome(y, source, target);
    var mid := HalfWay(source, target);
    if p :| p in y.m.stats && Under(source, p) {
      GoneFromSource(y.r.tree, source, mid, p);
    } else if p :| p in y.m.listings && Under(source, p) {
      NormNotRoot(p);
      GoneFromSource(y.r.tree, source, mid, p);
    } else {
      var p := if RemoteParent(source) in y.m.listings then RemoteParent(source) else RemoteParent(mid);
      ParentListingsWrong(y.r.tree, source, mid, y.m.listings[p]);
    }
  }

  lemma {:induction false} RenameCoherent(y: Sys, y': Sys, source: string, target: string)
    requires Coherent(y) && Norm(source) && Norm(target)
    requires WellFormed(y'.r.tree) && y'.r.tree == Relocate(y.r.tree, source, target)
    requires y'.m == Forget(y.m, source, target)
    requires y'.uploaded == y.uploaded - Below(y.uploaded, source) - Below(y.uploaded, target)
    ensures Coherent(y')
  {
    Forgotten(y.m, source, target);
    RenamedListings(y, y'.r.tree, source, target, y'.m.listings);
    RenamedStats(y, y'.r.tree, y'.m.stats, source, target);
  }

  lemma {:induction false} RenamedStats(y: Sys, tree': Tree, stats: map<string, NodeEntry>, source: string,
                                        target: string)
    requires StatsLive(y.m.stats, y.r.tree, y.uploaded) && tree' == Relocate(y.r.tree, source, target)
    requires forall p :: p in stats ==>
               p in y.m.stats && stats[p] == y.m.stats[p] && !Under(source, p) && !Under(target, p)
    ensures StatsLive(stats, tree', y.uploaded - Below(y.uploaded, source) - Below(y.uploaded, target))
  {
  }

  lemma {:induction false} CopiedTree(tree: Tree, source: string, target: string)
    requires WellFormed(tree) && Norm(target) && target !in tree
    ensures SameOutside(tree, tree + Relocate(tree, source, target), target, target)
    ensures forall p :: p in tree ==> !Under(target, p)
  {
    NothingBelowAbsent(tree, target);
    forall p | p in tree
      ensures !Under(target, p)
    {
      assert p !in Subtree(tree, target);
    }
  }

  lemma {:induction false} CopiedListings(y: Sys, tree': Tree, source: string, target: string,
                                          listings: map<string, seq<Item>>)
    requires Coherent(y) && Norm(source) && Norm(target) && target !in y.r.tree
    requires WellFormed(tree') && tree' == y.r.tree + Relocate(y.r.tree, source, target)
    requires forall p :: p in listings ==>
               p in y.m.listings && listings[p] == y.m.listings[p] && p != RemoteParent(target)
    ensures ListingsLive(listings, tree')
    ensures forall p :: p in y.r.tree ==> p in tree' && tree'[p] == y.r.tree[p]
  {
    CopiedTree(y.r.tree, source, target);
    forall p | p in listings
      ensures !Under(target, p)
    {
      NormNotRoot(p);
    }
    UntouchedListings(y.r.tree, tree', target, target, y.m.listings, listings);
  }

  lemma {:induction false} CopiesKeeps(y: Sys, source: string, target: string)
    requires Coherent(y) && Norm(source) && Norm(target)
    ensures Coherent(CopyStep(y, source, target))
  {
    ChildOfParent(target);
    var (res, r1) := CopyPath(y.r, source, RemoteParent(target), BaseName(target));
    if res.Ok? {
      CopyKeepsWellFormed(y.r.tree, source, target);
      CopiedListings(y, r1.tree, source, target, InvalidateListing(y.m, RemoteParent(target)).listings);
    }
  }

  lemma {:induction false} NextCoherent(y: Sys, e: Event)
    requires Coherent(y) && Fair(y, e)
    ensures Coherent(Next(y, e))
  {
    match e
    case Browses(path, reply) => ListsKeeps(y, path, reply);
    case Stats(path) => StatsKeeps(y, path);
    case MakesDir(parent, name) => MakesDirKeeps(y, parent, name);
    case Uploads(local, bytes, parent) => UploadsKeeps(y, local, bytes, parent);
    case Trashes(path) => TrashesKeeps(y, path);
    case Renames(source, target) => RenamesKeeps(y, source, target);
    case Copies(source, target) => CopiesKeeps(y, source, target);
    case RechecksStat(path) => RecheckStatKeeps(y, path);
    case RechecksListing(path, reply) => NormNotRoot(path); ListsKeeps(y, path, reply);
  }

  lemma {:induction false} NormNotRoot(path: string)
    requires Norm(path)
    ensures path != "/"
  {
    var init, name := NormShape(path);
  }

  predicate FairRun(y: Sys, events: seq<Event>)
    decreases |events|
  {
    events == [] || (Fair(y, events[0]) && FairRun(Next(y, events[0]), events[1..]))
  }

  function End(y: Sys, events: seq<Event>): Sys
    decreases |events|
  {
    if events == [] then y else End(Next(y, events[0]), events[1..])
  }

  lemma {:induction false} CoherentAlways(y: Sys, events: seq<Event>)
    requires Coherent(y) && FairRun(y, events)
    ensures Coherent(End(y, events))
    decreases |events|
  {
    if events != [] {
      NextCoherent(y, events[0]);
      CoherentAlways(Next(y, events[0]), events[1..]);
    }
  }

  /** After any run of the program's own calls, `list_dir` answers with exactly the items of the
      live listing, for every folder. */
  lemma {:induction false} ListDirIsLive(y: Sys, events: seq<Event>, path: string, reply: seq<Item>)
    requires Coherent(y) && FairRun(y, events) && IsDir(path)
    requires FolderAt(End(y, events).r.tree, path) && Lists(End(y, events).r.tree, path, reply)
    ensures var (_, _, res) := ListDir(End(y, events).m, End(y, events).r, path, reply);
      res.Ok? ==> Lists(End(y, events).r.tree, path, res.value) && forall item :: item in res.value <==> item in reply
  {
    CoherentAlways(y, events);
    var (_, _, res) := ListDir(End(y, events).m, End(y, events).r, path, reply);
    if res.Ok? { ListingsAgree(End(y, events).r.tree, path, res.value, reply); }
  }

  /** And `stat_path` answers with Drive's entry, except for a file uploaded since its stat was
      last taken; a path Drive does not have is not answered from the cache. */
  lemma {:induction false} StatPathIsLive(y: Sys, events: seq<Event>, path: string)
    requires Coherent(y) && FairRun(y, events)
    ensures var (_, _, res) := StatPath(End(y, events).m, End(y, events).r, path);
      && (res.Ok? ==> path in End(y, events).r.tree)
      && (res.Ok? && path !in End(y, events).uploaded ==> res.value == End(y, events).r.tree[path].entry)
  {
    CoherentAlways(y, events);
  }

  lemma {:induction false} EmptyIsCoherent(r: Remote)
    requires WellFormed(r.tree)
    ensures Coherent(Sys(Meta(map[], map[]), r, {}))
  {
  }

  lemma {:induction false} FinishedUpload(m: Meta, r: Remote, local: string, bytes: Bytes, parent: string)
    ensures var (m', r', res) := FinishUpload(m, r, local, bytes, parent);
      m'.stats == m.stats &&
      (res.Ok? ==> var c := Child(parent, BaseName(local)); c in r'.tree && r'.tree[c].entry.size == |bytes|)
  {
  }

  lemma {:induction false} CachedStatAnswers(m: Meta, r: Remote, path: string)
    requires path in m.stats
    ensures StatPath(m, r, path).2 == Ok(m.stats[path])
  {
  }

  /** The exception is real: an upload over a file whose stat is cached leaves the old stat in place. */
  lemma {:induction false} UploadLeavesStat(y: Sys, c: string, local: string, bytes: Bytes)
    requires Norm(c) && BaseName(local) == BaseName(c) && c in y.m.stats
    ensures var (m, r, res) := FinishUpload(y.m, y.r, local, bytes, RemoteParent(c));
      res.Ok? ==> StatPath(m, r, c).2 == Ok(y.m.stats[c]) && c in r.tree && r.tree[c].entry.size == |bytes|
  {
    ChildOfParent(c);
    FinishedUpload(y.m, y.r, local, bytes, RemoteParent(c));
    var (m, r, res) := FinishUpload(y.m, y.r, local, bytes, RemoteParent(c));
    CachedStatAnswers(m, r, c);
  }

  /** So the stat answered after an upload is Drive's exactly when none of that path was cached or the cached
      one happens to equal the new entry. */
  lemma {:induction false} UploadStatIff(y: Sys, c: string, local: string, bytes: Bytes)
    requires Norm(c) && BaseName(local) == BaseName(c)
    requires FinishUpload(y.m, y.r, local, bytes, RemoteParent(c)).2.Ok?
    ensures var (m, r, _) := FinishUpload(y.m, y.r, local, bytes, RemoteParent(c));
      c in r.tree &&
      (StatPath(m, r, c).2 == Ok(r.tree[c].entry) <==>
         if c in y.m.stats then y.m.stats[c] == r.tree[c].entry else Stat(r, c).0.Ok?)
  {
    ChildOfParent(c);
    FinishedUpload(y.m, y.r, local, bytes, RemoteParent(c));
    var (m, r, _) := FinishUpload(y.m, y.r, local, bytes, RemoteParent(c));
    if c in y.m.stats { CachedStatAnswers(m, r, c); }
  }

  /** And so is the condition on renames that fail half-way: the cache is not told that the subtree
      moved and goes on answering for the old path. */
  lemma {:induction false} HalfWayRenameStaysCached(y: Sys, source: string, target: string)
    requires Coherent(y) && Norm(source) && Norm(target) && source in y.m.stats
    requires RenameNode(y.m, y.r, source, target).2.Err? && RenameNode(y.m, y.r, source, target).1.tree != y.r.tree
    ensures var (m, r, _) := RenameNode(y.m, y.r, source, target);
      StatPath(m, r, source).2 == Ok(y.m.stats[source]) && source !in r.tree
  {
    FailedRenameOrMove(y.r, source, target);
    HalfWayFacts(source, target);
    AbsentNotAbove(y.r.tree, HalfWay(source, target), source);
    assert source in Subtree(y.r.tree, source);
  }
}
