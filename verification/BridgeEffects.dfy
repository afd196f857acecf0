/** What each bridge call does to Drive and to the caches, in full: which calls it makes, where Drive's nodes
    are afterwards, and exactly which cached entries go, stay or are new. */
module BridgeEffects {
  import opened Paths
  import opened Relocation
  import opened Drive
  import opened Calls
  import opened PinStore
  import opened MetaCache

  // ---- Reading ----------------------------------------------------------------------

  /** `list_dir` asks Drive unless it has the folder's listing. A live answer is kept, so that the next one
      and the children's stats need no call; nothing else changes. */
  lemma {:induction false} ListDirDoes(m: Meta, r: Remote, path: string, reply: seq<Item>, later: seq<Item>)
    requires FolderAt(r.tree, path) ==> Lists(r.tree, path, reply)
    ensures var (m', r', res) := ListDir(m, r, path, reply);
      var cached := path != "/" && path in m.listings;
      && Since(r, r') == (if cached then [] else [List(path)]) && r'.tree == r.tree
      && (cached || path == "/" || res.Err? ==> m' == m)
      && (cached ==> res == Ok(m.listings[path]))
      && (!cached ==> Reports(r, r', Heard(res), []) && (res.Ok? ==> res.value == reply))
      && (path != "/" && res.Ok? ==> ListDir(m', r', path, later) == (m', r', res))
      && (path != "/" && res.Ok? && !cached ==>
            forall p :: if p in ChildrenOf(reply, path) then LiveStat(m'.stats, r.tree, p) else SameStat(m, m', p))
      && (forall p :: p != path ==> SameListing(m, m', p))
  {
    if path == "/" || path !in m.listings {
      var (res, r1) := ListFolder(r, path, reply);
      OneCall(r, List(path), []);
      TalkLogs(r, [List(path)], r1, Heard(res), []);
      if res.Ok? { StoredExactly(m.stats, r.tree, path, reply); }
    }
  }

  /** `stat_path` likewise. */
  lemma {:induction false} StatPathDoes(m: Meta, r: Remote, path: string)
    ensures var (m', r', res) := StatPath(m, r, path);
      && Since(r, r') == (if path in m.stats then [] else [Info(path)]) && r'.tree == r.tree
      && (path in m.stats ==> res == Ok(m.stats[path]))
      && (path !in m.stats ==> res == Stat(r, path).0)
      && (if res.Ok? then StatPath(m', r', path) == (m', r', res) else m' == m)
      && (forall p :: p != path ==> SameStat(m, m', p)) && m'.listings == m.listings
  {
  }

  // ---- Writing ----------------------------------------------------------------------

  /** The call fails with Drive's error, and then nothing has changed. */
  predicate OneCallMade<T>(m: Meta, r: Remote, c: Call, bytes: Bytes, m': Meta, r': Remote, res: Result<T>) {
    && Since(r, r') == [c] && Ask(r, c, bytes) == (Heard(res), r')
    && (res.Err? ==> m' == m && r'.tree == r.tree)
  }

  /** A new folder below `parent`, and its stat; the parent's listing goes. */
  lemma {:induction false} MakeDirDoes(m: Meta, r: Remote, parent: string, name: string)
    ensures var (m', r', res) := MakeDir(m, r, parent, name);
      var c := Child(parent, name);
      && OneCallMade(m, r, CreateFolder(parent, name), [], m', r', res)
      && (res.Ok? ==>
            && c !in r.tree && c in r'.tree && r'.tree == r.tree[c := r'.tree[c]]
            && r'.tree[c].entry == res.value && res.value.isFolder
            && LiveStat(m'.stats, r'.tree, c)
            && (forall p :: p != c ==> SameStat(m, m', p))
            && parent !in m'.listings && (forall p :: p != parent ==> SameListing(m, m', p)))
  {
  }

  /** The file below `parent` holds the uploaded bytes and keeps its identity if it was there; the parent's
      listing goes. */
  lemma {:induction false} FinishUploadDoes(m: Meta, r: Remote, local: string, bytes: Bytes, parent: string)
    ensures var (m', r', res) := FinishUpload(m, r, local, bytes, parent);
      var c := Child(parent, BaseName(local));
      && OneCallMade(m, r, Upload(local, parent), bytes, m', r', res)
      && (res.Ok? ==>
            && c in r'.tree && r'.tree == r.tree[c := r'.tree[c]]
            && r'.tree[c].bytes == bytes && !r'.tree[c].entry.isFolder
            && (c in r.tree ==> !r.tree[c].entry.isFolder && r'.tree[c].entry.uid == r.tree[c].entry.uid)
            && r'.stored == r.stored + [(c, bytes)]
            && m'.stats == m.stats
            && parent !in m'.listings && (forall p :: p != parent ==> SameListing(m, m', p)))
  {
  }

  /** Exactly the tree at `path` goes, on Drive and in the caches, with the listing it was in. */
  lemma {:induction false} TrashNodeDoes(m: Meta, r: Remote, path: string)
    requires Norm(path)
    ensures var (m', r', res) := TrashNode(m, r, path);
      && OneCallMade(m, r, Trash(path), [], m', r', res)
      && (res.Ok? ==>
            && path in r.tree
            && (forall p :: p in r'.tree <==> p in r.tree && !Under(path, p))
            && (forall p :: p in r'.tree ==> r'.tree[p] == r.tree[p])
            && (forall p :: if Under(path, p) then p !in m'.stats else SameStat(m, m', p))
            && (forall p :: if Under(path, p) || p == RemoteParent(path) then p !in m'.listings
                            else SameListing(m, m', p)))
  {
    NormPlain(path);
    ChildOfParent(path);
    SlashInside(path);
  }

  lemma {:induction false} SlashInside(path: string)
    requires Norm(path)
    ensures '/' in path
  {
    var init, name := NormShape(path);
    assert path[|Print(init)|] == '/';
  }

  /** The tree is as it was, but for a copy of what was at and below `source` at and below `target`. */
  predicate CopiedTo(tree: Tree, tree': Tree, source: string, target: string) {
    && (forall p :: p in tree' && Under(target, p) ==>
          Rekey(target, source, p) in tree && tree'[p] == tree[Rekey(target, source, p)])
    && (forall p :: p in tree && Under(source, p) ==> Rekey(source, target, p) in tree')
    && (forall p :: p in tree ==> p in tree' && tree'[p] == tree[p])
    && (forall p :: p in tree' && !Under(target, p) ==> p in tree)
  }

  lemma {:induction false} CopyIsThere(tree: Tree, source: string, target: string)
    requires WellFormed(tree) && Norm(target) && target !in tree
    ensures CopiedTo(tree, tree + Relocate(tree, source, target), source, target)
  {
    var tree' := tree + Relocate(tree, source, target);
    NothingBelowAbsent(tree, target);
    forall p | p in tree
      ensures !Under(target, p)
    {
      assert p !in Subtree(tree, target);
    }
    forall p | p in tree && Under(source, p)
      ensures Rekey(source, target, p) in tree'
    {
      RekeyUnder(source, target, p);
      assert Arrived(Subtree(tree, source), source, target, Rekey(source, target, p));
    }
    forall p | p in tree' && Under(target, p)
      ensures Rekey(target, source, p) in tree && tree'[p] == tree[Rekey(target, source, p)]
    {
      assert p in Relocate(tree, source, target);
    }
  }

  lemma {:induction false} SplitIs(p: string)
    requires Norm(p)
    ensures '/' in p && SplitParentAndName(p) == (RemoteParent(p), BaseName(p)) && ValidName(BaseName(p))
    ensures Child(RemoteParent(p), BaseName(p)) == p
  {
    ChildOfParent(p);
    SlashInside(p);
    var init, name := NormShape(p);
  }

  lemma {:induction false} CopyPathDoes(r: Remote, source: string, target: string)
    requires WellFormed(r.tree) && Norm(target)
    ensures var (res, r') := CopyPath(r, source, RemoteParent(target), BaseName(target));
      && (FaultAt(r.faults, 0).None? ==>
            (res.Ok? <==> source in r.tree && FolderAt(r.tree, RemoteParent(target)) && target !in r.tree))
      && (res.Err? ==> r'.tree == r.tree)
      && (res.Ok? ==> source in r.tree && target !in r.tree && CopiedTo(r.tree, r'.tree, source, target))
  {
    SplitIs(target);
    if CopyPath(r, source, RemoteParent(target), BaseName(target)).0.Ok? {
      CopyIsThere(r.tree, source, target);
    }
  }

  lemma {:induction false} CopyNodeIs(m: Meta, r: Remote, source: string, target: string)
    requires Norm(target)
    ensures var (res, r') := CopyPath(r, source, RemoteParent(target), BaseName(target));
      var m' := if res.Ok? then InvalidateListing(InvalidateStat(m, target), RemoteParent(target)) else m;
      && CopyNode(m, r, source, target) == (m', r', res)
      && (res.Err? ==> r'.tree == r.tree)
      && OneCallMade(m, r, Copy(source, RemoteParent(target), BaseName(target)), [], m', r', res)
  {
    SplitIs(target);
  }

  /** A copy puts what is at `source` at `target`, which was free, under the target's own name; the stat and the
      listing there go. */
  lemma {:induction false} CopyNodeDoes(m: Meta, r: Remote, source: string, target: string)
    requires WellFormed(r.tree) && Norm(source) && Norm(target)
    ensures var (m', r', res) := CopyNode(m, r, source, target);
      && OneCallMade(m, r, Copy(source, RemoteParent(target), BaseName(target)), [], m', r', res)
      && (FaultAt(r.faults, 0).None? ==>
            (res.Ok? <==> source in r.tree && FolderAt(r.tree, RemoteParent(target)) && target !in r.tree))
      && (res.Ok? ==>
            && source in r.tree && target !in r.tree && CopiedTo(r.tree, r'.tree, source, target)
            && (forall p :: if p == target then p !in m'.stats else SameStat(m, m', p))
            && (forall p :: if p == RemoteParent(target) then p !in m'.listings else SameListing(m, m', p)))
  {
    CopyNodeIs(m, r, source, target);
    CopyPathDoes(r, source, target);
    GoneAndSame(m, target, RemoteParent(target));
  }

  lemma {:induction false} GoneAndSame(m: Meta, path: string, parent: string)
    ensures var m' := InvalidateListing(InvalidateStat(m, path), parent);
      && (forall p :: if p == path then p !in m'.stats else SameStat(m, m', p))
      && (forall p :: if p == parent then p !in m'.listings else SameListing(m, m', p))
  {
  }

  /** A folder in one of the two trees, or one they hang in. */
  predicate ListingConcerned(source: string, target: string, p: string) {
    Under(source, p) || Under(target, p) || p == RemoteParent(source) || p == RemoteParent(target)
  }

  lemma {:induction false} ForgetIsExact(m: Meta, source: string, target: string)
    requires Norm(source) && Norm(target)
    ensures var m' := Forget(m, source, target);
      && (forall p :: if Under(source, p) || Under(target, p) then p !in m'.stats else SameStat(m, m', p))
      && (forall p :: if ListingConcerned(source, target, p) then p !in m'.listings else SameListing(m, m', p))
  {
    NormPlain(source);
    NormPlain(target);
  }

  /** After a rename exactly the entries of both trees and both parents' listings go; after a failure none. */
  lemma {:induction false} RenameNodeForgets(m: Meta, r: Remote, source: string, target: string)
    requires Norm(source) && Norm(target)
    ensures var (m', r', res) := RenameNode(m, r, source, target);
      && (res, r') == RenameOrMove(r, source, target)
      && (res.Err? ==> m' == m)
      && (res.Ok? ==>
            && (forall p :: if Under(source, p) || Under(target, p) then p !in m'.stats else SameStat(m, m', p))
            && (forall p :: if ListingConcerned(source, target, p) then p !in m'.listings else SameListing(m, m', p)))
  {
    SplitIs(source);
    SplitIs(target);
    ForgetIsExact(m, source, target);
    var (m', _, res) := RenameNode(m, r, source, target);
    assert res.Ok? ==> m' == Forget(m, source, target);
  }
}
