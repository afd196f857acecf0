/** The daemon's operations on the shared cache object, step by step. */
module Daemon {
  import opened Paths
  import opened Drive
  import opened Calls
  import opened PinStore
  import opened CachedFiles
  import opened CacheDb
  import opened Reconcile
  import S = SyncSpec
  import M = MetaCache
  import R = Refresh

  /** Propagates a local move to Drive and rekeys the row, falling back to the old Drive path. */
  method HandleRename(cache: Cache, r: Remote, from: string, to: string)
    returns (r': Remote, result: Result<Unit>, ghost owner: Option<string>)
    modifies cache`pins
    ensures IsOwner(old(cache.pins), from, owner)
    ensures (cache.Index(), r', result) == S.HandleRename(old(cache.Index()), r, owner, from, to)
  {
    var found := cache.LookupByLocalPath(from);
    owner := found;
    var newRemote := S.RemotePathForLocal(cache.root, to);
    if found.None? || newRemote.None? {
      return r, Ok(Unit), owner;
    }
    var source, target := found.value, newRemote.value;
    var done, r1 := RenameOnDrive(r, source, target, BaseName(from), BaseName(to));
    result := cache.Rename(source, if done.Ok? then target else source, to);
    r' := r1;
  }

  method RenameOnDrive(r: Remote, source: string, target: string, oldName: string, newName: string)
    returns (result: Result<Unit>, r': Remote)
    ensures (result, r') == S.RemoteRename(r, source, target, oldName, newName)
  {
    var newParent := RemoteParent(target);
    result, r' := EnsureRemoteDirChain(r, newParent);
    if result.Err? {
      return;
    }
    if RemoteParent(source) == newParent {
      var (renamed, r1) := RenamePath(r', source, newName);
      return renamed, r1;
    }
    var (moved, r2) := MovePath(r', source, newParent);
    if moved.Err? || oldName == newName {
      return moved, r2;
    }
    var (renamed, r3) := RenamePath(r2, newParent + "/" + oldName, newName);
    return renamed, r3;
  }

  /** Uploads a pinned file whose stamp is not the recorded one; the stamp recorded afterwards is
      the one read before the upload. */
  method UploadIfNeeded(cache: Cache, r: Remote, local: string)
    returns (r': Remote, result: Result<Unit>, ghost owner: Option<string>)
    modifies cache`pins
    ensures IsOwner(old(cache.pins), local, owner)
    ensures (cache.Index(), r', result) == S.UploadIfNeeded(old(cache.Index()), r, owner, local)
  {
    var found := cache.LookupByLocalPath(local);
    owner := found;
    if local !in cache.disk || found.None? {
      return r, Ok(Unit), owner;
    }
    var remote, file := found.value, cache.disk[local];
    if !NeedsUpload(cache.pins, remote, file.StampOf()) {
      return r, Ok(Unit), owner;
    }
    var chain, r1 := EnsureRemoteDirChain(r, RemoteParent(remote));
    if chain.Err? {
      return r1, chain, owner;
    }
    var (sent, r2) := UploadFile(r1, local, file.bytes, RemoteParent(remote));
    if sent.Err? {
      return r2, sent, owner;
    }
    cache.MarkSynced(remote, file.StampOf());
    return r2, Ok(Unit), owner;
  }

  /** One file of the walk: a lost session is an error, any other failure is only noted. */
  method SyncFile(cache: Cache, r: Remote, local: string, failed: set<string>)
    returns (r': Remote, result: Result<Unit>, failed': set<string>)
    requires Mirror(cache.Index())
    modifies cache`pins
    ensures Mirror(cache.Index())
    ensures (cache.Index(), r', result, failed') == Walk(old(cache.Index()), r, ([local], true), failed)
  {
    ghost var before := cache.Index();
    WalkFile(before, r, local, failed);
    var res;
    ghost var owner;
    r', res, owner := UploadIfNeeded(cache, r, local);
    OwnerOfIs(before, local, owner);
    S.UploadEffect(before, r, owner, local);
    if res == Err(NotAuthenticated) {
      return r', res, failed;
    }
    return r', Ok(Unit), if res.Err? then failed + {local} else failed;
  }

  /** Walks a folder, uploading what needs it; a lost session ends the whole walk. */
  method WalkAndUpload(cache: Cache, r: Remote, folder: Folder, path: string, failed: set<string>)
    returns (r': Remote, result: Result<Unit>, failed': set<string>)
    requires Mirror(cache.Index())
    modifies cache`pins
    ensures Mirror(cache.Index())
    ensures (cache.Index(), r', result, failed') == Walk(old(cache.Index()), r, Visit(folder, path), failed)
    decreases folder
  {
    r', result, failed' := r, Ok(Unit), failed;
    if folder.Missing? {
      return;
    }
    if folder.Unreadable? {
      return r, Err(Io), failed;
    }
    ghost var all := VisitEntries(folder.entries, path);
    var i := 0;
    while i < |folder.entries|
      invariant 0 <= i <= |folder.entries|
      invariant Mirror(cache.Index())
      invariant Walk(cache.Index(), r', VisitEntries(folder.entries[i..], path), failed') ==
                Walk(old(cache.Index()), r, all, failed)
    {
      var entry := folder.entries[i];
      assert folder.entries[i..][1..] == folder.entries[i + 1..];
      WalkEntries(cache.Index(), r', folder.entries[i..], path, failed');
      match entry {
        case SubFolder(name, sub) =>
          r', result, failed' := WalkAndUpload(cache, r', sub, path + "/" + name, failed');
          if result.Err? {
            return;
          }
        case FileEntry(name) =>
          r', result, failed' := SyncFile(cache, r', path + "/" + name, failed');
          if result.Err? {
            return;
          }
        case OtherEntry(_) =>
        case BrokenEntry => return r', Err(Io), failed';
      }
      i := i + 1;
    }
    result := Ok(Unit);
  }

  /** `reconcile`: the walk from the cache root. */
  method ReconcileAll(cache: Cache, r: Remote, folder: Folder)
    returns (r': Remote, result: Result<Unit>, failed: set<string>)
    requires Mirror(cache.Index())
    modifies cache`pins
    ensures (cache.Index(), r', result, failed) == Walk(old(cache.Index()), r, Visit(folder, cache.root), {})
    ensures result == Err(NotAuthenticated) <==>
            exists i :: 0 <= i < |r'.calls| - |r.calls| && FaultAt(r.faults, i) == Some(NotAuthenticated)
  {
    SessionLossIff(cache.Index(), r, Visit(folder, cache.root), {});
    r', result, failed := WalkAndUpload(cache, r, folder, cache.root, {});
  }

  /** The eviction sweep: whatever it cannot remove, it leaves and goes on. */
  method EvictStale(cache: Cache, now: int, retention: nat, stuck: set<string>) returns (ghost rows: seq<string>)
    modifies cache`cachedFiles, cache`disk
    ensures StaleRows(rows, old(cache.cachedFiles), now - retention)
    ensures (cache.cachedFiles, cache.disk) == EvictRows(old(cache.cachedFiles), old(cache.disk), rows, stuck)
  {
    var stale := cache.SelectStale(now - retention);
    rows := stale;
    var i := 0;
    while i < |stale|
      invariant 0 <= i <= |stale|
      invariant EvictRows(cache.cachedFiles, cache.disk, stale[i..], stuck) ==
                EvictRows(old(cache.cachedFiles), old(cache.disk), stale, stuck)
    {
      assert stale[i..][1..] == stale[i + 1..];
      var ignored := cache.EvictCachedFile(stale[i], stuck);
      i := i + 1;
    }
  }

  method RefreshStats(cache: Cache, r: Remote, paths: seq<string>)
    returns (r': Remote, ghost kept: set<string>, changed: set<string>)
    modifies cache`stats
    ensures R.Sweep(cache.MetaState(), r', kept, changed) ==
            R.SweepStats(R.Sweep(old(cache.MetaState()), r, {}, {}), paths)
  {
    r', changed := r, {};
    kept := {};
    var i := 0;
    while i < |paths|
      invariant 0 <= i <= |paths|
      invariant R.SweepStats(R.Sweep(cache.MetaState(), r', kept, changed), paths[i..]) ==
                R.SweepStats(R.Sweep(old(cache.MetaState()), r, {}, {}), paths)
    {
      assert paths[i..][1..] == paths[i + 1..];
      var (res, r1) := Stat(r', paths[i]);
      r' := r1;
      if res.Ok? {
        cache.StoreStat(paths[i], res.value);
        changed := changed + {paths[i]};
      } else if res.error == NotFound {
        cache.InvalidateStat(paths[i]);
      } else {
        kept := kept + {paths[i]};
      }
      i := i + 1;
    }
  }

  method RefreshListings(cache: Cache, r: Remote, paths: seq<string>, order: string -> seq<Item>, changed0: set<string>)
    returns (r': Remote, ghost kept: set<string>, changed: set<string>)
    modifies cache`stats, cache`listings
    ensures R.Sweep(cache.MetaState(), r', kept, changed) ==
            R.SweepListings(R.Sweep(old(cache.MetaState()), r, {}, changed0), paths, order)
  {
    r', changed := r, changed0;
    kept := {};
    var i := 0;
    while i < |paths|
      invariant 0 <= i <= |paths|
      invariant R.SweepListings(R.Sweep(cache.MetaState(), r', kept, changed), paths[i..], order) ==
                R.SweepListings(R.Sweep(old(cache.MetaState()), r, {}, changed0), paths, order)
    {
      assert paths[i..][1..] == paths[i + 1..];
      var (res, r1) := ListFolder(r', paths[i], order(paths[i]));
      r' := r1;
      if res.Ok? {
        cache.StoreListing(paths[i], res.value);
        changed := changed + M.ChildrenOf(res.value, paths[i]);
      } else if res.error == NotFound {
        cache.InvalidateListing(paths[i]);
      } else {
        kept := kept + {paths[i]};
      }
      i := i + 1;
    }
  }

  /** The refresh sweep: every cached stat, then every cached listing, is asked for again. */
  method RefreshAll(cache: Cache, r: Remote, order: string -> seq<Item>)
    returns (r': Remote, changed: set<string>, ghost statPaths: seq<string>, ghost listPaths: seq<string>,
             ghost keptStats: set<string>, ghost keptListings: set<string>)
    requires forall p :: FolderAt(r.tree, p) ==> Lists(r.tree, p, order(p))
    modifies cache`stats, cache`listings
    ensures forall p :: p in old(cache.stats) <==> p in statPaths
    ensures forall p :: p in old(cache.listings) <==> p in listPaths
    ensures (R.Sweep(cache.MetaState(), r', keptListings, changed), keptStats) ==
            R.SweepAll(old(cache.MetaState()), r, statPaths, listPaths, order)
    ensures keptStats == R.Failing(r.faults, statPaths)
    ensures keptListings == R.Failing(Later(r.faults, |statPaths|), listPaths)
    ensures forall p :: p in cache.stats ==>
      M.LiveStat(cache.stats, r.tree, p) ||
        (p in keptStats && p in old(cache.stats) && cache.stats[p] == old(cache.stats)[p])
    ensures forall p :: p in cache.listings ==>
      (FolderAt(r.tree, p) && Lists(r.tree, p, cache.listings[p])) ||
      (p in keptListings && p in old(cache.listings) && cache.listings[p] == old(cache.listings)[p])
    ensures R.Settled(old(cache.MetaState()), r, statPaths, listPaths, order, cache.MetaState(), changed)
  {
    ghost var m0 := cache.MetaState();
    var stats := Cache.Enumerate(cache.stats.Keys);
    r', keptStats, changed := RefreshStats(cache, r, stats);
    R.StatsAlone(R.Sweep(m0, r, {}, {}), stats);
    var listings := Cache.Enumerate(cache.listings.Keys);
    r', keptListings, changed := RefreshListings(cache, r', listings, order, changed);
    statPaths, listPaths := stats, listings;
    R.SweepMakesFresh(m0, r, statPaths, listPaths, order);
    R.SweepSettles(m0, r, statPaths, listPaths, order);
    assert (R.Sweep(cache.MetaState(), r', keptListings, changed), keptStats) ==
           R.SweepAll(m0, r, statPaths, listPaths, order);
  }

  /** The process-wide record of when each folder was last revalidated. */
  class LastRevalidated {
    var last: map<string, int>

    constructor ()
      ensures last == map[]
    {
      last := map[];
    }

    method Claim(parent: string, now: int) returns (granted: bool)
      modifies this
      ensures (granted, last) == R.Claim(old(last), parent, now)
    {
      last := map p | p in last && R.Elapsed(last[p], now) < R.COOLDOWN :: last[p];
      if parent in last {
        return false;
      }
      last := last[parent := now];
      return true;
    }
  }

  /** Checks one folder against Drive, unless that was done a moment ago. */
  method RevalidateListing(cache: Cache, claims: LastRevalidated, r: Remote, parent: string, now: int, reply: seq<Item>)
    returns (r': Remote, told: bool)
    modifies cache`stats, cache`listings, claims
    ensures (cache.MetaState(), claims.last, r', told) ==
            R.Revalidate(old(cache.MetaState()), old(claims.last), r, parent, now, reply)
  {
    if parent == "/" || parent == "" {
      return r, false;
    }
    var granted := claims.Claim(parent, now);
    if !granted {
      return r, false;
    }
    var (res, r1) := ListFolder(r, parent, reply);
    if res.Ok? {
      if parent in cache.listings && cache.listings[parent] == res.value {
        return r1, false;
      }
      cache.StoreListing(parent, res.value);
      return r1, true;
    }
    if res.error == NotFound {
      cache.InvalidateListing(parent);
    }
    return r1, false;
  }
}
