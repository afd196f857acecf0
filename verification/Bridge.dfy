/** The worker's calls: each does its work on Drive, then updates the shared cache step by step. */
module Bridge {
  import opened Paths
  import opened Drive
  import opened PinStore
  import opened CachedFiles
  import opened CacheDb
  import GetPut
  import M = MetaCache

  /** A cached listing is served as it is; otherwise the live one is stored and served. */
  method ListDir(cache: Cache, r: Remote, path: string, reply: seq<Item>)
    returns (r': Remote, result: Result<seq<Item>>)
    modifies cache`stats, cache`listings
    ensures (cache.MetaState(), r', result) == M.ListDir(old(cache.MetaState()), r, path, reply)
  {
    if path != "/" && path in cache.listings {
      return r, Ok(cache.listings[path]);
    }
    var (res, r1) := ListFolder(r, path, reply);
    if path != "/" && res.Ok? {
      cache.StoreListing(path, res.value);
    }
    return r1, res;
  }

  method StatPath(cache: Cache, r: Remote, path: string) returns (r': Remote, result: Result<NodeEntry>)
    modifies cache`stats
    ensures (cache.MetaState(), r', result) == M.StatPath(old(cache.MetaState()), r, path)
  {
    if path in cache.stats {
      return r, Ok(cache.stats[path]);
    }
    var (res, r1) := Stat(r, path);
    if res.Ok? {
      cache.StoreStat(path, res.value);
    }
    return r1, res;
  }

  method MakeDir(cache: Cache, r: Remote, parent: string, name: string) returns (r': Remote, result: Result<NodeEntry>)
    modifies cache`stats, cache`listings
    ensures (cache.MetaState(), r', result) == M.MakeDir(old(cache.MetaState()), r, parent, name)
  {
    var (res, r1) := MakeFolder(r, parent, name);
    if res.Ok? {
      cache.InvalidateListing(parent);
      cache.StoreStat(Child(parent, name), res.value);
    }
    return r1, res;
  }

  method FinishUpload(cache: Cache, r: Remote, local: string, bytes: Bytes, parent: string)
    returns (r': Remote, result: Result<Unit>)
    modifies cache`listings
    ensures (cache.MetaState(), r', result) == M.FinishUpload(old(cache.MetaState()), r, local, bytes, parent)
  {
    var (res, r1) := UploadFile(r, local, bytes, parent);
    if res.Ok? {
      cache.InvalidateListing(parent);
    }
    return r1, res;
  }

  method TrashNode(cache: Cache, r: Remote, path: string) returns (r': Remote, result: Result<Unit>)
    modifies cache`stats, cache`listings
    ensures (cache.MetaState(), r', result) == M.TrashNode(old(cache.MetaState()), r, path)
  {
    var (res, r1) := TrashPath(r, path);
    if res.Ok? {
      cache.InvalidateTree(path);
      if '/' in path {
        cache.InvalidateListing(SplitParentAndName(path).0);
      }
    }
    return r1, res;
  }

  /** After Drive's rename: both trees are forgotten, the pins move along, both parents' listings go. */
  method RenameOrMove(cache: Cache, r: Remote, source: string, target: string, stuck: set<string>)
    returns (r': Remote, result: Result<Unit>, ghost rows: seq<string>)
    modifies cache`stats, cache`listings, cache`pins, cache`disk
    ensures (cache.MetaState(), r', result) == M.RenameNode(old(cache.MetaState()), r, source, target)
    ensures result.Err? ==> cache.Index() == old(cache.Index())
    ensures result.Ok? ==>
      && (forall i :: 0 <= i < |rows| ==> rows[i] in old(cache.pins) && Under(TrimEnd(source), rows[i]))
      && Selects(rows, old(cache.pins), TrimEnd(source))
      && cache.Index() == RenameTree(old(cache.Index()), source, target, rows, stuck).0
  {
    rows := [];
    var (res, r1) := Drive.RenameOrMove(r, source, target);
    if res.Ok? {
      cache.InvalidateTree(source);
      cache.InvalidateTree(target);
      var moved;
      moved, rows := cache.RenameTree(source, target, stuck);
      if '/' in source {
        cache.InvalidateListing(SplitParentAndName(source).0);
      }
      if '/' in target {
        cache.InvalidateListing(SplitParentAndName(target).0);
      }
    }
    return r1, res, rows;
  }

  method CopyNode(cache: Cache, r: Remote, source: string, target: string) returns (r': Remote, result: Result<Unit>)
    modifies cache`stats, cache`listings
    ensures (cache.MetaState(), r', result) == M.CopyNode(old(cache.MetaState()), r, source, target)
  {
    if '/' !in target {
      return r, Err(NotFound);
    }
    var (parent, name) := SplitParentAndName(target);
    var (res, r1) := CopyPath(r, source, parent, name);
    if res.Ok? {
      cache.InvalidateStat(target);
      cache.InvalidateListing(parent);
    }
    return r1, res;
  }

  /** The opportunistic copy, if Drive's live modification time is the recorded one; a copy that
      is out of date is evicted at once. The fresh stat is stored either way. */
  method LookupCached(cache: Cache, r: Remote, remote: string, now: int, stuck: set<string>)
    returns (r': Remote, result: Result<Option<string>>)
    modifies cache`stats, cache`cachedFiles, cache`disk
    ensures var copy := CachedCopy(old(cache.cachedFiles), old(cache.disk), remote);
      var (live, r1) := Stat(r, remote);
      if copy.None? then
        r' == r && result == Ok(None) && cache.MetaState() == old(cache.MetaState()) &&
        cache.cachedFiles == old(cache.cachedFiles) && cache.disk == old(cache.disk)
      else if live.Err? then
        r' == r1 && result == Err(live.error) && cache.MetaState() == old(cache.MetaState()) &&
        cache.cachedFiles == old(cache.cachedFiles) && cache.disk == old(cache.disk)
      else
        var (files', disk', served) :=
          CheckCopy(old(cache.cachedFiles), old(cache.disk), remote, live.value.mtime, now, stuck);
        && r' == r1 && cache.MetaState() == M.StoreStat(old(cache.MetaState()), remote, live.value)
        && cache.cachedFiles == files' && cache.disk == disk' && result == Ok(served)
  {
    var copy := CachedCopy(cache.cachedFiles, cache.disk, remote);
    if copy.None? {
      return r, Ok(None);
    }
    var (live, r1) := Stat(r, remote);
    if live.Err? {
      return r1, Err(live.error);
    }
    cache.StoreStat(remote, live.value);
    if live.value.mtime == copy.value.remoteTime {
      cache.TouchCachedFile(remote, now);
      return r1, Ok(Some(copy.value.local));
    }
    var evicted := cache.EvictCachedFile(remote, stuck);
    return r1, Ok(None);
  }

  // ---- Against the interleaving model -----------------------------------------------

  /** The state of one file in `GetPut`, read off the tables and Drive. */
  predicate Pictures(g: GetPut.State, files: Table, disk: Disk, r: Remote, remote: string, local: string) {
    && g.history != [] && remote in r.tree && r.tree[remote].entry.mtime == GetPut.Current(g).time
    && (remote in files ==> files[remote].local == local)
    && g.row == (if remote in files then Some(files[remote].remoteTime as int) else None)
    && (g.file.Some? <==> local in disk)
  }

  /** An open and its live check are `lookup_cached`: the same branch, and the same tables afterwards. */
  lemma {:induction false} OpenIsLookup(g: GetPut.State, files: Table, disk: Disk, r: Remote, remote: string,
                                        local: string, now: int, stuck: set<string>, j: nat)
    requires Pictures(g, files, disk, r, remote, local) && j !in g.jobs
    ensures var g1 := GetPut.Next(g, GetPut.StartGet(j));
      (g1.jobs[j].GotRow? <==> CachedCopy(files, disk, remote).Some?) &&
      (g1.jobs[j].GotRow? ==>
         var g2 := GetPut.CheckLive(g1, j, local in stuck);
         var (files', disk', served) := CheckCopy(files, disk, remote, r.tree[remote].entry.mtime, now, stuck);
         Pictures(g2, files', disk', r, remote, local) && (g2.jobs[j].Hit? <==> served == Some(local)))
  {
  }

  /** The stat that `get()` and `put()` take is `stat_path`: the cached one if there is one, and kept afterwards. */
  lemma {:induction false} TakenStatIsStatPath(g: GetPut.State, m: M.Meta, r: Remote, remote: string)
    requires g.history != [] && remote in r.tree && r.tree[remote].entry.mtime == GetPut.Current(g).time
    requires g.stat == if remote in m.stats then Some(m.stats[remote].mtime as int) else None
    ensures var (m', _, res) := M.StatPath(m, r, remote);
      res.Ok? ==> res.value.mtime == GetPut.StatTime(g) && remote in m'.stats &&
                  m'.stats[remote].mtime == GetPut.StatTime(g)
  {
  }
}
