/** The cache object itself: its tables and the local disk are fields, and each operation
    changes them as the specification functions say. Queries pick their row order freely. */
module CacheDb {
  import opened Paths
  import opened Drive
  import opened PinStore
  import opened CachedFiles
  import opened MetaCache

  class Cache {
    const root: string
    var pins: Rows
    var disk: Disk
    var cachedFiles: Table
    var stats: map<string, NodeEntry>
    var listings: map<string, seq<Item>>

    constructor (root: string)
      ensures this.root == root && Index() == PinState(root, map[], map[])
      ensures cachedFiles == map[] && MetaState() == Meta(map[], map[])
    {
      this.root := root;
      pins, disk, cachedFiles, stats, listings := map[], map[], map[], map[], map[];
    }

    function Index(): PinState
      reads this
    {
      PinState(root, pins, disk)
    }

    function MetaState(): Meta
      reads this
    {
      Meta(stats, listings)
    }

    // ---- Queries ----------------------------------------------------------------------

    /** Any enumeration of a finite set of rows. */
    static method Enumerate(keys: set<string>) returns (rows: seq<string>)
      ensures forall i, j :: 0 <= i < j < |rows| ==> rows[i] != rows[j]
      ensures forall i :: 0 <= i < |rows| ==> rows[i] in keys
      ensures forall k :: k in keys ==> k in rows
    {
      rows := [];
      var todo := keys;
      while todo != {}
        invariant forall i, j :: 0 <= i < j < |rows| ==> rows[i] != rows[j]
        invariant forall i :: 0 <= i < |rows| ==> rows[i] in keys && rows[i] !in todo
        invariant forall k :: k in keys ==> k in rows || k in todo
        invariant todo <= keys
        decreases todo
      {
        var k :| k in todo;
        rows := rows + [k];
        todo := todo - {k};
      }
    }

    method SelectTree(path: string) returns (rows: seq<string>)
      ensures Selects(rows, pins, path)
    {
      rows := Enumerate(set q | q in pins && Matches(path, q));
    }

    method SelectStale(cutoff: int) returns (rows: seq<string>)
      ensures StaleRows(rows, cachedFiles, cutoff)
    {
      rows := Enumerate(set p | p in cachedFiles && Stale(cachedFiles, cutoff, p));
    }

    /** `lookup_by_local_path`: some matching row. */
    method LookupByLocalPath(local: string) returns (owner: Option<string>)
      ensures IsOwner(pins, local, owner)
    {
      var found := set q | q in pins && pins[q].local == local;
      if found == {} {
        assert forall q :: q in pins && pins[q].local == local ==> q in found;
        return None;
      }
      var q :| q in found;
      return Some(q);
    }

    // ---- Pins -------------------------------------------------------------------------

    method Pin(r: Remote, remote: string, force: bool, mtime: int) returns (r': Remote, result: Result<string>)
      modifies this`pins, this`disk
      ensures (Index(), r', result) == PinPath(old(Index()), r, remote, force, mtime)
    {
      var (stat, r1) := Drive.Stat(r, remote);
      if stat.Err? {
        return r1, Err(stat.error);
      }
      if stat.value.isFolder || stat.value.webOnly {
        return r1, Err(Cli);
      }
      if !force && Lookup(Index(), remote).Some? && IsDirty(Index(), Lookup(Index(), remote).value, remote) {
        return r1, Err(Cli);
      }
      var dir := TargetDir(root, remote);
      if dir.None? {
        return r1, Err(Cli);
      }
      var (got, r2) := DownloadFile(r1, remote, dir.value);
      if got.Err? {
        return r2, Err(got.error);
      }
      var name := FileName(remote);
      if name.None? {
        return r2, Err(Cli);
      }
      var local, file := Join(dir.value, name.value), File(got.value, mtime);
      disk := disk[local := file];
      pins := pins[remote := PinStore.Pin(local, file.StampOf())];
      return r2, Ok(local);
    }

    method Unpin(remote: string, force: bool, stuck: set<string>) returns (result: Result<Unit>)
      modifies this`pins, this`disk
      ensures (Index(), result) == PinStore.Unpin(old(Index()), remote, force, stuck)
    {
      var local := Lookup(Index(), remote);
      if local.Some? {
        if !force && IsDirty(Index(), local.value, remote) {
          return Err(Cli);
        }
        if local.value in stuck {
          return Err(Io);
        }
        disk := disk - {local.value};
      }
      pins := pins - {remote};
      return Ok(Unit);
    }

    method UnpinTree(remote: string, force: bool, stuck: set<string>)
      returns (result: Result<Unit>, ghost rows: seq<string>)
      modifies this`pins, this`disk
      ensures Selects(rows, old(pins), remote)
      ensures (Index(), result) == UnpinRows(old(Index()), rows, force, stuck)
    {
      var pinned := SelectTree(remote);
      rows := pinned;
      var i := 0;
      while i < |pinned|
        invariant 0 <= i <= |pinned|
        invariant UnpinRows(Index(), pinned[i..], force, stuck) == UnpinRows(old(Index()), pinned, force, stuck)
      {
        assert pinned[i..][1..] == pinned[i + 1..];
        result := Unpin(pinned[i], force, stuck);
        if result.Err? {
          return;
        }
        i := i + 1;
      }
      result := Ok(Unit);
    }

    method Rename(source: string, target: string, local: string) returns (result: Result<Unit>)
      modifies this`pins
      ensures match RenameRow(old(pins), source, target, local)
        case Ok(rows) => result == Ok(Unit) && pins == rows
        case Err(e) => result == Err(e) && pins == old(pins)
    {
      if source in pins {
        if target in pins && target != source {
          return Err(Sqlite);
        }
        pins := (pins - {source})[target := pins[source].(local := local)];
      }
      return Ok(Unit);
    }

    method RenameTree(source: string, target: string, stuck: set<string>)
      returns (result: Result<Unit>, ghost rows: seq<string>)
      modifies this`pins, this`disk
      ensures Selects(rows, old(pins), TrimEnd(source))
      ensures forall i :: 0 <= i < |rows| ==> rows[i] in old(pins) && Under(TrimEnd(source), rows[i])
      ensures (Index(), result) == PinStore.RenameTree(old(Index()), source, target, rows, stuck)
    {
      var src, dst := TrimEnd(source), TrimEnd(target);
      TrimmedMatch(source);
      var pinned := SelectTree(src);
      rows := pinned;
      var snap := pins;
      var i := 0;
      while i < |pinned|
        invariant 0 <= i <= |pinned|
        invariant RenameRows(Index(), snap, pinned[i..], src, dst, stuck) ==
                  RenameRows(old(Index()), snap, pinned, src, dst, stuck)
      {
        assert pinned[i..][1..] == pinned[i + 1..];
        result := MoveOne(pinned[i], snap[pinned[i]].local, src, dst, stuck);
        if result.Err? {
          return;
        }
        i := i + 1;
      }
      result := Ok(Unit);
    }

    /** One round: the row, then the file, then the row back if the file would not move. */
    method MoveOne(q: string, local: string, src: string, dst: string, stuck: set<string>)
      returns (result: Result<Unit>)
      requires Under(src, q)
      modifies this`pins, this`disk
      ensures (Index(), result) == MoveRow(old(Index()), q, local, src, dst, stuck)
    {
      var renamed := Rekey(src, dst, q);
      var newLocal := LocalPath(root, renamed);
      if newLocal.None? {
        return Err(Cli);
      }
      result := Rename(q, renamed, newLocal.value);
      if result.Err? || local !in disk {
        return;
      }
      if local in stuck || newLocal.value in stuck {
        result := Rename(renamed, q, local);
        if result.Ok? {
          result := Err(Io);
        }
        return;
      }
      disk := (disk - {local})[newLocal.value := disk[local]];
    }

    lemma {:induction false} TrimmedMatch(path: string)
      ensures forall q :: Matches(TrimEnd(path), q) <==> Under(TrimEnd(path), q)
      decreases |path|
    {
      if path != "" && path[|path| - 1] == '/' { TrimmedMatch(path[..|path| - 1]); }
    }

    method MarkSynced(remote: string, stamp: Stamp)
      modifies this`pins
      ensures pins == PinStore.MarkSynced(old(pins), remote, stamp)
    {
      if remote in pins {
        pins := pins[remote := pins[remote].(stamp := stamp)];
      }
    }

    // ---- Opportunistic files ----------------------------------------------------------

    method StoreCachedFile(remote: string, local: string, remoteTime: nat, now: int)
      modifies this`cachedFiles
      ensures cachedFiles == old(cachedFiles)[remote := CachedFile(local, remoteTime, now)]
    {
      cachedFiles := cachedFiles[remote := CachedFile(local, remoteTime, now)];
    }

    method TouchCachedFile(remote: string, now: int)
      modifies this`cachedFiles
      ensures cachedFiles.Keys == old(cachedFiles).Keys
      ensures forall p :: p in cachedFiles ==>
        cachedFiles[p] == if p == remote then old(cachedFiles)[p].(lastAccess := now) else old(cachedFiles)[p]
    {
      if remote in cachedFiles {
        cachedFiles := cachedFiles[remote := cachedFiles[remote].(lastAccess := now)];
      }
    }

    method EvictCachedFile(remote: string, stuck: set<string>) returns (result: Result<Unit>)
      modifies this`cachedFiles, this`disk
      ensures (cachedFiles, disk, result) == Evict(old(cachedFiles), old(disk), remote, stuck)
    {
      var copy := CachedCopy(cachedFiles, disk, remote);
      if copy.Some? {
        if copy.value.local in stuck {
          return Err(Io);
        }
        disk := disk - {copy.value.local};
      }
      cachedFiles := cachedFiles - {remote};
      return Ok(Unit);
    }

    // ---- Metadata ---------------------------------------------------------------------

    method StoreStat(path: string, entry: NodeEntry)
      modifies this`stats
      ensures MetaState() == MetaCache.StoreStat(old(MetaState()), path, entry)
    {
      stats := stats[path := entry];
    }

    method StoreListing(parent: string, items: seq<Item>)
      modifies this`stats, this`listings
      ensures MetaState() == MetaCache.StoreListing(old(MetaState()), parent, items)
    {
      listings := listings[parent := items];
      var i := 0;
      while i < |items|
        invariant 0 <= i <= |items|
        invariant listings == old(listings)[parent := items]
        invariant StoreItems(stats, parent, items[i..]) == StoreItems(old(stats), parent, items)
      {
        assert items[i..][1..] == items[i + 1..];
        StoreStat(Child(parent, items[i].name), items[i].entry);
        i := i + 1;
      }
    }

    method InvalidateStat(path: string)
      modifies this`stats
      ensures MetaState() == MetaCache.InvalidateStat(old(MetaState()), path)
    {
      stats := stats - {path};
    }

    method InvalidateListing(parent: string)
      modifies this`listings
      ensures MetaState() == MetaCache.InvalidateListing(old(MetaState()), parent)
    {
      listings := listings - {parent};
    }

    method InvalidateTree(path: string)
      modifies this`stats, this`listings
      ensures MetaState() == MetaCache.InvalidateTree(old(MetaState()), path)
    {
      stats := map p | p in stats && !Matches(path, p) :: stats[p];
      listings := map p | p in listings && !Matches(path, p) :: listings[p];
    }
  }
}
