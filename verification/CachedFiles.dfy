/** The opportunistic file cache: its table, its age-based eviction, and what eviction means for
    pinned files that share a local path with it. */
module CachedFiles {
  import opened Paths
  import opened Drive
  import opened PinStore

  datatype CachedFile = CachedFile(local: string, remoteTime: nat, lastAccess: int)

  type Table = map<string, CachedFile>

  /** `Cache::cached_file`: on record, and the file is still there. */
  function CachedCopy(files: Table, disk: Disk, remote: string): Option<CachedFile> {
    if remote in files && files[remote].local in disk then Some(files[remote]) else None
  }

  /** `Cache::evict_cached_file`. */
  function Evict(files: Table, disk: Disk, remote: string, stuck: set<string>): (Table, Disk, Result<Unit>) {
    match CachedCopy(files, disk, remote)
    case None => (files - {remote}, disk, Ok(Unit))
    case Some(row) =>
      if row.local in stuck then (files, disk, Err(Io))
      else (files - {remote}, disk - {row.local}, Ok(Unit))
  }

  /** `lookup_cached` once the live stat is known: served when the recorded time is Drive's, evicted when not. */
  function CheckCopy(files: Table, disk: Disk, remote: string, live: nat, now: int, stuck: set<string>)
    : (Table, Disk, Option<string>)
    requires remote in files
  {
    var row := files[remote];
    if live == row.remoteTime then (files[remote := row.(lastAccess := now)], disk, Some(row.local))
    else
      var (files1, disk1, _) := Evict(files, disk, remote, stuck);
      (files1, disk1, None)
  }

  /** The sweep goes on past a row it cannot evict. */
  function EvictRows(files: Table, disk: Disk, rows: seq<string>, stuck: set<string>): (Table, Disk)
    decreases |rows|
  {
    if rows == [] then (files, disk)
    else
      var (files1, disk1, _) := Evict(files, disk, rows[0], stuck);
      EvictRows(files1, disk1, rows[1..], stuck)
  }

  /** Last accessed at or before the cutoff. */
  predicate Stale(files: Table, cutoff: int, remote: string) {
    remote in files && files[remote].lastAccess <= cutoff
  }

  predicate StaleRows(rows: seq<string>, files: Table, cutoff: int) {
    && (forall i, j :: 0 <= i < j < |rows| ==> rows[i] != rows[j])
    && (forall i :: 0 <= i < |rows| ==> Stale(files, cutoff, rows[i]))
    && (forall p :: p in files && Stale(files, cutoff, p) ==> p in rows)
  }

  lemma {:induction false} RestIsApart(rows: seq<string>)
    requires rows != [] && forall i, j :: 0 <= i < j < |rows| ==> rows[i] != rows[j]
    ensures forall i :: 0 <= i < |rows[1..]| ==> rows[1..][i] != rows[0]
    ensures forall p :: p in rows <==> p == rows[0] || p in rows[1..]
  {
    assert rows == [rows[0]] + rows[1..];
  }

  /** A stale row that stays, because its file is there and will not go. */
  predicate Stuck(files: Table, disk: Disk, stuck: set<string>, p: string) {
    p in files && files[p].local in disk && files[p].local in stuck
  }

  /** Some listed row names this file. */
  predicate Named(files: Table, rows: seq<string>, l: string) {
    exists p :: p in rows && p in files && files[p].local == l
  }

  lemma {:induction false} EvictOneOf(files: Table, disk: Disk, remote: string, stuck: set<string>)
    requires remote in files
    ensures var (files', disk', res) := Evict(files, disk, remote, stuck);
      && files' == (if Stuck(files, disk, stuck, remote) then files else files - {remote})
      && disk' == (if files[remote].local in stuck then disk else disk - {files[remote].local})
      && (res.Err? <==> Stuck(files, disk, stuck, remote))
  {
    if files[remote].local !in disk { assert disk - {files[remote].local} == disk; }
  }

  lemma {:induction false} EvictedAround(files: Table, disk: Disk, rows: seq<string>, stuck: set<string>, p: string)
    requires forall i :: 0 <= i < |rows| ==> rows[i] in files
    requires forall i, j :: 0 <= i < j < |rows| ==> rows[i] != rows[j]
    ensures var (files', disk') := EvictRows(files, disk, rows, stuck);
      && (p in files' <==> p in files && (p !in rows || Stuck(files, disk, stuck, p)))
      && (p in files' ==> files'[p] == files[p])
    decreases |rows|
  {
    if rows != [] {
      EvictOneOf(files, disk, rows[0], stuck);
      RestIsApart(rows);
      var (files1, disk1, _) := Evict(files, disk, rows[0], stuck);
      forall i | 0 <= i < |rows[1..]|
        ensures rows[1..][i] in files1
      {
        assert rows[1..][i] == rows[i + 1];
      }
      EvictedAround(files1, disk1, rows[1..], stuck, p);
    }
  }

  lemma {:induction false} EvictedFile(files: Table, disk: Disk, rows: seq<string>, stuck: set<string>, l: string)
    requires forall i :: 0 <= i < |rows| ==> rows[i] in files
    requires forall i, j :: 0 <= i < j < |rows| ==> rows[i] != rows[j]
    ensures var (files', disk') := EvictRows(files, disk, rows, stuck);
      && (l in disk' <==> l in disk && (l in stuck || !Named(files, rows, l)))
      && (l in disk' ==> disk'[l] == disk[l])
    decreases |rows|
  {
    if rows != [] {
      EvictOneOf(files, disk, rows[0], stuck);
      RestIsApart(rows);
      var (files1, disk1, _) := Evict(files, disk, rows[0], stuck);
      forall i | 0 <= i < |rows[1..]|
        ensures rows[1..][i] in files1
      {
        assert rows[1..][i] == rows[i + 1];
      }
      EvictedFile(files1, disk1, rows[1..], stuck, l);
      assert Named(files, rows, l) <==> files[rows[0]].local == l || Named(files1, rows[1..], l);
    }
  }

  /** Whatever cannot be removed, the sweep goes on: the rows that stay are exactly those accessed after the
      cutoff and the stale ones whose file is there and stuck; the files that go are exactly the others that
      stale rows name. */
  lemma {:induction false} EvictionGoesOn(files: Table, disk: Disk, rows: seq<string>, cutoff: int, stuck: set<string>)
    requires StaleRows(rows, files, cutoff)
    ensures var (files', disk') := EvictRows(files, disk, rows, stuck);
      && (forall p :: p in files' <==>
            p in files && (files[p].lastAccess > cutoff || (files[p].local in disk && files[p].local in stuck)))
      && (forall p :: p in files' ==> files'[p] == files[p])
      && (forall l :: l in disk' <==>
            l in disk && (l in stuck || !exists p :: Stale(files, cutoff, p) && files[p].local == l))
      && (forall l :: l in disk' ==> disk'[l] == disk[l])
  {
    forall p
      ensures p in files ==> (p in rows <==> files[p].lastAccess <= cutoff)
      ensures var (files', _) := EvictRows(files, disk, rows, stuck);
        && (p in files' <==> p in files && (p !in rows || Stuck(files, disk, stuck, p)))
        && (p in files' ==> files'[p] == files[p])
    {
      EvictedAround(files, disk, rows, stuck, p);
      if p in files && files[p].lastAccess <= cutoff { assert Stale(files, cutoff, p); }
      if p in rows { assert Stale(files, cutoff, p); }
    }
    forall l
      ensures var (_, disk') := EvictRows(files, disk, rows, stuck);
        && (l in disk' <==> l in disk && (l in stuck || !exists p :: Stale(files, cutoff, p) && files[p].local == l))
        && (l in disk' ==> disk'[l] == disk[l])
    {
      EvictedFile(files, disk, rows, stuck, l);
      assert Named(files, rows, l) <==> exists p :: Stale(files, cutoff, p) && files[p].local == l by {
        if p :| Stale(files, cutoff, p) && files[p].local == l { assert p in rows; }
        if Named(files, rows, l) {
          var p :| p in rows && p in files && files[p].local == l;
          assert Stale(files, cutoff, p);
        }
      }
    }
  }

  /** A copy served after the cutoff survives the sweep, file and row, unless another stale row names its file. */
  lemma {:induction false} ServedCopyStays(files: Table, disk: Disk, remote: string, live: nat, now: int, cutoff: int,
                                           rows: seq<string>, stuck: set<string>)
    requires CachedCopy(files, disk, remote).Some? && cutoff < now
    requires CheckCopy(files, disk, remote, live, now, stuck).2.Some?
    requires StaleRows(rows, CheckCopy(files, disk, remote, live, now, stuck).0, cutoff)
    requires forall p :: p in files && p != remote ==> files[p].local != files[remote].local
    ensures var (files1, disk1, served) := CheckCopy(files, disk, remote, live, now, stuck);
      var (files2, disk2) := EvictRows(files1, disk1, rows, stuck);
      && live == files[remote].remoteTime && served.value == files[remote].local
      && files1.Keys == files.Keys && (forall p :: p in files && p != remote ==> files1[p] == files[p]) && disk1 == disk
      && remote in files2 && files2[remote] == files[remote].(lastAccess := now)
      && served.value in disk2 && disk2[served.value] == disk[served.value]
  {
    var (files1, disk1, _) := CheckCopy(files, disk, remote, live, now, stuck);
    EvictionGoesOn(files1, disk1, rows, cutoff, stuck);
  }

  /** When nothing is stuck it removes exactly the rows last accessed at or before the cutoff, and exactly the
      files those rows name. */
  lemma {:induction false} EvictionIsExact(files: Table, disk: Disk, rows: seq<string>, cutoff: int)
    requires StaleRows(rows, files, cutoff)
    ensures var (files', disk') := EvictRows(files, disk, rows, {});
      && (forall p :: p in files' <==> p in files && files[p].lastAccess > cutoff)
      && (forall p :: p in files' ==> files'[p] == files[p])
      && (forall l :: l in disk' <==> l in disk && !exists p :: Stale(files, cutoff, p) && files[p].local == l)
      && (forall l :: l in disk' ==> disk'[l] == disk[l])
  {
    EvictionGoesOn(files, disk, rows, cutoff, {});
  }

  /** With distinct local paths the files that stay are those of the rows that stay. */
  lemma {:induction false} FreshFilesStay(files: Table, disk: Disk, rows: seq<string>, cutoff: int,
                                          stuck: set<string>, remote: string)
    requires StaleRows(rows, files, cutoff)
    requires forall p, q :: p in files && q in files && p != q ==> files[p].local != files[q].local
    requires remote in files && files[remote].local in disk
    ensures files[remote].local in EvictRows(files, disk, rows, stuck).1 <==>
            files[remote].lastAccess > cutoff || files[remote].local in stuck
  {
    EvictionGoesOn(files, disk, rows, cutoff, stuck);
    if files[remote].lastAccess <= cutoff { assert Stale(files, cutoff, remote); }
  }

  /** The sweep leaves every pinned copy in place exactly when no stale row names the copy of a pin, stuck ones
      apart; keeping the two tables apart is what "pinned files are never evicted" rests on. */
  lemma {:induction false} PinsSurviveEviction(s: PinState, files: Table, rows: seq<string>, cutoff: int,
                                               stuck: set<string>)
    requires StaleRows(rows, files, cutoff)
    ensures (forall q :: Lookup(s, q).Some? ==>
               Lookup(s.(disk := EvictRows(files, s.disk, rows, stuck).1), q).Some?) <==>
            (forall q, p :: Lookup(s, q).Some? && Stale(files, cutoff, p) && files[p].local == s.pins[q].local ==>
               files[p].local in stuck)
  {
    EvictionGoesOn(files, s.disk, rows, cutoff, stuck);
    var disk' := EvictRows(files, s.disk, rows, stuck).1;
    if forall q :: Lookup(s, q).Some? ==> Lookup(s.(disk := disk'), q).Some? {
      forall q, p | Lookup(s, q).Some? && Stale(files, cutoff, p) && files[p].local == s.pins[q].local
        ensures files[p].local in stuck
      {
        assert Lookup(s.(disk := disk'), q).Some?;
      }
    }
  }

  /** And they do not stay apart by themselves: a file opened, then pinned, then left alone past
      the retention time loses its pinned copy. */
  lemma {:induction false} OpenedThenPinnedIsEvicted(s: PinState, files: Table, r: Remote, q: string, mtime: int,
                                                     rows: seq<string>, cutoff: int, stuck: set<string>)
    requires ValidRoot(s.root) && Norm(q) && q in files && files[q].local == s.root + q && files[q].local !in stuck
    requires PinPath(s, r, q, false, mtime).2.Ok?
    requires StaleRows(rows, files, cutoff) && files[q].lastAccess <= cutoff
    ensures var s' := PinPath(s, r, q, false, mtime).0;
      Lookup(s', q).Some? && Lookup(s'.(disk := EvictRows(files, s'.disk, rows, stuck).1), q).None?
  {
    LocalPathMirrors(s.root, q);
    var s' := PinPath(s, r, q, false, mtime).0;
    EvictionGoesOn(files, s'.disk, rows, cutoff, stuck);
    assert Stale(files, cutoff, q);
  }
}
