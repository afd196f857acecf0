/** The daemon's startup walk over the cache directory, as an upload of the visited files in
    order. */
module Reconcile {
  import opened Paths
  import opened Drive
  import opened Calls
  import opened PinStore
  import opened SyncSpec

  /** What reading a directory gives: its entries, in the order the system lists them. */
  datatype Folder = Readable(entries: seq<Entry>) | Missing | Unreadable
  datatype Entry =
    | SubFolder(name: string, folder: Folder)
    | FileEntry(name: string)
    | OtherEntry(name: string)
    | BrokenEntry

  /** The files of a folder in walking order, and whether the walk got through it: a folder or an entry
      that cannot be read stops it. */
  function Visit(folder: Folder, path: string): (seq<string>, bool) {
    match folder
    case Missing => ([], true)
    case Unreadable => ([], false)
    case Readable(entries) => VisitEntries(entries, path)
  }

  function VisitEntry(entry: Entry, path: string): (seq<string>, bool) {
    match entry
    case SubFolder(name, folder) => Visit(folder, path + "/" + name)
    case FileEntry(name) => ([path + "/" + name], true)
    case OtherEntry(_) => ([], true)
    case BrokenEntry => ([], false)
  }

  function VisitEntries(entries: seq<Entry>, path: string): (seq<string>, bool) {
    if entries == [] then ([], true)
    else
      var (files, through) := VisitEntry(entries[0], path);
      if !through then (files, false)
      else
        var (more, all) := VisitEntries(entries[1..], path);
        (files + more, all)
  }

  // ---- What a walk sees -------------------------------------------------------------

  /** What reading a directory shows of the disk: every file below `path` is an entry, or lies below one
      that is a folder; and so on down. Nothing is said of what cannot be read. */
  predicate Shows(folder: Folder, path: string, disk: Disk) {
    match folder
    case Missing => forall l :: l in disk ==> !(path + "/" <= l)
    case Unreadable => true
    case Readable(entries) => ShowsEntries(entries, path, disk) && CoversBelow(entries, path, disk)
  }

  predicate CoversBelow(entries: seq<Entry>, path: string, disk: Disk) {
    BrokenEntry in entries || forall l :: l in disk && path + "/" <= l ==> exists e :: e in entries && Holds(e, path, l)
  }

  predicate Holds(entry: Entry, path: string, l: string) {
    match entry
    case SubFolder(name, _) => path + "/" + name + "/" <= l
    case FileEntry(name) => l == path + "/" + name
    case _ => false
  }

  predicate ShowsEntries(entries: seq<Entry>, path: string, disk: Disk) {
    entries == [] ||
    ((entries[0].SubFolder? ==> Shows(entries[0].folder, path + "/" + entries[0].name, disk)) &&
     ShowsEntries(entries[1..], path, disk))
  }

  /** A walk that got through visited every file below its folder. */
  lemma {:induction false} WalkIsComplete(folder: Folder, path: string, disk: Disk, l: string)
    requires Shows(folder, path, disk) && Visit(folder, path).1 && l in disk && path + "/" <= l
    ensures l in Visit(folder, path).0
    decreases folder
  {
    NoBroken(folder.entries, path);
    var e :| e in folder.entries && Holds(e, path, l);
    EntriesComplete(folder.entries, path, disk, l, e);
  }

  /** Nothing in the folder, however deep, is unreadable; a folder that has gone counts as read. */
  predicate Legible(folder: Folder) {
    match folder
    case Missing => true
    case Unreadable => false
    case Readable(entries) => LegibleEntries(entries)
  }

  predicate LegibleEntries(entries: seq<Entry>) {
    BrokenEntry !in entries && forall e :: e in entries && e.SubFolder? ==> Legible(e.folder)
  }

  /** The walk gets through exactly then. */
  lemma {:induction false} VisitThroughIff(folder: Folder, path: string)
    ensures Visit(folder, path).1 <==> Legible(folder)
    decreases folder, 1
  {
    if folder.Readable? { EntriesThroughIff(folder.entries, path); }
  }

  lemma {:induction false} EntriesThroughIff(entries: seq<Entry>, path: string)
    ensures VisitEntries(entries, path).1 <==> LegibleEntries(entries)
    decreases entries, 0
  {
    if entries != [] {
      if entries[0].SubFolder? { VisitThroughIff(entries[0].folder, path + "/" + entries[0].name); }
      EntriesThroughIff(entries[1..], path);
      assert forall e :: e in entries <==> e == entries[0] || e in entries[1..];
    }
  }

  lemma {:induction false} NoBroken(entries: seq<Entry>, path: string)
    requires VisitEntries(entries, path).1
    ensures BrokenEntry !in entries
  {
    if entries != [] {
      NoBroken(entries[1..], path);
    }
  }

  lemma {:induction false} EntriesComplete(entries: seq<Entry>, path: string, disk: Disk, l: string, e: Entry)
    requires ShowsEntries(entries, path, disk) && VisitEntries(entries, path).1
    requires e in entries && Holds(e, path, l) && l in disk
    ensures l in VisitEntries(entries, path).0
    decreases entries
  {
    if entries[0] == e {
      if e.SubFolder? { WalkIsComplete(e.folder, path + "/" + e.name, disk, l); }
    } else {
      EntriesComplete(entries[1..], path, disk, l, e);
    }
  }

  /** The pin a mirrored index has for a local path. */
  function OwnerOf(s: PinState, local: string): Option<string> {
    if s.root <= local && local[|s.root|..] in s.pins then Some(local[|s.root|..]) else None
  }

  lemma {:induction false} OwnerOfIs(s: PinState, local: string, owner: Option<string>)
    requires Mirror(s)
    ensures IsOwner(s.pins, local, owner) <==> owner == OwnerOf(s, local)
  {
    assert forall q :: q in s.pins && s.root + q == local ==> local[|s.root|..] == q;
    if OwnerOf(s, local).Some? { assert local == s.root + local[|s.root|..]; }
  }

  /** One upload attempt per file. A failure is noted and the walk goes on, unless the session is
      gone. */
  function SyncAll(s: PinState, r: Remote, files: seq<string>, failed: set<string>)
    : (PinState, Remote, Result<Unit>, set<string>)
    decreases |files|
  {
    if files == [] then (s, r, Ok(Unit), failed)
    else
      var (s1, r1, res) := UploadIfNeeded(s, r, OwnerOf(s, files[0]), files[0]);
      if res == Err(NotAuthenticated) then (s1, r1, res, failed)
      else SyncAll(s1, r1, files[1..], if res.Err? then failed + {files[0]} else failed)
  }

  /** The walk over a folder: its files, then the error if a folder could not be read. */
  function Walk(s: PinState, r: Remote, visited: (seq<string>, bool), failed: set<string>)
    : (PinState, Remote, Result<Unit>, set<string>)
  {
    var (s1, r1, res, failed1) := SyncAll(s, r, visited.0, failed);
    if res.Ok? && !visited.1 then (s1, r1, Err(Io), failed1) else (s1, r1, res, failed1)
  }

  lemma {:induction false} SyncAppend(s: PinState, r: Remote, a: seq<string>, b: seq<string>, failed: set<string>)
    ensures SyncAll(s, r, a + b, failed) ==
      var (s1, r1, res, failed1) := SyncAll(s, r, a, failed);
      if res.Err? then (s1, r1, res, failed1) else SyncAll(s1, r1, b, failed1)
    decreases |a|
  {
    if a == [] {
      assert a + b == b;
    } else {
      var (s1, r1, res) := UploadIfNeeded(s, r, OwnerOf(s, a[0]), a[0]);
      assert (a + b)[1..] == a[1..] + b;
      if res != Err(NotAuthenticated) {
        SyncAppend(s1, r1, a[1..], b, if res.Err? then failed + {a[0]} else failed);
      }
    }
  }

  lemma {:induction false} WalkAppend(s: PinState, r: Remote, a: seq<string>, rest: (seq<string>, bool),
                                      failed: set<string>)
    ensures Walk(s, r, (a + rest.0, rest.1), failed) ==
      var (s1, r1, res, failed1) := Walk(s, r, (a, true), failed);
      if res.Err? then (s1, r1, res, failed1) else Walk(s1, r1, rest, failed1)
  {
    SyncAppend(s, r, a, rest.0, failed);
  }

  /** The entries of a folder one at a time: the first one's part of the walk, then the rest's. */
  lemma {:induction false} WalkEntries(s: PinState, r: Remote, entries: seq<Entry>, path: string, failed: set<string>)
    requires entries != []
    ensures Walk(s, r, VisitEntries(entries, path), failed) ==
      var (s1, r1, res, failed1) := Walk(s, r, VisitEntry(entries[0], path), failed);
      if res.Err? then (s1, r1, res, failed1) else Walk(s1, r1, VisitEntries(entries[1..], path), failed1)
  {
    var (files, through) := VisitEntry(entries[0], path);
    if through { WalkAppend(s, r, files, VisitEntries(entries[1..], path), failed); }
  }

  lemma {:induction false} WalkFile(s: PinState, r: Remote, file: string, failed: set<string>)
    ensures Walk(s, r, ([file], true), failed) ==
      var (s1, r1, res) := UploadIfNeeded(s, r, OwnerOf(s, file), file);
      if res == Err(NotAuthenticated) then (s1, r1, res, failed)
      else (s1, r1, Ok(Unit), if res.Err? then failed + {file} else failed)
  {
    assert [file][1..] == [];
    var (s1, r1, res) := UploadIfNeeded(s, r, OwnerOf(s, file), file);
    var failed1 := if res.Err? then failed + {file} else failed;
    assert SyncAll(s1, r1, [], failed1) == (s1, r1, Ok(Unit), failed1);
  }

  // ---- What the walk achieves -------------------------------------------------------

  /** No pinned file at this path is out of date with its record. */
  predicate InOrder(s: PinState, local: string) {
    OwnerOf(s, local).Some? && local in s.disk ==>
        !NeedsUpload(s.pins, OwnerOf(s, local).value, s.disk[local].StampOf())
  }

  /** Only recorded stamps changed. */
  predicate SamePins(s: PinState, s': PinState) {
    && s'.root == s.root && s'.disk == s.disk && s'.pins.Keys == s.pins.Keys
    && forall q :: q in s.pins ==> s'.pins[q].local == s.pins[q].local
  }

  lemma {:induction false} OneUpload(s: PinState, r: Remote, local: string, other: string)
    ensures var (s', r', res) := UploadIfNeeded(s, r, OwnerOf(s, local), local);
      && SamePins(s, s')
      && (res.Ok? ==> InOrder(s', local))
      && (InOrder(s, other) ==> InOrder(s', other))
  {
    UploadEffect(s, r, OwnerOf(s, local), local);
    var s' := UploadIfNeeded(s, r, OwnerOf(s, local), local).0;
    MarkedInOrder(s, s', local, other);
  }

  lemma {:induction false} MarkedInOrder(s: PinState, s': PinState, local: string, other: string)
    requires s' == s || (local in s.disk && OwnerOf(s, local).Some? &&
                         s' == s.(pins := MarkSynced(s.pins, OwnerOf(s, local).value, s.disk[local].StampOf())))
    ensures SamePins(s, s') && (s' != s ==> InOrder(s', local)) && (InOrder(s, other) ==> InOrder(s', other))
  {
    if OwnerOf(s, local).Some? && OwnerOf(s, other) == OwnerOf(s, local) {
      assert local == s.root + OwnerOf(s, local).value && other == s.root + OwnerOf(s, other).value;
    }
  }

  lemma {:induction false} SyncKeepsOrder(s: PinState, r: Remote, files: seq<string>, failed: set<string>,
                                          other: string)
    ensures var (s', _, _, failed') := SyncAll(s, r, files, failed);
      SamePins(s, s') && failed <= failed' && (InOrder(s, other) ==> InOrder(s', other))
    decreases |files|
  {
    if files != [] {
      OneUpload(s, r, files[0], other);
      var (s1, r1, res) := UploadIfNeeded(s, r, OwnerOf(s, files[0]), files[0]);
      if res != Err(NotAuthenticated) {
        SyncKeepsOrder(s1, r1, files[1..], if res.Err? then failed + {files[0]} else failed, other);
      }
    }
  }

  /** Every visited file ends in order, or its own upload failed for another reason than the
      session. */
  lemma {:induction false} WalkedFilesInOrder(s: PinState, r: Remote, files: seq<string>, failed: set<string>,
                                              local: string)
    requires local in files && SyncAll(s, r, files, failed).2.Ok?
    ensures var (s', _, _, failed') := SyncAll(s, r, files, failed);
      InOrder(s', local) || local in failed'
    decreases |files|
  {
    var (s1, r1, res) := UploadIfNeeded(s, r, OwnerOf(s, files[0]), files[0]);
    var failed1 := if res.Err? then failed + {files[0]} else failed;
    OneUpload(s, r, files[0], local);
    SyncKeepsOrder(s1, r1, files[1..], failed1, local);
    if local in files[1..] {
      WalkedFilesInOrder(s1, r1, files[1..], failed1, local);
    }
  }

  /** After `reconcile` succeeds, every pinned file on disk is in order or failed on its own, whatever the
      directories looked like. */
  lemma {:induction false} ReconcileLeavesOrder(s: PinState, r: Remote, folder: Folder, q: string)
    requires Mirror(s) && q in s.pins && s.root + q in s.disk
    requires Shows(folder, s.root, s.disk)
    requires Walk(s, r, Visit(folder, s.root), {}).2.Ok?
    ensures var (s', _, _, failed) := Walk(s, r, Visit(folder, s.root), {});
      q in s'.pins && (s'.pins[q].stamp == s.disk[s.root + q].StampOf() || s.root + q in failed)
  {
    var files := Visit(folder, s.root).0;
    PinBelowRoot(s.root, q);
    WalkIsComplete(folder, s.root, s.disk, s.root + q);
    WalkedFilesInOrder(s, r, files, {}, s.root + q);
    SyncKeepsOrder(s, r, files, {}, s.root + q);
    assert (s.root + q)[|s.root|..] == q;
  }

  lemma {:induction false} PinBelowRoot(root: string, q: string)
    requires Norm(q)
    ensures root + "/" <= root + q
  {
    var init, name := NormShape(q);
    assert q[0] == '/' by { if init != [] { assert Print(init)[0] == '/'; } }
  }

  /** On an authentication failure the walk stops at that very upload; the files before it are in
      order or failed for another reason, and the later ones were not tried. */
  lemma {:induction false} SessionLossStopsTheWalk(s: PinState, r: Remote, files: seq<string>, failed: set<string>)
    returns (k: nat)
    requires SyncAll(s, r, files, failed).2.Err?
    ensures k < |files| && SyncAll(s, r, files[..k], failed).2.Ok?
    ensures var (s', r', res, failed') := SyncAll(s, r, files, failed);
      var (sk, rk, _, failedk) := SyncAll(s, r, files[..k], failed);
      && UploadIfNeeded(sk, rk, OwnerOf(sk, files[k]), files[k]) == (s', r', Err(NotAuthenticated))
      && res == Err(NotAuthenticated) && failed' == failedk
      && forall i :: 0 <= i < k ==> InOrder(sk, files[i]) || files[i] in failedk
    decreases |files|
  {
    var (s1, r1, res) := UploadIfNeeded(s, r, OwnerOf(s, files[0]), files[0]);
    if res == Err(NotAuthenticated) {
      k := 0;
      assert files[..0] == [];
    } else {
      var k1 := SessionLossStopsTheWalk(s1, r1, files[1..], if res.Err? then failed + {files[0]} else failed);
      k := k1 + 1;
      assert files[..k][1..] == files[1..][..k1];
      assert files[..k][0] == files[0];
    }
    forall i | 0 <= i < k
      ensures InOrder(SyncAll(s, r, files[..k], failed).0, files[i]) || files[i] in SyncAll(s, r, files[..k], failed).3
    {
      assert files[..k][i] == files[i];
      WalkedFilesInOrder(s, r, files[..k], failed, files[i]);
    }
  }

  /** The calls since `r` used up the script in turn; `lost` says whether they found the session gone. */
  predicate Hears(r: Remote, r': Remote, lost: bool) {
    |r.calls| <= |r'.calls| && UsesUp(r.faults, |r'.calls| - |r.calls|, r'.faults, lost)
  }

  lemma {:induction false} UploadHears(s: PinState, r: Remote, owner: Option<string>, local: string)
    ensures var (_, r', res) := UploadIfNeeded(s, r, owner, local);
      Hears(r, r', res == Err(NotAuthenticated))
  {
    UploadReports(s, r, owner, local);
    var (_, r', res) := UploadIfNeeded(s, r, owner, local);
    var bytes := if local in s.disk then s.disk[local].bytes else [];
    TalkHearsLoss(r, Since(r, r'), r', Heard(res), bytes);
  }

  lemma {:induction false} HearsOn(r: Remote, r1: Remote, r2: Remote, lost: bool)
    requires Hears(r, r1, false) && Hears(r1, r2, lost)
    ensures Hears(r, r2, lost)
  {
    UsesUpOn(r.faults, |r1.calls| - |r.calls|, r1.faults, |r2.calls| - |r1.calls|, r2.faults, lost);
  }

  lemma {:induction false} SyncHears(s: PinState, r: Remote, files: seq<string>, failed: set<string>)
    ensures var (_, r', res, _) := SyncAll(s, r, files, failed);
      Hears(r, r', res == Err(NotAuthenticated)) && (res.Err? ==> res == Err(NotAuthenticated))
    decreases |files|
  {
    if files != [] {
      UploadHears(s, r, OwnerOf(s, files[0]), files[0]);
      var (s1, r1, res1) := UploadIfNeeded(s, r, OwnerOf(s, files[0]), files[0]);
      if res1 != Err(NotAuthenticated) {
        var failed1 := if res1.Err? then failed + {files[0]} else failed;
        SyncHears(s1, r1, files[1..], failed1);
        var (_, r', res, _) := SyncAll(s1, r1, files[1..], failed1);
        HearsOn(r, r1, r', res == Err(NotAuthenticated));
      }
    }
  }

  /** `reconcile` fails for want of a session if and only if one of the calls it made, all for dirty pinned files,
      found the session gone; no call was made after that one. */
  lemma {:induction false} SessionLossIff(s: PinState, r: Remote, visited: (seq<string>, bool), failed: set<string>)
    ensures var (_, r', res, _) := Walk(s, r, visited, failed);
      var made := |r'.calls| - |r.calls|;
      && made >= 0
      && (res == Err(NotAuthenticated) <==>
            exists i :: 0 <= i < made && FaultAt(r.faults, i) == Some(NotAuthenticated))
      && (forall i :: 0 <= i < made && FaultAt(r.faults, i) == Some(NotAuthenticated) ==> i == made - 1)
  {
    SyncHears(s, r, visited.0, failed);
  }

  /** The walk comes to the k-th file, and Drive refuses its upload otherwise than for the session. */
  predicate OwnUploadFails(s: PinState, r: Remote, files: seq<string>, failed: set<string>, k: nat) {
    k < |files| &&
    var (sk, rk, got, _) := SyncAll(s, r, files[..k], failed);
    var res := UploadIfNeeded(sk, rk, OwnerOf(sk, files[k]), files[k]).2;
    got.Ok? && res.Err? && res != Err(NotAuthenticated)
  }

  lemma {:induction false} FailsLater(s: PinState, r: Remote, files: seq<string>, failed: set<string>, k: nat)
    requires files != []
    ensures var (s1, r1, res) := UploadIfNeeded(s, r, OwnerOf(s, files[0]), files[0]);
      var failed1 := if res.Err? then failed + {files[0]} else failed;
      && (OwnUploadFails(s, r, files, failed, 0) <==> res.Err? && res != Err(NotAuthenticated))
      && (OwnUploadFails(s, r, files, failed, k + 1) <==>
            res != Err(NotAuthenticated) && OwnUploadFails(s1, r1, files[1..], failed1, k))
  {
    assert files[..0] == [];
    if k + 1 < |files| {
      assert files[..k + 1][1..] == files[1..][..k];
      assert files[..k + 1][0] == files[0];
    }
  }

  /** The failures noted are exactly those: a file is among them if and only if its own upload failed. */
  lemma {:induction false} FailedIff(s: PinState, r: Remote, files: seq<string>, failed: set<string>, local: string)
    ensures local in SyncAll(s, r, files, failed).3 <==>
            local in failed || exists k: nat :: OwnUploadFails(s, r, files, failed, k) && files[k] == local
    decreases |files|
  {
    if files != [] {
      var (s1, r1, res) := UploadIfNeeded(s, r, OwnerOf(s, files[0]), files[0]);
      var failed1 := if res.Err? then failed + {files[0]} else failed;
      FailsLater(s, r, files, failed, 0);
      if k: nat :| OwnUploadFails(s, r, files, failed, k) && files[k] == local {
        if k > 0 { FailsLater(s, r, files, failed, k - 1); }
      }
      if res != Err(NotAuthenticated) {
        FailedIff(s1, r1, files[1..], failed1, local);
        if k: nat :| OwnUploadFails(s1, r1, files[1..], failed1, k) && files[1..][k] == local {
          FailsLater(s, r, files, failed, k);
          assert files[k + 1] == local;
        }
      }
    }
  }
}
