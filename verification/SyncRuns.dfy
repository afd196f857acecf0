/** Pinned files in sync: a pin whose recorded stamp is its file's stamp has its local bytes at
    exactly its Drive path, in every interleaving of edits and worker calls with the daemon's
    three-part upload (read the metadata, send the file, record the stamp) and the worker's
    three-part save (upload, remove the old copy, copy the new one in its place). */
module SyncRuns {
  import opened Paths
  import opened Relocation
  import opened Drive
  import opened PinStore
  import opened PinTree
  import opened SyncSpec
  import opened PinRuns

  datatype Job = Idle | Reading(q: string, local: string, stamp: Stamp) | Sent(q: string, stamp: Stamp)

  /** `used` holds every stamp a file ever had; `overtaken` the stamps of local versions that a save
      has replaced on Drive and that were not uploaded since. */
  datatype Sys = Sys(s: PinState, r: Remote, job: Job, used: set<Stamp>, overtaken: set<Stamp>)

  datatype Event =
    | Pins(remote: string, force: bool, mtime: int)
    | Unpins(remote: string, force: bool, stuck: set<string>)
    | Edits(local: string, file: File)
    | Erases(local: string)
    | RenamesOnDrive(source: string, target: string, rows: seq<string>)
    | MovesLocally(from: string, to: string, owner: Option<string>)
    | Deletes(path: string, rows: seq<string>)
    | SaveUploads(remote: string, bytes: Bytes)
    | SaveRemoves(remote: string)
    | SaveCopies(remote: string, file: File)
    | OthersWrite(tree: Tree)
    | ReadsMetadata(local: string, owner: Option<string>)
    | Sends
    | Marks

  // ---- Steps ------------------------------------------------------------------------

  /** The upload part of `put()`: the temporary file carries the target's name. */
  function SaveOnDrive(r: Remote, remote: string, bytes: Bytes): (Result<Unit>, Remote) {
    UploadFile(r, "/tmp/" + BaseName(remote), bytes, RemoteParent(remote))
  }

  /** The stamp of the local version that saving `bytes` at `remote` replaces on Drive. */
  function Overtakes(s: PinState, remote: string, bytes: Bytes): set<Stamp> {
    var local := s.root + remote;
    if local in s.disk && s.disk[local].bytes != bytes then {s.disk[local].StampOf()} else {}
  }

  /** The first part of a save. The old local copy, if any, is still there. */
  function SaveUploadStep(y: Sys, remote: string, bytes: Bytes): Sys {
    var (res, r) := SaveOnDrive(y.r, remote, bytes);
    if res.Err? then y.(r := r) else y.(r := r, overtaken := y.overtaken + Overtakes(y.s, remote, bytes))
  }

  /** The second part of `upload_if_needed`. */
  function SendJob(y: Sys): Sys
    requires y.job.Reading?
  {
    var parent := RemoteParent(y.job.q);
    var (chain, r1) := EnsureChain(y.r, parent);
    if chain.Err? || y.job.local !in y.s.disk then y.(r := r1, job := Idle)
    else
      var (sent, r2) := UploadFile(r1, y.job.local, y.s.disk[y.job.local].bytes, parent);
      if sent.Err? then y.(r := r2, job := Idle)
      else y.(r := r2, job := Sent(y.job.q, y.job.stamp), overtaken := y.overtaken - {y.s.disk[y.job.local].StampOf()})
  }

  /** If a rename brings a version with the stamp of the pending record to its path, Drive has that
      version's bytes. */
  predicate ArrivalOk(y: Sys, source: string, target: string) {
    y.job.Sent? && Under(target, y.job.q) ==>
      var x := Rekey(target, source, y.job.q);
      x in y.s.pins && y.s.root + x in y.s.disk && y.s.disk[y.s.root + x].StampOf() == y.job.stamp ==>
        OnDrive(y.s, y.r.tree, x) || y.job.stamp in y.overtaken
  }

  /** What may happen: each new version of a file has a stamp no file had before, renames and
      deletions go through, other devices leave the pinned paths alone, the daemon does one thing
      at a time, and no rename brings a version that is not on Drive to where its stamp is about to
      be recorded. A save's copy does not overwrite. */
  predicate Fair(y: Sys, e: Event) {
    match e
    case Pins(remote, force, mtime) =>
      Norm(remote) && (remote in y.r.tree ==> File(y.r.tree[remote].bytes, mtime).StampOf() !in y.used)
    case Unpins(_, _, _) => true
    case Edits(_, file) => file.StampOf() !in y.used
    case Erases(_) => true
    case RenamesOnDrive(source, target, rows) =>
      && Movable(y.s, source, target) && Selects(rows, y.s.pins, source)
      && RenameOrMove(y.r, source, target).0.Ok?
      && ArrivalOk(y, source, target)
    case MovesLocally(from, to, owner) =>
      && y.job.Idle? && Possible(World(y.s, y.r, map[]), DoMoveLocal(from, to, owner))
      && RemotelyDone(World(y.s, y.r, map[]), DoMoveLocal(from, to, owner))
      && (owner.Some? ==>
            var target := RemotePathForLocal(y.s.root, to).value;
            && RemoteParent(target) != "/" && target !in y.s.pins
            && forall p :: p in y.s.pins && p != owner.value ==> !Under(owner.value, p) && !Under(target, p))
    case Deletes(path, rows) => Norm(path) && Selects(rows, y.s.pins, path) && TrashPath(y.r, path).0.Ok?
    case SaveUploads(remote, _) => Norm(remote)
    case SaveRemoves(_) => true
    case SaveCopies(remote, file) => y.s.root + remote !in y.s.disk && file.StampOf() !in y.used
    case OthersWrite(tree) =>
      WellFormed(tree) && forall q :: q in y.s.pins && q in y.r.tree ==> q in tree && tree[q] == y.r.tree[q]
    case ReadsMetadata(local, owner) =>
      && y.job.Idle? && local in y.s.disk && IsOwner(y.s.pins, local, owner) && owner.Some?
      && NeedsUpload(y.s.pins, owner.value, y.s.disk[local].StampOf())
    case Sends => y.job.Reading?
    case Marks => y.job.Sent?
  }

  function PinStep(y: Sys, remote: string, force: bool, mtime: int): Sys {
    var (s, r, _) := PinPath(y.s, y.r, remote, force, mtime);
    var used := if remote in y.r.tree && s != y.s then {File(y.r.tree[remote].bytes, mtime).StampOf()} else {};
    y.(s := s, r := r, used := y.used + used)
  }

  /** The last part of `upload_if_needed`. */
  function MarkStep(y: Sys): Sys
    requires y.job.Sent?
  {
    y.(s := y.s.(pins := MarkSynced(y.s.pins, y.job.q, y.job.stamp)), job := Idle)
  }

  function WriteStep(y: Sys, local: string, file: File): Sys {
    y.(s := y.s.(disk := y.s.disk[local := file]), used := y.used + {file.StampOf()})
  }

  function EraseStep(y: Sys, local: string): Sys {
    y.(s := y.s.(disk := y.s.disk - {local}))
  }

  ghost function Next(y: Sys, e: Event): Sys
    requires Fair(y, e)
  {
    match e
    case Pins(remote, force, mtime) => PinStep(y, remote, force, mtime)
    case Unpins(remote, force, stuck) => y.(s := Unpin(y.s, remote, force, stuck).0)
    case Edits(local, file) => WriteStep(y, local, file)
    case Erases(local) => EraseStep(y, local)
    case RenamesOnDrive(source, target, rows) =>
      SelectedBelow(rows, y.s.pins, source);
      y.(s := RenameTree(y.s, source, target, rows, {}).0, r := RenameOrMove(y.r, source, target).1)
    case MovesLocally(from, to, owner) =>
      var (s, r, _) := HandleRename(Moved(y.s, from, to), y.r, owner, from, to);
      y.(s := s, r := r)
    case Deletes(path, rows) => y.(s := UnpinRows(y.s, rows, true, {}).0, r := TrashPath(y.r, path).1)
    case SaveUploads(remote, bytes) => SaveUploadStep(y, remote, bytes)
    case SaveRemoves(remote) => EraseStep(y, y.s.root + remote)
    case SaveCopies(remote, file) => WriteStep(y, y.s.root + remote, file)
    case OthersWrite(tree) => y.(r := y.r.(tree := tree))
    case ReadsMetadata(local, owner) => y.(job := Reading(owner.value, local, y.s.disk[local].StampOf()))
    case Sends => SendJob(y)
    case Marks => MarkStep(y)
  }

  lemma {:induction false} LastPartsAre(y: Sys, q: string, local: string, stamp: Stamp)
    requires local in y.s.disk && stamp == y.s.disk[local].StampOf() && NeedsUpload(y.s.pins, q, stamp)
    ensures var y2 := SendJob(y.(job := Reading(q, local, stamp)));
      var y3 := if y2.job.Sent? then MarkStep(y2) else y2;
      var (s, r, res) := UploadIfNeeded(y.s, y.r, Some(q), local);
      y3.s == s && y3.r == r && (res.Ok? <==> y2.job.Sent?)
  {
  }

  /** With nothing in between, the three parts of the daemon's upload are `upload_if_needed`. */
  lemma {:induction false} ThreePartsAreOne(y: Sys, local: string, owner: Option<string>)
    requires Mirror(y.s) && Fair(y, ReadsMetadata(local, owner))
    ensures var y2 := SendJob(Next(y, ReadsMetadata(local, owner)));
      var y3 := if y2.job.Sent? then MarkStep(y2) else y2;
      var (s, r, res) := UploadIfNeeded(y.s, y.r, owner, local);
      y3.s == s && y3.r == r && (res.Ok? <==> y2.job.Sent?)
  {
    LastPartsAre(y, owner.value, local, y.s.disk[local].StampOf());
    assert owner == Some(owner.value);
  }

  /** A user's move between the sending and the recording of an upload, which the daemon comes to after the
      upload, ends like the same move after the upload. */
  lemma {:induction false} MoveDuringUpload(y: Sys, from: string, to: string, owner: Option<string>)
    requires y.job.Sent? && Fair(MarkStep(y), MovesLocally(from, to, owner))
    ensures var y1 := MarkStep(y.(s := Moved(y.s, from, to)));
      var (s, r, _) := HandleRename(y1.s, y1.r, owner, from, to);
      y1.(s := s, r := r) == Next(MarkStep(y), MovesLocally(from, to, owner))
  {
  }

  /** Before the sending: the upload of the moved file gives up, with nothing but its folders made; that of
      any other file is not touched. */
  lemma {:induction false} MoveBeforeSending(y: Sys, from: string, to: string)
    requires y.job.Reading? && from in y.s.disk && to !in y.s.disk && to != y.job.local
    ensures var moved := y.(s := Moved(y.s, from, to));
      SendJob(moved) ==
      if from == y.job.local then moved.(r := EnsureChain(y.r, RemoteParent(y.job.q)).1, job := Idle)
      else SendJob(y).(s := moved.s)
  {
  }

  // ---- The invariant ----------------------------------------------------------------

  /** The pin's file has the recorded stamp. */
  predicate Clean(s: PinState, q: string) {
    q in s.pins && s.root + q in s.disk && s.disk[s.root + q].StampOf() == s.pins[q].stamp
  }

  /** Drive has the pin's local bytes, at its path. */
  predicate OnDrive(s: PinState, tree: Tree, q: string) {
    s.root + q in s.disk && q in tree && !tree[q].entry.isFolder && tree[q].bytes == s.disk[s.root + q].bytes
  }

  ghost predicate Synced(s: PinState, tree: Tree, overtaken: set<Stamp>) {
    forall q :: Clean(s, q) ==> OnDrive(s, tree, q) || s.pins[q].stamp in overtaken
  }

  predicate Tracked(s: PinState, l: string) {
    s.root <= l && l[|s.root|..] in s.pins
  }

  /** A file no pin tracks has none of the recorded stamps, nor the one being uploaded. */
  predicate StraysApart(s: PinState) {
    forall l, q :: l in s.disk && !Tracked(s, l) && q in s.pins ==> s.pins[q].stamp != s.disk[l].StampOf()
  }

  /** No two files have the same stamp. */
  predicate OwnStamps(disk: Disk) {
    forall l, l' :: l in disk && l' in disk && l != l' ==> disk[l].StampOf() != disk[l'].StampOf()
  }

  predicate NoStray(s: PinState, stamp: Stamp) {
    forall l :: l in s.disk && !Tracked(s, l) ==> s.disk[l].StampOf() != stamp
  }

  predicate JobOk(s: PinState, tree: Tree, job: Job, used: set<Stamp>, overtaken: set<Stamp>) {
    match job
    case Idle => true
    case Reading(q, local, stamp) => Norm(q) && local == s.root + q && stamp in used && NoStray(s, stamp)
    case Sent(q, stamp) =>
      && stamp in used && NoStray(s, stamp)
      && (q in s.pins && s.root + q in s.disk && s.disk[s.root + q].StampOf() == stamp ==>
            OnDrive(s, tree, q) || stamp in overtaken)
  }

  predicate Known(s: PinState, used: set<Stamp>) {
    && (forall l :: l in s.disk ==> s.disk[l].StampOf() in used)
    && (forall q :: q in s.pins ==> s.pins[q].stamp in used)
  }

  ghost predicate Inv(y: Sys) {
    && Mirror(y.s) && WellFormed(y.r.tree)
    && Synced(y.s, y.r.tree, y.overtaken) && StraysApart(y.s) && OwnStamps(y.s.disk)
    && JobOk(y.s, y.r.tree, y.job, y.used, y.overtaken) && Known(y.s, y.used) && y.overtaken <= y.used
  }

  lemma {:induction false} TrackedIs(s: PinState, q: string)
    ensures Tracked(s, s.root + q) <==> q in s.pins
  {
    assert (s.root + q)[|s.root|..] == q;
  }

  lemma {:induction false} TrackedBy(s: PinState, l: string) returns (q: string)
    requires Tracked(s, l)
    ensures q in s.pins && l == s.root + q
  {
    q := l[|s.root|..];
    assert l == s.root + q;
  }

  // ---- Changes to one pin or one file -----------------------------------------------

  lemma {:induction false} FreshSynced(y: Sys, q: string, file: File)
    requires Inv(y) && q in y.r.tree && !y.r.tree[q].entry.isFolder && y.r.tree[q].bytes == file.bytes
    ensures Synced(PinState(y.s.root, y.s.pins[q := Pin(y.s.root + q, file.StampOf())], y.s.disk[y.s.root + q := file]),
                   y.r.tree, y.overtaken)
  {
    var l := y.s.root + q;
    var s' := PinState(y.s.root, y.s.pins[q := Pin(l, file.StampOf())], y.s.disk[l := file]);
    forall p | Clean(s', p)
      ensures OnDrive(s', y.r.tree, p) || s'.pins[p].stamp in y.overtaken
    {
      if y.s.root + p == l { RootInjective(y.s.root, p, q); } else { assert Clean(y.s, p); }
    }
  }

  /** The row of `q` is rewritten and its file becomes a new version. */
  lemma {:induction false} FreshRow(y: Sys, q: string, file: File)
    requires Inv(y) && Norm(q) && file.StampOf() !in y.used
    requires q in y.r.tree && !y.r.tree[q].entry.isFolder && y.r.tree[q].bytes == file.bytes
    ensures Inv(y.(s := PinState(y.s.root, y.s.pins[q := Pin(y.s.root + q, file.StampOf())],
                                 y.s.disk[y.s.root + q := file]),
                   used := y.used + {file.StampOf()}))
  {
    var l := y.s.root + q;
    var s' := PinState(y.s.root, y.s.pins[q := Pin(l, file.StampOf())], y.s.disk[l := file]);
    FreshSynced(y, q, file);
    TrackedIs(s', q);
    forall x | x in s'.disk && !Tracked(s', x)
      ensures x in y.s.disk && !Tracked(y.s, x) && s'.disk[x] == y.s.disk[x]
    {
    }
    assert JobOk(s', y.r.tree, y.job, y.used + {file.StampOf()}, y.overtaken) by {
      if y.job.Sent? && y.s.root + y.job.q == l { RootInjective(y.s.root, y.job.q, q); }
    }
  }

  lemma {:induction false} PinsKeeps(y: Sys, remote: string, force: bool, mtime: int)
    requires Inv(y) && Norm(remote)
    requires remote in y.r.tree ==> File(y.r.tree[remote].bytes, mtime).StampOf() !in y.used
    ensures Inv(PinStep(y, remote, force, mtime))
  {
    PinMirrors(y.s, y.r, remote, force, mtime);
    PinLeavesTree(y.s, y.r, remote, force, mtime);
    var y' := PinStep(y, remote, force, mtime);
    if y'.s != y.s {
      FreshRow(y, remote, File(y.r.tree[remote].bytes, mtime));
    }
  }

  lemma {:induction false} PinLeavesTree(s: PinState, r: Remote, remote: string, force: bool, mtime: int)
    ensures PinPath(s, r, remote, force, mtime).1.tree == r.tree
  {
  }

  lemma {:induction false} UnpinsKeeps(y: Sys, e: Event)
    requires Inv(y) && e.Unpins? && Fair(y, e)
    ensures Inv(Next(y, e))
  {
    UnpinKeeps(y.s, e.remote, e.force, e.stuck);
    FewerKeeps(y, Unpin(y.s, e.remote, e.force, e.stuck).0);
  }

  /** `s'` is `s` with some pins gone along with their files, and maybe other files gone. */
  ghost predicate Fewer(s: PinState, s': PinState) {
    && s'.root == s.root
    && (forall q :: q in s'.pins ==> q in s.pins && s'.pins[q] == s.pins[q])
    && (forall l :: l in s'.disk ==> l in s.disk && s'.disk[l] == s.disk[l])
    && (forall l :: l in s'.disk && Tracked(s, l) ==> Tracked(s', l))
  }

  lemma {:induction false} UnpinKeeps(s: PinState, remote: string, force: bool, stuck: set<string>)
    requires Mirror(s)
    ensures Fewer(s, Unpin(s, remote, force, stuck).0)
    ensures remote in s.pins && s.root + remote !in s.disk ==> remote !in Unpin(s, remote, force, stuck).0.pins
  {
    var s' := Unpin(s, remote, force, stuck).0;
    forall l | l in s'.disk && Tracked(s, l)
      ensures Tracked(s', l)
    {
      var q := TrackedBy(s, l);
    }
  }

  lemma {:induction false} FewerKeeps(y: Sys, s': PinState)
    requires Inv(y) && Fewer(y.s, s')
    ensures Inv(y.(s := s'))
  {
    forall q | Clean(s', q)
      ensures OnDrive(s', y.r.tree, q) || s'.pins[q].stamp in y.overtaken
    {
      assert Clean(y.s, q);
    }
  }

  lemma {:induction false} WritesKeeps(y: Sys, local: string, file: File)
    requires Inv(y) && file.StampOf() !in y.used
    ensures Inv(WriteStep(y, local, file))
  {
    var s' := WriteStep(y, local, file).s;
    forall q | Clean(s', q)
      ensures OnDrive(s', y.r.tree, q) || s'.pins[q].stamp in y.overtaken
    {
      assert y.s.root + q != local;
      assert Clean(y.s, q);
    }
    forall l | l in s'.disk && !Tracked(s', l)
      ensures l == local || (l in y.s.disk && !Tracked(y.s, l) && s'.disk[l] == y.s.disk[l])
    {
    }
  }

  lemma {:induction false} ErasesKeeps(y: Sys, local: string)
    requires Inv(y)
    ensures Inv(EraseStep(y, local))
  {
    FewerKeeps(y, y.s.(disk := y.s.disk - {local}));
  }

  // ---- Renames ----------------------------------------------------------------------

  /** What a clean pin after the rename was before it. */
  lemma {:induction false} RenameClean(s: PinState, tree: Tree, src: string, dst: string, k: string) returns (q: string)
    requires Movable(s, src, dst) && StraysApart(s) && Clean(After(s, Subtree(s.pins, src), src, dst), k)
    ensures var s1, tree1 := After(s, Subtree(s.pins, src), src, dst), Relocate(tree, src, dst);
      Clean(s, q) && s1.pins[k].stamp == s.pins[q].stamp && (OnDrive(s, tree, q) ==> OnDrive(s1, tree1, k))
  {
    if Under(dst, k) {
      q := Rekey(dst, src, k);
      CleanArrival(s, tree, src, dst, k);
    } else {
      q := k;
      StayedFile(s, tree, src, dst, k);
    }
  }

  lemma {:induction false} CleanArrival(s: PinState, tree: Tree, src: string, dst: string, k: string)
    requires Movable(s, src, dst) && StraysApart(s) && Clean(After(s, Subtree(s.pins, src), src, dst), k) &&
             Under(dst, k)
    ensures var s1, tree1 := After(s, Subtree(s.pins, src), src, dst), Relocate(tree, src, dst);
      var q := Rekey(dst, src, k);
      Clean(s, q) && s1.pins[k].stamp == s.pins[q].stamp && (OnDrive(s, tree, q) ==> OnDrive(s1, tree1, k))
  {
    var q := Rekey(dst, src, k);
    assert Arrived(Subtree(s.pins, src), src, dst, k);
    ArrivedIs(Subtree(s.pins, src), src, dst, k);
    AfterPathByPath(s, src, dst, q);
    if s.root + q in s.disk {
      assert q in tree ==> q in Subtree(tree, src) && Arrived(Subtree(tree, src), src, dst, k);
    } else {
      DisjointTrees(src, dst, k);
      AfterElsewhere(s, src, dst, k);
      TrackedIs(s, k);
    }
  }

  lemma {:induction false} RenameSynced(s: PinState, tree: Tree, overtaken: set<Stamp>, src: string, dst: string)
    requires Movable(s, src, dst) && Synced(s, tree, overtaken) && StraysApart(s)
    ensures Synced(After(s, Subtree(s.pins, src), src, dst), Relocate(tree, src, dst), overtaken)
  {
    var s1, tree1 := After(s, Subtree(s.pins, src), src, dst), Relocate(tree, src, dst);
    forall k | Clean(s1, k)
      ensures OnDrive(s1, tree1, k) || s1.pins[k].stamp in overtaken
    {
      var q := RenameClean(s, tree, src, dst, k);
    }
  }

  lemma {:induction false} RenameStrays(s: PinState, src: string, dst: string, l: string)
    requires Movable(s, src, dst)
    requires var s1 := After(s, Subtree(s.pins, src), src, dst);
      l in s1.disk && !Tracked(s1, l)
    ensures l in s.disk && !Tracked(s, l) && After(s, Subtree(s.pins, src), src, dst).disk[l] == s.disk[l]
  {
    var done := Subtree(s.pins, src);
    var s1 := After(s, done, src, dst);
    AfterFileByFile(s, src, dst, l);
    if q :| CopyOf(s, src, dst, q, l) && q in done {
      AfterPathByPath(s, src, dst, q);
      TrackedIs(s1, Rekey(src, dst, q));
    }
    if Tracked(s, l) {
      var q := TrackedBy(s, l);
      TrackedIs(s1, q);
      AfterPathByPath(s, src, dst, q);
    }
  }

  lemma {:induction false} RenameStamps(s: PinState, src: string, dst: string, k: string) returns (q: string)
    requires Movable(s, src, dst) && k in AfterPins(s, Subtree(s.pins, src), src, dst)
    ensures q in s.pins && AfterPins(s, Subtree(s.pins, src), src, dst)[k].stamp == s.pins[q].stamp
  {
    q := if Arrived(Subtree(s.pins, src), src, dst, k) then Rekey(dst, src, k) else k;
  }

  /** A file at `q` after the rename, for a pinned `q` in the new tree: it came along, or no pin's file did. */
  lemma {:induction false} ArrivedFile(s: PinState, tree: Tree, src: string, dst: string, q: string)
    requires Movable(s, src, dst) && WellFormed(tree) && dst !in tree && Under(dst, q)
    ensures var s1, tree1 := After(s, Subtree(s.pins, src), src, dst), Relocate(tree, src, dst);
      var x := Rekey(dst, src, q);
      && (q in s1.pins <==> x in s.pins)
      && (x in s.pins && s.root + x in s.disk ==>
            s.root + q in s1.disk && s1.disk[s.root + q] == s.disk[s.root + x] &&
            (OnDrive(s1, tree1, q) <==> OnDrive(s, tree, x)))
      && (x in s.pins && s.root + x !in s.disk && s.root + q in s1.disk ==>
            s.root + q in s.disk && !Tracked(s, s.root + q) && s1.disk[s.root + q] == s.disk[s.root + q])
  {
    var x := Rekey(dst, src, q);
    RekeyUnder(dst, src, q);
    NothingBelowAbsent(tree, dst);
    DisjointTrees(src, dst, q);
    assert q in Relocate(tree, src, dst) <==> x in tree by {
      assert q in tree ==> q in Subtree(tree, dst);
    }
    if x in s.pins {
      AfterPathByPath(s, src, dst, x);
      if s.root + x !in s.disk {
        AfterElsewhere(s, src, dst, q);
        TrackedIs(s, q);
      }
    }
  }

  lemma {:induction false} RenameNoStray(s: PinState, src: string, dst: string, stamp: Stamp)
    requires Movable(s, src, dst) && NoStray(s, stamp)
    ensures NoStray(After(s, Subtree(s.pins, src), src, dst), stamp)
  {
    var s1 := After(s, Subtree(s.pins, src), src, dst);
    forall l | l in s1.disk && !Tracked(s1, l)
      ensures s1.disk[l].StampOf() != stamp
    {
      RenameStrays(s, src, dst, l);
    }
  }

  /** The pending record stays right through a rename exactly under the guard. */
  lemma {:induction false} RenameJobIff(y: Sys, src: string, dst: string)
    requires Movable(y.s, src, dst) && WellFormed(y.r.tree) && dst !in y.r.tree
    requires JobOk(y.s, y.r.tree, y.job, y.used, y.overtaken)
    ensures JobOk(After(y.s, Subtree(y.s.pins, src), src, dst), Relocate(y.r.tree, src, dst), y.job, y.used,
                  y.overtaken)
            <==> ArrivalOk(y, src, dst)
  {
    if !y.job.Idle? {
      RenameNoStray(y.s, src, dst, y.job.stamp);
    }
    if y.job.Sent? {
      if Under(dst, y.job.q) {
        ArrivedFile(y.s, y.r.tree, src, dst, y.job.q);
      } else {
        StayedFile(y.s, y.r.tree, src, dst, y.job.q);
      }
    }
  }

  lemma {:induction false} StayedFile(s: PinState, tree: Tree, src: string, dst: string, q: string)
    requires Movable(s, src, dst) && !Under(dst, q)
    ensures var s1, tree1 := After(s, Subtree(s.pins, src), src, dst), Relocate(tree, src, dst);
      q in s1.pins ==>
        && q in s.pins && (s.root + q in s1.disk <==> s.root + q in s.disk)
        && (s.root + q in s.disk ==> s1.disk[s.root + q] == s.disk[s.root + q])
        && (OnDrive(s1, tree1, q) <==> OnDrive(s, tree, q))
  {
    if q in After(s, Subtree(s.pins, src), src, dst).pins {
      assert q in s.pins && q !in Subtree(s.pins, src);
      AfterElsewhere(s, src, dst, q);
    }
  }

  lemma {:induction false} RenameKnown(s: PinState, used: set<Stamp>, src: string, dst: string)
    requires Movable(s, src, dst) && Known(s, used)
    ensures Known(After(s, Subtree(s.pins, src), src, dst), used)
  {
    var s1 := After(s, Subtree(s.pins, src), src, dst);
    forall l | l in s1.disk
      ensures s1.disk[l].StampOf() in used
    {
      AfterFileByFile(s, src, dst, l);
    }
    forall k | k in s1.pins
      ensures s1.pins[k].stamp in used
    {
      var q := RenameStamps(s, src, dst, k);
    }
  }

  lemma {:induction false} RenameOwnStamps(s: PinState, src: string, dst: string)
    requires Movable(s, src, dst) && OwnStamps(s.disk)
    ensures OwnStamps(AfterDisk(s, Subtree(s.pins, src), src, dst))
  {
    var disk1 := AfterDisk(s, Subtree(s.pins, src), src, dst);
    forall l, l' | l in disk1 && l' in disk1 && l != l'
      ensures disk1[l].StampOf() != disk1[l'].StampOf()
    {
      var x := RenameOrigin(s, src, dst, l);
      var x' := RenameOrigin(s, src, dst, l');
    }
  }

  /** Distinct files come from distinct files. */
  lemma {:induction false} RenameOrigin(s: PinState, src: string, dst: string, l: string) returns (x: string)
    requires Movable(s, src, dst) && l in AfterDisk(s, Subtree(s.pins, src), src, dst)
    ensures x in s.disk && AfterDisk(s, Subtree(s.pins, src), src, dst)[l] == s.disk[x]
    ensures l == if x in Copies(s.root, s.disk, Subtree(s.pins, src)) && |s.root + src| <= |x|
            then Rekey(s.root + src, s.root + dst, x) else x
  {
    var done := Subtree(s.pins, src);
    AfterFileByFile(s, src, dst, l);
    if q :| CopyOf(s, src, dst, q, l) && q in done && AfterDisk(s, done, src, dst)[l] == s.disk[s.root + q] {
      x := s.root + q;
      LocalTree(s.root, src, dst, q);
    } else {
      x := l;
    }
  }

  lemma {:induction false} RenamesOutcome(y: Sys, e: Event)
    requires WellFormed(y.r.tree) && e.RenamesOnDrive? && Fair(y, e)
    ensures var y' := Next(y, e);
      && y'.s == After(y.s, Subtree(y.s.pins, e.source), e.source, e.target)
      && y'.r.tree == Relocate(y.r.tree, e.source, e.target) && WellFormed(y'.r.tree)
      && e.source in y.r.tree && e.target !in y.r.tree
      && y'.job == y.job && y'.used == y.used && y'.overtaken == y.overtaken
  {
    var n := RenameTreeMoves(y.s, e.source, e.target, e.rows, {});
    RenameOrMoveRelocates(y.r, e.source, e.target);
    RenameOrMoveKeepsWellFormed(y.r, e.source, e.target);
  }

  lemma {:induction false} RenamesKeeps(y: Sys, e: Event)
    requires Inv(y) && e.RenamesOnDrive? && Fair(y, e)
    ensures Inv(Next(y, e))
  {
    RenamesOutcome(y, e);
    RenameKeepsInv(y, e.source, e.target, Next(y, e));
  }

  lemma {:induction false} RenameKeepsInv(y: Sys, src: string, dst: string, y': Sys)
    requires Inv(y) && Movable(y.s, src, dst) && dst !in y.r.tree && ArrivalOk(y, src, dst)
    requires y'.s == After(y.s, Subtree(y.s.pins, src), src, dst)
    requires y'.r.tree == Relocate(y.r.tree, src, dst) && WellFormed(y'.r.tree)
    requires y'.job == y.job && y'.used == y.used && y'.overtaken == y.overtaken
    ensures Inv(y')
  {
    var done := Subtree(y.s.pins, src);
    var s1 := After(y.s, done, src, dst);
    AfterMirrors(y.s, done, src, dst);
    RenameSynced(y.s, y.r.tree, y.overtaken, src, dst);
    RenameJobIff(y, src, dst);
    RenameKnown(y.s, y.used, src, dst);
    RenameOwnStamps(y.s, src, dst);
    forall l, k | l in s1.disk && !Tracked(s1, l) && k in s1.pins
      ensures s1.pins[k].stamp != s1.disk[l].StampOf()
    {
      RenameStrays(y.s, src, dst, l);
      var q := RenameStamps(y.s, src, dst, k);
    }
  }

  /** A user's move of an untracked file changes no row. */
  lemma {:induction false} StrayMoves(y: Sys, from: string, to: string)
    requires Inv(y) && y.job.Idle? && from in y.s.disk && to !in y.s.disk && !Tracked(y.s, from)
    ensures Inv(y.(s := Moved(y.s, from, to)))
  {
    var s' := Moved(y.s, from, to);
    forall q | Clean(s', q)
      ensures OnDrive(s', y.r.tree, q) || s'.pins[q].stamp in y.overtaken
    {
      assert y.s.root + q != to by { TrackedIs(y.s, q); }
      assert Clean(y.s, q);
    }
    forall l, q | l in s'.disk && !Tracked(s', l) && q in s'.pins
      ensures s'.pins[q].stamp != s'.disk[l].StampOf()
    {
      var x := if l == to then from else l;
      assert x in y.s.disk && !Tracked(y.s, x) && y.s.disk[x] == s'.disk[l];
    }
  }

  function TrackedMoved(s: PinState, q: string, target: string): PinState
    requires q in s.pins && s.root + q in s.disk
  {
    PinState(s.root, (s.pins - {q})[target := s.pins[q].(local := s.root + target)],
             (s.disk - {s.root + q})[s.root + target := s.disk[s.root + q]])
  }

  lemma {:induction false} TrackedSynced(y: Sys, q: string, target: string, tree1: Tree)
    requires Inv(y) && q in y.s.pins && target !in y.s.pins
    requires y.s.root + q in y.s.disk && y.s.root + target !in y.s.disk
    requires forall p :: p in y.s.pins && p != q ==> !Under(q, p) && !Under(target, p)
    requires forall p :: p in y.r.tree ==> p in tree1 && tree1[p] == y.r.tree[p]
    ensures Synced(TrackedMoved(y.s, q, target), Relocate(tree1, q, target), y.overtaken)
  {
    var s', tree' := TrackedMoved(y.s, q, target), Relocate(tree1, q, target);
    forall p | Clean(s', p)
      ensures OnDrive(s', tree', p) || s'.pins[p].stamp in y.overtaken
    {
      if p == target {
        assert Clean(y.s, q);
        if OnDrive(y.s, y.r.tree, q) {
          assert Arrived(Subtree(tree1, q), q, target, target) by { assert Rekey(target, q, target) == q; }
        }
      } else {
        if y.s.root + p == y.s.root + target { RootInjective(y.s.root, p, target); }
        assert Clean(y.s, p);
      }
    }
  }

  lemma {:induction false} TrackedStamps(s: PinState, q: string, target: string, used: set<Stamp>)
    requires q in s.pins && s.root + q in s.disk && s.root + target !in s.disk && target !in s.pins
    requires StraysApart(s) && OwnStamps(s.disk) && Known(s, used)
    ensures var s' := TrackedMoved(s, q, target);
      StraysApart(s') && OwnStamps(s'.disk) && Known(s', used)
  {
    var s' := TrackedMoved(s, q, target);
    TrackedIs(s', target);
    forall l | l in s'.disk && !Tracked(s', l)
      ensures l in s.disk && !Tracked(s, l) && s'.disk[l] == s.disk[l]
    {
      if Tracked(s, l) { var p := TrackedBy(s, l); TrackedIs(s', p); }
    }
  }

  /** A tracked file, its row and its Drive node move together. */
  lemma {:induction false} TrackedMoves(y: Sys, q: string, target: string, tree1: Tree)
    requires Inv(y) && y.job.Idle? && q in y.s.pins && Norm(target) && target !in y.s.pins
    requires y.s.root + q in y.s.disk && y.s.root + target !in y.s.disk
    requires forall p :: p in y.s.pins && p != q ==> !Under(q, p) && !Under(target, p)
    requires forall p :: p in y.r.tree ==> p in tree1 && tree1[p] == y.r.tree[p]
    requires WellFormed(Relocate(tree1, q, target))
    ensures Inv(y.(s := TrackedMoved(y.s, q, target), r := y.r.(tree := Relocate(tree1, q, target))))
  {
    TrackedSynced(y, q, target, tree1);
    TrackedStamps(y.s, q, target, y.used);
    TrackedMirrors(y.s, q, target);
  }

  lemma {:induction false} TrackedMirrors(s: PinState, q: string, target: string)
    requires Mirror(s) && q in s.pins && s.root + q in s.disk && Norm(target)
    ensures Mirror(TrackedMoved(s, q, target))
  {
  }

  lemma {:induction false} MovesKeeps(y: Sys, e: Event)
    requires Inv(y) && e.MovesLocally? && Fair(y, e)
    ensures Inv(Next(y, e))
  {
    var target := RemotePathForLocal(y.s.root, e.to).value;
    MirrorOwner(y.s, e.from, e.owner);
    if e.owner.None? {
      if Tracked(y.s, e.from) { var q := TrackedBy(y.s, e.from); }
      StrayMoves(y, e.from, e.to);
    } else {
      var q := e.owner.value;
      HandleRenameRelocates(y.r, y.s.root, q, target);
      var (res, r') := RemoteRename(y.r, q, target, BaseName(e.from), BaseName(e.to));
      var tree1 := EnsureChain(y.r, RemoteParent(target)).1.tree;
      TrackedMoves(y, q, target, tree1);
      var y' := Next(y, e);
      assert y'.r == r' && r'.tree == Relocate(tree1, q, target);
    }
  }

  // ---- Deletions and saves ----------------------------------------------------------

  lemma {:induction false} FewerTrans(s0: PinState, s1: PinState, s2: PinState)
    requires Fewer(s0, s1) && Fewer(s1, s2)
    ensures Fewer(s0, s2)
  {
  }

  lemma {:induction false} UnpinRowsForced(s: PinState, rows: seq<string>)
    requires Mirror(s)
    ensures var s' := UnpinRows(s, rows, true, {}).0;
      Fewer(s, s') && Mirror(s') && forall i :: 0 <= i < |rows| ==> rows[i] !in s'.pins
    decreases |rows|
  {
    if rows != [] {
      UnpinKeeps(s, rows[0], true, {});
      var s1 := Unpin(s, rows[0], true, {}).0;
      UnpinRowsForced(s1, rows[1..]);
      var s' := UnpinRows(s, rows, true, {}).0;
      FewerTrans(s, s1, s');
      forall i | 0 <= i < |rows|
        ensures rows[i] !in s'.pins
      {
        if i > 0 { assert rows[1..][i - 1] == rows[i]; }
      }
    }
  }

  lemma {:induction false} DeletesKeeps(y: Sys, e: Event)
    requires Inv(y) && e.Deletes? && Fair(y, e)
    ensures Inv(Next(y, e))
  {
    SelectedBelow(e.rows, y.s.pins, e.path);
    NormPlain(e.path);
    UnpinRowsForced(y.s, e.rows);
    TrashKeepsWellFormed(y.r.tree, e.path);
    var y1 := y.(s := UnpinRows(y.s, e.rows, true, {}).0);
    FewerKeeps(y, y1.s);
    TreeKeeps(y1, TrashPath(y.r, e.path).1);
  }

  /** Only Drive changed, and not at a pinned path. */
  lemma {:induction false} TreeKeeps(y: Sys, r': Remote)
    requires Inv(y) && WellFormed(r'.tree)
    requires forall q :: q in y.s.pins && q in y.r.tree ==> q in r'.tree && r'.tree[q] == y.r.tree[q]
    ensures Inv(y.(r := r'))
  {
    forall q | Clean(y.s, q)
      ensures OnDrive(y.s, r'.tree, q) || y.s.pins[q].stamp in y.overtaken
    {
      assert OnDrive(y.s, y.r.tree, q) || y.s.pins[q].stamp in y.overtaken;
    }
  }

  /** Drive's copy of `q` is replaced; a local copy with other bytes counts as overtaken from now on. */
  lemma {:induction false} NodeKeeps(y: Sys, q: string, r': Remote, bytes: Bytes)
    requires Inv(y) && Norm(q) && Uploaded(y.r.tree, r'.tree, q, bytes)
    ensures Inv(y.(r := r', overtaken := y.overtaken + Overtakes(y.s, q, bytes)))
  {
    var over := y.overtaken + Overtakes(y.s, q, bytes);
    forall p | Clean(y.s, p)
      ensures OnDrive(y.s, r'.tree, p) || y.s.pins[p].stamp in over
    {
      if OnDrive(y.s, y.r.tree, p) { OthersStay(y.s, y.r.tree, r'.tree, q, bytes, p); }
    }
    if y.job.Sent? && OnDrive(y.s, y.r.tree, y.job.q) {
      OthersStay(y.s, y.r.tree, r'.tree, q, bytes, y.job.q);
    }
    assert WellFormed(r'.tree);
  }

  lemma {:induction false} OthersStay(s: PinState, tree: Tree, tree': Tree, q: string, bytes: Bytes, p: string)
    requires Uploaded(tree, tree', q, bytes) && OnDrive(s, tree, p)
    ensures OnDrive(s, tree', p) || s.disk[s.root + p].StampOf() in Overtakes(s, q, bytes)
  {
  }

  /** An upload of the file's own bytes: its version is no longer overtaken. */
  lemma {:induction false} SentClears(y: Sys, q: string, r': Remote)
    requires Inv(y) && y.job.Idle? && Norm(q) && y.s.root + q in y.s.disk
    requires Uploaded(y.r.tree, r'.tree, q, y.s.disk[y.s.root + q].bytes)
    ensures Inv(y.(r := r', overtaken := y.overtaken - {y.s.disk[y.s.root + q].StampOf()}))
  {
    var stamp := y.s.disk[y.s.root + q].StampOf();
    forall p | Clean(y.s, p)
      ensures OnDrive(y.s, r'.tree, p) || y.s.pins[p].stamp in y.overtaken - {stamp}
    {
      if y.s.disk[y.s.root + p].StampOf() == stamp { RootInjective(y.s.root, p, q); }
      assert OnDrive(y.s, y.r.tree, p) || y.s.pins[p].stamp in y.overtaken;
    }
    assert WellFormed(r'.tree);
  }

  /** Only the node at `q` changed: it is a file with these bytes in an existing folder. */
  predicate Uploaded(tree: Tree, tree': Tree, q: string, bytes: Bytes) {
    && q in tree' && tree' == tree[q := tree'[q]] && !tree'[q].entry.isFolder && tree'[q].bytes == bytes
    && (RemoteParent(q) == "/" || RemoteParent(q) in tree)
  }

  lemma {:induction false} UploadLands(r: Remote, local: string, bytes: Bytes, parent: string)
    requires UploadFile(r, local, bytes, parent).0.Ok?
    ensures var p := Child(parent, BaseName(local));
      UploadFile(r, local, bytes, parent).1.tree == r.tree[p := NewVersion(r, p, bytes)]
    ensures FolderAt(r.tree, parent)
  {
  }

  lemma {:induction false} UploadFails(r: Remote, local: string, bytes: Bytes, parent: string)
    requires UploadFile(r, local, bytes, parent).0.Err?
    ensures UploadFile(r, local, bytes, parent).1.tree == r.tree
  {
  }

  lemma {:induction false} UploadIs(r: Remote, local: string, bytes: Bytes, q: string)
    requires Child(RemoteParent(q), BaseName(local)) == q
    ensures var (sent, r') := UploadFile(r, local, bytes, RemoteParent(q));
      if sent.Ok? then Uploaded(r.tree, r'.tree, q, bytes) else r'.tree == r.tree
  {
    if UploadFile(r, local, bytes, RemoteParent(q)).0.Ok? {
      UploadLands(r, local, bytes, RemoteParent(q));
      NodePut(r.tree, q, NewVersion(r, q, bytes));
    } else {
      UploadFails(r, local, bytes, RemoteParent(q));
    }
  }

  lemma {:induction false} NodePut(tree: Tree, q: string, node: Node)
    requires !node.entry.isFolder && (RemoteParent(q) == "/" || RemoteParent(q) in tree)
    ensures Uploaded(tree, tree[q := node], q, node.bytes)
  {
  }

  lemma {:induction false} SaveOutcome(r: Remote, q: string, bytes: Bytes)
    requires Norm(q)
    ensures var (res, r') := SaveOnDrive(r, q, bytes);
      if res.Ok? then Uploaded(r.tree, r'.tree, q, bytes) else r'.tree == r.tree
  {
    SaveTarget(q);
    UploadIs(r, "/tmp/" + BaseName(q), bytes, q);
  }

  lemma {:induction false} SaveTarget(remote: string)
    requires Norm(remote)
    ensures Child(RemoteParent(remote), BaseName("/tmp/" + BaseName(remote))) == remote
  {
    ChildOfParent(remote);
    BaseNameBelow("", "/tmp", BaseName(remote));
    assert "" + ("/tmp" + "/" + BaseName(remote)) == "/tmp/" + BaseName(remote);
  }

  lemma {:induction false} SaveUploadsKeeps(y: Sys, remote: string, bytes: Bytes)
    requires Inv(y) && Norm(remote)
    ensures Inv(SaveUploadStep(y, remote, bytes))
  {
    SaveOutcome(y.r, remote, bytes);
    var (res, r') := SaveOnDrive(y.r, remote, bytes);
    if res.Err? {
      SameTreeKeeps(y, r');
    } else {
      NodeKeeps(y, remote, r', bytes);
    }
  }

  lemma {:induction false} SameTreeKeeps(y: Sys, r': Remote)
    requires Inv(y) && r'.tree == y.r.tree
    ensures Inv(y.(r := r'))
  {
  }

  // ---- The upload -------------------------------------------------------------------

  lemma {:induction false} ReadsKeeps(y: Sys, e: Event)
    requires Inv(y) && e.ReadsMetadata? && Fair(y, e)
    ensures Inv(Next(y, e))
  {
    MirrorOwner(y.s, e.local, e.owner);
    TrackedIs(y.s, e.owner.value);
    assert NoStray(y.s, y.s.disk[e.local].StampOf());
  }

  lemma {:induction false} ChainKeeps(y: Sys, dir: string)
    requires Inv(y) && IsDir(dir)
    ensures Inv(y.(r := EnsureChain(y.r, dir).1))
    ensures forall p :: p in y.r.tree ==> p in EnsureChain(y.r, dir).1.tree
  {
    if dir == "/" {
      assert Text.Split("/", '/') == ["", ""];
      assert Segs("/") == [];
    } else {
      EnsureChainExists(y.r, dir);
      TreeKeeps(y, EnsureChain(y.r, dir).1);
    }
  }

  lemma {:induction false} SendOutcome(y: Sys)
    requires y.job.Reading? && Norm(y.job.q) && y.job.local == y.s.root + y.job.q
    ensures var (q, local, y') := (y.job.q, y.job.local, SendJob(y));
      var tree1 := EnsureChain(y.r, RemoteParent(q)).1.tree;
      && y'.s == y.s && y'.used == y.used
      && ((y'.job == Idle && y'.r.tree == tree1 && y'.overtaken == y.overtaken) ||
          (local in y.s.disk && y'.job == Sent(q, y.job.stamp) &&
            Uploaded(tree1, y'.r.tree, q, y.s.disk[local].bytes) &&
           y'.overtaken == y.overtaken - {y.s.disk[local].StampOf()}))
  {
    UploadTarget(y.s.root, y.job.q);
    if y.job.local in y.s.disk {
      UploadIs(EnsureChain(y.r, RemoteParent(y.job.q)).1, y.job.local, y.s.disk[y.job.local].bytes, y.job.q);
    }
  }

  lemma {:induction false} SendsKeeps(y: Sys, e: Event)
    requires Inv(y) && e.Sends? && Fair(y, e)
    ensures Inv(Next(y, e))
  {
    ChildOfParent(y.job.q);
    ChainKeeps(y, RemoteParent(y.job.q));
    SendOutcome(y);
    var r1 := EnsureChain(y.r, RemoteParent(y.job.q)).1;
    IdleKeeps(y.(r := r1));
    SentOrIdle(y, y.(r := r1, job := Idle), Next(y, e));
  }

  lemma {:induction false} SentOrIdle(y: Sys, y1: Sys, y': Sys)
    requires Inv(y) && y.job.Reading? && Inv(y1) && y1.job.Idle? && y1.s == y.s == y'.s && y1.used == y.used == y'.used
    requires y1.overtaken == y.overtaken
    requires
      || (y'.job == Idle && y'.r.tree == y1.r.tree && y'.overtaken == y.overtaken)
      || (y.job.local in y.s.disk && y'.job == Sent(y.job.q, y.job.stamp) &&
          Uploaded(y1.r.tree, y'.r.tree, y.job.q, y.s.disk[y.job.local].bytes) &&
          y'.overtaken == y.overtaken - {y.s.disk[y.job.local].StampOf()})
    ensures Inv(y')
  {
    if y'.job.Idle? {
      SameTreeKeeps(y1, y'.r);
    } else {
      SentClears(y1, y.job.q, y'.r);
      SentKeeps(y1.(r := y'.r, overtaken := y'.overtaken), y.job.q, y.job.stamp);
    }
  }

  lemma {:induction false} IdleKeeps(y: Sys)
    requires Inv(y)
    ensures Inv(y.(job := Idle))
  {
  }

  lemma {:induction false} SentKeeps(y: Sys, q: string, stamp: Stamp)
    requires Inv(y) && stamp in y.used && NoStray(y.s, stamp) && OnDrive(y.s, y.r.tree, q)
    ensures Inv(y.(job := Sent(q, stamp)))
  {
  }

  lemma {:induction false} MarksKeeps(y: Sys)
    requires Inv(y) && y.job.Sent?
    ensures Inv(MarkStep(y))
  {
    var y' := MarkStep(y);
    forall q | Clean(y'.s, q)
      ensures OnDrive(y'.s, y'.r.tree, q) || y'.s.pins[q].stamp in y'.overtaken
    {
      if q != y.job.q { assert Clean(y.s, q); }
      assert OnDrive(y.s, y.r.tree, q) || y'.s.pins[q].stamp in y.overtaken;
    }
    forall l | l in y'.s.disk && !Tracked(y'.s, l)
      ensures !Tracked(y.s, l)
    {
    }
  }

  lemma {:induction false} NextKeepsInv(y: Sys, e: Event)
    requires Inv(y) && Fair(y, e)
    ensures Inv(Next(y, e))
  {
    match e
    case Pins(remote, force, mtime) => PinsKeeps(y, remote, force, mtime);
    case Unpins(_, _, _) => UnpinsKeeps(y, e);
    case Edits(local, file) => WritesKeeps(y, local, file);
    case Erases(local) => ErasesKeeps(y, local);
    case RenamesOnDrive(_, _, _) => RenamesKeeps(y, e);
    case MovesLocally(_, _, _) => MovesKeeps(y, e);
    case Deletes(_, _) => DeletesKeeps(y, e);
    case SaveUploads(remote, bytes) => SaveUploadsKeeps(y, remote, bytes);
    case SaveRemoves(remote) => ErasesKeeps(y, y.s.root + remote);
    case SaveCopies(remote, file) => WritesKeeps(y, y.s.root + remote, file);
    case OthersWrite(tree) => TreeKeeps(y, y.r.(tree := tree));
    case ReadsMetadata(_, _) => ReadsKeeps(y, e);
    case Sends => SendsKeeps(y, e);
    case Marks => MarksKeeps(y);
  }

  ghost predicate FairRun(y: Sys, events: seq<Event>)
    decreases |events|
  {
    events == [] || (Fair(y, events[0]) && FairRun(Next(y, events[0]), events[1..]))
  }

  ghost function End(y: Sys, events: seq<Event>): Sys
    requires FairRun(y, events)
    decreases |events|
  {
    if events == [] then y else End(Next(y, events[0]), events[1..])
  }

  /** In every fair run, a pin whose recorded stamp is its file's stamp has its local bytes at
      exactly its Drive path, even when edits fall between the parts of an upload, unless a save
      replaced this very version on Drive and left it on disk. */
  lemma {:induction false} CleanMeansOnDrive(y: Sys, events: seq<Event>, q: string)
    requires Inv(y) && FairRun(y, events)
    ensures var y' := End(y, events);
      Clean(y'.s, q) ==> OnDrive(y'.s, y'.r.tree, q) || y'.s.pins[q].stamp in y'.overtaken
    decreases |events|
  {
    if events != [] {
      NextKeepsInv(y, events[0]);
      CleanMeansOnDrive(Next(y, events[0]), events[1..], q);
    }
  }

  /** The run need not start anywhere special: an empty index is in sync with any Drive. */
  lemma {:induction false} StartsInSync(root: string, r: Remote)
    requires ValidRoot(root) && WellFormed(r.tree)
    ensures Inv(Sys(PinState(root, map[], map[]), r, Idle, {}, {}))
  {
  }

  // ---- Saves ------------------------------------------------------------------------

  /** Exactly when an upload by a save leaves every clean pin's bytes on Drive: the pin at that path,
      if there is one, was not clean with other bytes. */
  lemma {:induction false} SaveUploadIff(y: Sys, remote: string, bytes: Bytes)
    requires Inv(y) && Norm(remote) && Synced(y.s, y.r.tree, {}) && SaveOnDrive(y.r, remote, bytes).0.Ok?
    ensures Synced(y.s, SaveUploadStep(y, remote, bytes).r.tree, {}) <==>
            !(Clean(y.s, remote) && y.s.disk[y.s.root + remote].bytes != bytes)
  {
    SaveOutcome(y.r, remote, bytes);
    var tree' := SaveUploadStep(y, remote, bytes).r.tree;
    if Clean(y.s, remote) && y.s.disk[y.s.root + remote].bytes != bytes {
      assert !OnDrive(y.s, tree', remote);
    } else {
      forall p | Clean(y.s, p)
        ensures OnDrive(y.s, tree', p)
      {
        assert OnDrive(y.s, y.r.tree, p);
      }
    }
  }

  /** So a save of other bytes over a clean pin whose old copy is not removed leaves it clean with
      other bytes on Drive. */
  lemma {:induction false} KeptCopyStaysClean(y: Sys, remote: string, bytes: Bytes)
    requires Inv(y) && Norm(remote) && SaveOnDrive(y.r, remote, bytes).0.Ok?
    requires Clean(y.s, remote) && y.s.disk[y.s.root + remote].bytes != bytes
    ensures var y' := SaveUploadStep(y, remote, bytes);
      Clean(y'.s, remote) && !OnDrive(y'.s, y'.r.tree, remote)
  {
    SaveOutcome(y.r, remote, bytes);
  }

  /** Every save whose upload went through goes on to remove the old copy before anything else happens. */
  ghost predicate TidyRun(y: Sys, events: seq<Event>)
    requires FairRun(y, events)
    decreases |events|
  {
    if events == [] then true
    else
      var y1, rest := Next(y, events[0]), events[1..];
      if events[0].SaveUploads? && SaveOnDrive(y.r, events[0].remote, events[0].bytes).0.Ok?
      then rest != [] && rest[0] == SaveRemoves(events[0].remote) && TidyRun(Next(y1, rest[0]), rest[1..])
      else TidyRun(y1, rest)
  }

  predicate NoneOvertaken(y: Sys) {
    forall l :: l in y.s.disk ==> y.s.disk[l].StampOf() !in y.overtaken
  }

  /** The removal takes the one file with that stamp, and no file gets it again. */
  lemma {:induction false} SaveThenRemove(y: Sys, remote: string, bytes: Bytes)
    requires Inv(y) && NoneOvertaken(y)
    ensures NoneOvertaken(EraseStep(SaveUploadStep(y, remote, bytes), y.s.root + remote))
  {
  }

  lemma {:induction false} PinOvertakesNone(y: Sys, remote: string, force: bool, mtime: int)
    requires Inv(y) && NoneOvertaken(y) && Norm(remote)
    requires remote in y.r.tree ==> File(y.r.tree[remote].bytes, mtime).StampOf() !in y.used
    ensures NoneOvertaken(PinStep(y, remote, force, mtime))
  {
    PinMirrors(y.s, y.r, remote, force, mtime);
  }

  lemma {:induction false} RenameOvertakesNone(y: Sys, src: string, dst: string)
    requires Movable(y.s, src, dst) && NoneOvertaken(y)
    ensures NoneOvertaken(y.(s := After(y.s, Subtree(y.s.pins, src), src, dst)))
  {
    forall l | l in After(y.s, Subtree(y.s.pins, src), src, dst).disk
      ensures After(y.s, Subtree(y.s.pins, src), src, dst).disk[l].StampOf() !in y.overtaken
    {
      AfterFileByFile(y.s, src, dst, l);
    }
  }

  lemma {:induction false} StepOvertakesNone(y: Sys, e: Event)
    requires Inv(y) && NoneOvertaken(y) && Fair(y, e)
    requires e.SaveUploads? ==> SaveOnDrive(y.r, e.remote, e.bytes).0.Err?
    ensures NoneOvertaken(Next(y, e))
  {
    match e
    case Pins(remote, force, mtime) => PinOvertakesNone(y, remote, force, mtime);
    case Unpins(remote, force, stuck) => UnpinKeeps(y.s, remote, force, stuck);
    case RenamesOnDrive(source, target, _) =>
      RenamesOutcome(y, e);
      RenameOvertakesNone(y, source, target);
    case MovesLocally(from, to, owner) => HandleRenameDisk(Moved(y.s, from, to), y.r, owner, from, to);
    case Deletes(path, rows) => UnpinRowsForced(y.s, rows);
    case _ =>
  }

  lemma {:induction false} HandleRenameDisk(s: PinState, r: Remote, owner: Option<string>, from: string, to: string)
    ensures HandleRename(s, r, owner, from, to).0.disk == s.disk
  {
  }

  /** When every save that uploads removes the old copy, clean means on Drive, without exception. */
  lemma {:induction false} TidySavesStaySynced(y: Sys, events: seq<Event>, q: string)
    requires Inv(y) && NoneOvertaken(y) && FairRun(y, events) && TidyRun(y, events)
    ensures Clean(End(y, events).s, q) ==> OnDrive(End(y, events).s, End(y, events).r.tree, q)
    decreases |events|
  {
    if events == [] {
      if Clean(y.s, q) { assert y.s.disk[y.s.root + q].StampOf() !in y.overtaken; }
    } else if events[0].SaveUploads? && SaveOnDrive(y.r, events[0].remote, events[0].bytes).0.Ok? {
      var remote, y1, rest := events[0].remote, Next(y, events[0]), events[1..];
      NextKeepsInv(y, events[0]);
      NextKeepsInv(y1, rest[0]);
      SaveThenRemove(y, remote, events[0].bytes);
      assert y1 == SaveUploadStep(y, remote, events[0].bytes) && y1.s == y.s;
      assert Next(y1, rest[0]) == EraseStep(y1, y.s.root + remote);
      TidySavesStaySynced(Next(y1, rest[0]), rest[1..], q);
    } else {
      NextKeepsInv(y, events[0]);
      StepOvertakesNone(y, events[0]);
      TidySavesStaySynced(Next(y, events[0]), events[1..], q);
    }
  }
}
