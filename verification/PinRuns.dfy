/** Runs of pin operations, renames and uploads: the pin table stays a mirror of Drive paths,
    and no unsynced bytes of a pinned file are lost. */
module PinRuns {
  import opened Paths
  import opened Drive
  import opened Calls
  import opened PinStore
  import opened SyncSpec

  /** The pin index and disk, Drive, and the local paths held by the opportunistic file cache. */
  datatype World = World(s: PinState, r: Remote, cached: map<string, string>)

  /** One call by a worker or the daemon, with the query answers and obstacles it meets. */
  datatype Op =
    | DoPin(remote: string, force: bool, mtime: int)
    | DoUnpin(remote: string, force: bool, stuck: set<string>)
    | DoUnpinTree(remote: string, force: bool, rows: seq<string>, stuck: set<string>)
    | DoRenameTree(source: string, target: string, rows: seq<string>, stuck: set<string>)
    | DoMoveLocal(from: string, to: string, owner: Option<string>)
    | DoUpload(local: string, owner: Option<string>)
    | DoEvict(remote: string)

  /** A user's `mv` inside the cache directory, then the daemon's `handle_rename` for it. */
  function Moved(s: PinState, from: string, to: string): PinState
    requires from in s.disk
  {
    s.(disk := (s.disk - {from})[to := s.disk[from]])
  }

  predicate MayMove(s: PinState, from: string, to: string, owner: Option<string>) {
    && from in s.disk && to !in s.disk && IsOwner(s.pins, from, owner)
    && RemotePathForLocal(s.root, to).Some?
    && Norm(RemotePathForLocal(s.root, to).value) && to == s.root + RemotePathForLocal(s.root, to).value
  }

  /** What can happen next: paths are normal, queries answer from the table, and a user does
      not move a file over another one. */
  predicate Possible(w: World, op: Op) {
    match op
    case DoPin(remote, _, _) => Norm(remote)
    case DoUnpin(remote, _, _) => Norm(remote)
    case DoUnpinTree(remote, _, rows, _) => Norm(remote) && Selects(rows, w.s.pins, remote)
    case DoRenameTree(source, target, rows, _) => Norm(source) && Norm(target) && Selects(rows, w.s.pins, source)
    case DoMoveLocal(from, to, owner) => MayMove(w.s, from, to, owner)
    case DoUpload(local, owner) => IsOwner(w.s.pins, local, owner)
    case DoEvict(remote) => remote in w.cached
  }

  lemma {:induction false} SelectedBelow(rows: seq<string>, pins: Rows, path: string)
    requires Norm(path) && Selects(rows, pins, path)
    ensures TrimEnd(path) == path
    ensures forall i :: 0 <= i < |rows| ==> rows[i] in pins && Under(path, rows[i])
  {
    NormPlain(path);
  }

  function MoveLocal(w: World, from: string, to: string, owner: Option<string>): World
    requires from in w.s.disk
  {
    var (s, r, _) := HandleRename(Moved(w.s, from, to), w.r, owner, from, to);
    World(s, r, w.cached)
  }

  ghost function Step(w: World, op: Op): World
    requires Possible(w, op)
  {
    match op
    case DoPin(remote, force, mtime) =>
      var (s, r, _) := PinPath(w.s, w.r, remote, force, mtime);
      World(s, r, w.cached)
    case DoUnpin(remote, force, stuck) => w.(s := Unpin(w.s, remote, force, stuck).0)
    case DoUnpinTree(_, force, rows, stuck) => w.(s := UnpinRows(w.s, rows, force, stuck).0)
    case DoRenameTree(source, target, rows, stuck) =>
      SelectedBelow(rows, w.s.pins, source);
      w.(s := RenameTree(w.s, source, target, rows, stuck).0)
    case DoMoveLocal(from, to, owner) => MoveLocal(w, from, to, owner)
    case DoUpload(local, owner) =>
      var (s, r, _) := UploadIfNeeded(w.s, w.r, owner, local);
      World(s, r, w.cached)
    case DoEvict(remote) =>
      World(w.s.(disk := w.s.disk - {w.cached[remote]}), w.r, w.cached - {remote})
  }

  // ---- The mirror -------------------------------------------------------------------

  /** The Drive side of a local move succeeded, or nothing pinned was moved. */
  predicate RemotelyDone(w: World, op: Op)
    requires Possible(w, op)
  {
    op.DoMoveLocal? && op.owner.Some? ==>
      RemoteRename(w.r, op.owner.value, RemotePathForLocal(w.s.root, op.to).value, BaseName(op.from),
                   BaseName(op.to)).0.Ok?
  }

  /** What a successful pin did: the copy holds Drive's bytes and the row records its stamp. */
  predicate FreshPin(s: PinState, r: Remote, s': PinState, remote: string, force: bool, mtime: int) {
    && remote in r.tree && !r.tree[remote].entry.isFolder
    && (var f := File(r.tree[remote].bytes, mtime);
        s' == PinState(s.root, s.pins[remote := Pin(s.root + remote, f.StampOf())], s.disk[s.root + remote := f]))
    && (force || !(Lookup(s, remote).Some? && IsDirty(s, Lookup(s, remote).value, remote)))
  }

  lemma {:induction false} PinMirrors(s: PinState, r: Remote, remote: string, force: bool, mtime: int)
    requires Mirror(s) && Norm(remote)
    ensures var (s', _, _) := PinPath(s, r, remote, force, mtime);
      Mirror(s') && s'.root == s.root &&
      (s' == s || FreshPin(s, r, s', remote, force, mtime))
  {
    LocalPathMirrors(s.root, remote);
  }

  predicate PinAllowed(s: PinState, r: Remote, remote: string, force: bool) {
    && remote in r.tree && !r.tree[remote].entry.isFolder && !r.tree[remote].entry.webOnly
    && (force || !(Lookup(s, remote).Some? && IsDirty(s, s.pins[remote].local, remote)))
  }

  /** `pin` of a normal path, in terms of that path alone; `dir` is the folder downloaded to. */
  function PinNorm(s: PinState, r: Remote, remote: string, dir: string, force: bool, mtime: int)
    : (PinState, Remote, Result<string>)
  {
    var (stat, r1) := Stat(r, remote);
    if stat.Err? then (s, r1, Err(stat.error))
    else if !PinAllowed(s, r, remote, force) then (s, r1, Err(Cli))
    else
      var (got, r2) := DownloadFile(r1, remote, dir);
      if got.Err? then (s, r2, Err(got.error))
      else
        var local, file := s.root + remote, File(got.value, mtime);
        (PinState(s.root, s.pins[remote := Pin(local, file.StampOf())], s.disk[local := file]), r2, Ok(local))
  }

  lemma {:induction false} PinIsNorm(s: PinState, r: Remote, remote: string, force: bool, mtime: int)
    requires ValidRoot(s.root) && Norm(remote)
    ensures TargetDir(s.root, remote).Some?
    ensures PinPath(s, r, remote, force, mtime) ==
            PinNorm(s, r, remote, TargetDir(s.root, remote).value, force, mtime)
  {
    LocalPathMirrors(s.root, remote);
  }

  lemma {:induction false} PinNormSucceeds(s: PinState, r: Remote, remote: string, dir: string, force: bool,
                                           mtime: int)
    ensures var (s', r', res) := PinNorm(s, r, remote, dir, force, mtime);
      var asked, got := FaultAt(r.faults, 0), FaultAt(r.faults, 1);
      var allowed := PinAllowed(s, r, remote, force);
      && (res.Ok? <==> asked.None? && allowed && got.None?)
      && (if res.Ok? then res.value == s.root + remote && FreshPin(s, r, s', remote, force, mtime) else s' == s)
      && (res.Err? ==> res.error == if asked.Some? then asked.value else if remote !in r.tree then NotFound
                                    else if allowed then got.value else Cli)
      && |r'.calls| == |r.calls| + (if asked.None? && allowed then 2 else 1) && r'.tree == r.tree
  {
  }

  /** `pin` succeeds exactly for a plain file whose copy has no edits to keep, when neither of its two calls
      fails by itself; it then records the fresh copy. Otherwise it changes nothing, its error is that of the
      call that failed, if one did, and nothing is downloaded over edits. */
  lemma {:induction false} PinSucceeds(s: PinState, r: Remote, remote: string, force: bool, mtime: int)
    requires ValidRoot(s.root) && Norm(remote)
    ensures var (s', r', res) := PinPath(s, r, remote, force, mtime);
      var asked, got := FaultAt(r.faults, 0), FaultAt(r.faults, 1);
      var allowed := PinAllowed(s, r, remote, force);
      && (res.Ok? <==> asked.None? && allowed && got.None?)
      && (if res.Ok? then res.value == s.root + remote && FreshPin(s, r, s', remote, force, mtime) else s' == s)
      && (res.Err? ==> res.error == if asked.Some? then asked.value else if remote !in r.tree then NotFound
                                    else if allowed then got.value else Cli)
      && |r'.calls| == |r.calls| + (if asked.None? && allowed then 2 else 1) && r'.tree == r.tree
  {
    PinIsNorm(s, r, remote, force, mtime);
    PinNormSucceeds(s, r, remote, TargetDir(s.root, remote).value, force, mtime);
  }

  lemma {:induction false} UnpinRowsMirror(s: PinState, rows: seq<string>, force: bool, stuck: set<string>)
    requires Mirror(s)
    ensures Mirror(UnpinRows(s, rows, force, stuck).0)
    ensures UnpinRows(s, rows, force, stuck).0.root == s.root
    decreases |rows|
  {
    if rows != [] {
      var (s1, res) := Unpin(s, rows[0], force, stuck);
      if res.Ok? { UnpinRowsMirror(s1, rows[1..], force, stuck); }
    }
  }

  lemma {:induction false} MoveRowMirrors(s: PinState, q: string, src: string, dst: string, stuck: set<string>)
    requires Mirror(s) && Norm(src) && Norm(dst) && Norm(q) && Under(src, q)
    ensures var s' := MoveRow(s, q, s.root + q, src, dst, stuck).0;
      Mirror(s') && s'.root == s.root
  {
    MoveRowIs(s, q, s.root + q, src, dst, stuck);
    MoveRowToMirrors(s, q, Rekey(src, dst, q), stuck);
  }

  lemma {:induction false} MoveRowToMirrors(s: PinState, q: string, target: string, stuck: set<string>)
    requires Mirror(s) && Norm(q) && Norm(target)
    ensures var s' := MoveRowTo(s, q, s.root + q, target, s.root + target, stuck).0;
      Mirror(s') && s'.root == s.root
  {
    RenameRowMirrors(s, q, target);
    var pins1 := RenameRow(s.pins, q, target, s.root + target);
    if pins1.Ok? { RenameRowMirrors(s.(pins := pins1.value), target, q); }
  }

  lemma {:induction false} RenameRowMirrors(s: PinState, q: string, target: string)
    requires Mirror(s) && Norm(target)
    ensures var res := RenameRow(s.pins, q, target, s.root + target);
      res.Ok? ==> Mirror(s.(pins := res.value))
  {
  }

  lemma {:induction false} RenameRowsMirror(s: PinState, snap: Rows, rows: seq<string>, src: string, dst: string,
                                            stuck: set<string>)
    requires Mirror(s) && Mirror(s.(pins := snap)) && Norm(src) && Norm(dst)
    requires forall i :: 0 <= i < |rows| ==> rows[i] in snap && Under(src, rows[i])
    ensures Mirror(RenameRows(s, snap, rows, src, dst, stuck).0)
    ensures RenameRows(s, snap, rows, src, dst, stuck).0.root == s.root
    decreases |rows|
  {
    if rows != [] {
      MoveRowMirrors(s, rows[0], src, dst, stuck);
      var (s1, res) := MoveRow(s, rows[0], snap[rows[0]].local, src, dst, stuck);
      if res.Ok? { RenameRowsMirror(s1, snap, rows[1..], src, dst, stuck); }
    }
  }

  /** `handle_rename` for a pinned file keeps the mirror exactly when Drive followed the move
      or the file did not really move: the fallback records a local path that mirrors nothing. */
  lemma {:induction false} HandleRenameMirrors(s: PinState, r: Remote, source: string, target: string)
    requires Mirror(s) && source in s.pins && Norm(target)
    ensures var from, to := s.root + source, s.root + target;
      Mirror(HandleRename(s, r, Some(source), from, to).0) <==>
        (RemoteRename(r, source, target, BaseName(from), BaseName(to)).0.Ok? || target == source)
  {
    LocalBaseName(s.root, target);
    var from, to := s.root + source, s.root + target;
    var ok := RemoteRename(r, source, target, BaseName(from), BaseName(to)).0.Ok?;
    RekeyedMirrors(s, source, target, ok);
  }

  lemma {:induction false} RekeyedMirrors(s: PinState, source: string, target: string, ok: bool)
    requires Mirror(s) && source in s.pins && Norm(target)
    ensures Mirror(Rekeyed(s, source, if ok then target else source, s.root + target).0) <==> ok || target == source
  {
    var s' := Rekeyed(s, source, if ok then target else source, s.root + target).0;
    if !ok {
      assert s'.pins[source].local == s.root + target;
      if s.root + target == s.root + source { RootInjective(s.root, target, source); }
    }
  }

  lemma {:induction false} RenameTreeMirrors(s: PinState, source: string, target: string, rows: seq<string>,
                                             stuck: set<string>)
    requires Mirror(s) && Norm(source) && Norm(target) && Selects(rows, s.pins, source)
    ensures forall i :: 0 <= i < |rows| ==> rows[i] in s.pins && Under(TrimEnd(source), rows[i])
    ensures var s' := RenameTree(s, source, target, rows, stuck).0;
      Mirror(s') && s'.root == s.root
  {
    SelectedBelow(rows, s.pins, source);
    NormPlain(source);
    NormPlain(target);
    RenameRowsMirror(s, s.pins, rows, source, target, stuck);
  }

  lemma {:induction false} UnpinMirrors(s: PinState, remote: string, force: bool, stuck: set<string>)
    requires Mirror(s)
    ensures var s' := Unpin(s, remote, force, stuck).0;
      Mirror(s') && s'.root == s.root
  {
  }

  lemma {:induction false} MoveLocalMirrors(w: World, from: string, to: string, owner: Option<string>)
    requires Mirror(w.s) && MayMove(w.s, from, to, owner)
    requires owner.Some? ==>
      RemoteRename(w.r, owner.value, RemotePathForLocal(w.s.root, to).value, BaseName(from), BaseName(to)).0.Ok?
    ensures Mirror(MoveLocal(w, from, to, owner).s) && MoveLocal(w, from, to, owner).s.root == w.s.root
  {
    if owner.Some? {
      MirrorOwner(w.s, from, owner);
      HandleRenameMirrors(Moved(w.s, from, to), w.r, owner.value, RemotePathForLocal(w.s.root, to).value);
    }
  }

  /** Every operation keeps the mirror, provided local moves go through on Drive. */
  lemma {:induction false} StepMirrors(w: World, op: Op)
    requires Mirror(w.s) && Possible(w, op) && RemotelyDone(w, op)
    ensures Mirror(Step(w, op).s) && Step(w, op).s.root == w.s.root
  {
    match op
    case DoPin(remote, force, mtime) => PinMirrors(w.s, w.r, remote, force, mtime);
    case DoUnpin(remote, force, stuck) => UnpinMirrors(w.s, remote, force, stuck);
    case DoUnpinTree(_, force, rows, stuck) => UnpinRowsMirror(w.s, rows, force, stuck);
    case DoRenameTree(source, target, rows, stuck) => RenameTreeMirrors(w.s, source, target, rows, stuck);
    case DoMoveLocal(from, to, owner) => MoveLocalMirrors(w, from, to, owner);
    case DoUpload(local, owner) => UploadEffect(w.s, w.r, owner, local);
    case DoEvict(remote) =>
  }

  /** A run: every step is possible when it is taken and local moves go through on Drive. */
  ghost predicate Run(w: World, ops: seq<Op>)
    decreases |ops|
  {
    ops == [] || (Possible(w, ops[0]) && RemotelyDone(w, ops[0]) && Run(Step(w, ops[0]), ops[1..]))
  }

  ghost function End(w: World, ops: seq<Op>): World
    requires Run(w, ops)
    decreases |ops|
  {
    if ops == [] then w else End(Step(w, ops[0]), ops[1..])
  }

  /** In every reachable state the local paths are pairwise distinct, each is the root followed
      by its Drive path, and the query by local path inverts the table. */
  lemma {:induction false} MirrorAlways(w: World, ops: seq<Op>)
    requires Mirror(w.s) && Run(w, ops)
    ensures Mirror(End(w, ops).s)
    ensures forall local, owner :: IsOwner(End(w, ops).s.pins, local, owner) ==>
      forall q :: q in End(w, ops).s.pins && End(w, ops).s.pins[q].local == local <==> owner == Some(q)
    decreases |ops|
  {
    if ops == [] {
      forall local, owner | IsOwner(w.s.pins, local, owner)
        ensures forall q :: q in w.s.pins && w.s.pins[q].local == local <==> owner == Some(q)
      {
        MirrorOwner(w.s, local, owner);
      }
    } else {
      StepMirrors(w, ops[0]);
      MirrorAlways(Step(w, ops[0]), ops[1..]);
    }
  }

  // ---- Unsynced bytes ---------------------------------------------------------------

  /** The pin `q` has a local copy whose stamp is not the recorded one. */
  predicate Unsynced(s: PinState, q: string) {
    q in s.pins && IsDirty(s, s.pins[q].local, q)
  }

  /** Nothing is forced, an eviction's file is nobody's pin, and an edited copy moved to another pin's path
      does not have the very stamp recorded there. */
  predicate Careful(w: World, op: Op)
    requires Possible(w, op)
  {
    match op
    case DoPin(_, force, _) => !force
    case DoUnpin(_, force, _) => !force
    case DoUnpinTree(_, force, _, _) => !force
    case DoRenameTree(_, _, _, _) => true
    case DoMoveLocal(from, to, owner) =>
      var target := RemotePathForLocal(w.s.root, to).value;
      owner.Some? && Unsynced(w.s, owner.value) && target in w.s.pins ==>
        w.s.pins[target].stamp != w.s.disk[from].StampOf()
    case DoUpload(_, _) => true
    case DoEvict(remote) => forall q :: q in w.s.pins ==> w.s.pins[q].local != w.cached[remote]
  }

  /** `q` in `s` and `q'` in `s'` hold the same unsynced bytes. */
  predicate Carried(s: PinState, q: string, s': PinState, q': string) {
    Unsynced(s, q) && Unsynced(s', q') && s.disk[s.pins[q].local].bytes == s'.disk[s'.pins[q'].local].bytes
  }

  lemma {:induction false} UnpinCarries(s: PinState, remote: string, stuck: set<string>, q: string)
    requires Mirror(s) && Unsynced(s, q)
    ensures Carried(s, q, Unpin(s, remote, false, stuck).0, q)
  {
    if remote in s.pins && s.root + q == s.root + remote { RootInjective(s.root, q, remote); }
  }

  lemma {:induction false} UnpinRowsCarry(s: PinState, rows: seq<string>, stuck: set<string>, q: string)
    requires Mirror(s) && Unsynced(s, q)
    ensures Carried(s, q, UnpinRows(s, rows, false, stuck).0, q)
    decreases |rows|
  {
    if rows != [] {
      UnpinCarries(s, rows[0], stuck, q);
      var (s1, res) := Unpin(s, rows[0], false, stuck);
      if res.Ok? { UnpinRowsCarry(s1, rows[1..], stuck, q); }
    }
  }

  lemma {:induction false} MoveRowToCarries(s: PinState, x: string, target: string, stuck: set<string>, q: string)
    returns (q': string)
    requires Mirror(s) && x in s.pins && Unsynced(s, q)
    ensures Carried(s, q, MoveRowTo(s, x, s.root + x, target, s.root + target, stuck).0, q')
    ensures var (s', res) := MoveRowTo(s, x, s.root + x, target, s.root + target, stuck);
      res.Ok? ==> s.pins.Keys - {x} <= s'.pins.Keys
  {
    var (s', res) := MoveRowTo(s, x, s.root + x, target, s.root + target, stuck);
    q' := if q == x && res.Ok? then target else q;
    if target !in s.pins {
      MoveRowToFree(s, x, target, s.root + target, stuck);
      FreeRowCarries(s, x, target, q);
    }
  }

  lemma {:induction false} FreeRowCarries(s: PinState, x: string, target: string, q: string)
    requires Mirror(s) && x in s.pins && target !in s.pins && Unsynced(s, q)
    ensures var from, to := s.root + x, s.root + target;
      var s1 := s.(pins := (s.pins - {x})[target := s.pins[x].(local := to)]);
      && (from !in s.disk ==> Carried(s, q, s1, q))
      && (from in s.disk ==>
            Carried(s, q, s1.(disk := (s.disk - {from})[to := s.disk[from]]), if q == x then target else q))
  {
    if s.root + q == s.root + x { RootInjective(s.root, q, x); }
    if s.root + q == s.root + target { RootInjective(s.root, q, target); }
  }

  lemma {:induction false} MoveRowCarries(s: PinState, x: string, src: string, dst: string, stuck: set<string>,
                                          q: string)
    returns (q': string)
    requires Mirror(s) && Norm(src) && Norm(dst) && x in s.pins && Under(src, x) && Unsynced(s, q)
    ensures Carried(s, q, MoveRow(s, x, s.root + x, src, dst, stuck).0, q')
    ensures var (s', res) := MoveRow(s, x, s.root + x, src, dst, stuck);
      res.Ok? ==> s.pins.Keys - {x} <= s'.pins.Keys
  {
    MoveRowIs(s, x, s.root + x, src, dst, stuck);
    q' := MoveRowToCarries(s, x, Rekey(src, dst, x), stuck, q);
  }

  /** The rows not yet reached are still in the table, so none of them is moved over. */
  lemma {:induction false} RenameRowsCarry(s: PinState, snap: Rows, rows: seq<string>, src: string, dst: string,
                                           stuck: set<string>, q: string)
    returns (q': string)
    requires Mirror(s) && Mirror(s.(pins := snap)) && Norm(src) && Norm(dst) && Unsynced(s, q)
    requires forall i :: 0 <= i < |rows| ==> rows[i] in snap && rows[i] in s.pins && Under(src, rows[i])
    requires forall i, j :: 0 <= i < j < |rows| ==> rows[i] != rows[j]
    ensures Carried(s, q, RenameRows(s, snap, rows, src, dst, stuck).0, q')
    decreases |rows|
  {
    if rows == [] {
      q' := q;
    } else {
      q' := MoveRowCarries(s, rows[0], src, dst, stuck, q);
      MoveRowMirrors(s, rows[0], src, dst, stuck);
      var (s1, res) := MoveRow(s, rows[0], snap[rows[0]].local, src, dst, stuck);
      if res.Ok? { q' := RenameRowsCarry(s1, snap, rows[1..], src, dst, stuck, q'); }
    }
  }

  lemma {:induction false} PinCarries(s: PinState, r: Remote, remote: string, mtime: int, q: string)
    requires Mirror(s) && Norm(remote) && Unsynced(s, q)
    ensures Carried(s, q, PinPath(s, r, remote, false, mtime).0, q)
  {
    PinMirrors(s, r, remote, false, mtime);
    if s.root + q == s.root + remote { RootInjective(s.root, q, remote); }
  }

  lemma {:induction false} MoveLocalCarries(w: World, op: Op, q: string) returns (q': string)
    requires Mirror(w.s) && op.DoMoveLocal? && Possible(w, op) && RemotelyDone(w, op) && Careful(w, op) &&
             Unsynced(w.s, q)
    ensures Carried(w.s, q, Step(w, op).s, q')
  {
    var target := RemotePathForLocal(w.s.root, op.to).value;
    MirrorOwner(w.s, op.from, op.owner);
    q' := if op.owner == Some(q) then target else q;
    if op.owner.Some? {
      if target in w.s.pins {
        TakenRowCarries(w.s, op.owner.value, target, q);
      } else {
        RekeyCarries(w.s, op.owner.value, target, q);
      }
      FollowedRow(Moved(w.s, op.from, op.to), w.r, op.owner.value, op.from, op.to, target);
    }
  }

  lemma {:induction false} FollowedRow(s: PinState, r: Remote, source: string, from: string, to: string, target: string)
    requires RemotePathForLocal(s.root, to) == Some(target)
    requires RemoteRename(r, source, target, BaseName(from), BaseName(to)).0.Ok?
    ensures HandleRename(s, r, Some(source), from, to).0 == Rekeyed(s, source, target, to).0
  {
  }

  /** A moved file and its row carry on under the new name; the others stay. */
  lemma {:induction false} RekeyCarries(s: PinState, source: string, target: string, q: string)
    requires Mirror(s) && source in s.pins && s.root + source in s.disk && s.root + target !in s.disk
    requires target !in s.pins && Unsynced(s, q)
    ensures Carried(s, q, Rekeyed(Moved(s, s.root + source, s.root + target), source, target, s.root + target).0,
                    if q == source then target else q)
  {
    if q != source && s.root + q == s.root + source { RootInjective(s.root, q, source); }
  }

  /** A file moved to another pin's path: its row stays behind, and the file is that pin's copy from now on. */
  lemma {:induction false} TakenRowCarries(s: PinState, source: string, target: string, q: string)
    requires Mirror(s) && source in s.pins && s.root + source in s.disk && s.root + target !in s.disk
    requires target in s.pins && Unsynced(s, q)
    ensures var s' := Rekeyed(Moved(s, s.root + source, s.root + target), source, target, s.root + target).0;
      && s'.pins == s.pins
      && (q != source ==> Carried(s, q, s', q))
      && (q == source ==>
            (Carried(s, q, s', target) <==> s.pins[target].stamp != s.disk[s.root + source].StampOf()))
  {
    if q != source && s.root + q == s.root + source { RootInjective(s.root, q, source); }
  }

  lemma {:induction false} FollowedMove(w: World, from: string, to: string, q: string)
    requires MayMove(w.s, from, to, Some(q))
    requires RemoteRename(w.r, q, RemotePathForLocal(w.s.root, to).value, BaseName(from), BaseName(to)).0.Ok?
    ensures MoveLocal(w, from, to, Some(q)).s ==
            Rekeyed(Moved(w.s, from, to), q, RemotePathForLocal(w.s.root, to).value, to).0
  {
    FollowedRow(Moved(w.s, from, to), w.r, q, from, to, RemotePathForLocal(w.s.root, to).value);
  }

  /** Exactly when an edit survives a local move to another pin's path that Drive follows: the stamp recorded
      there is not the one of the file that arrives. */
  lemma {:induction false} MoveOntoPinIff(w: World, from: string, to: string, q: string)
    requires Mirror(w.s) && MayMove(w.s, from, to, Some(q)) && Unsynced(w.s, q)
    requires RemotePathForLocal(w.s.root, to).value in w.s.pins
    requires RemoteRename(w.r, q, RemotePathForLocal(w.s.root, to).value, BaseName(from), BaseName(to)).0.Ok?
    ensures var target, s' := RemotePathForLocal(w.s.root, to).value, MoveLocal(w, from, to, Some(q)).s;
      && s'.pins == w.s.pins && !Unsynced(s', q)
      && (Carried(w.s, q, s', target) <==> w.s.pins[target].stamp != w.s.disk[from].StampOf())
  {
    TakenRowCarries(w.s, q, RemotePathForLocal(w.s.root, to).value, q);
    FollowedMove(w, from, to, q);
  }

  lemma {:induction false} ExtendChainStored(r: Remote, current: string, segs: seq<string>)
    ensures ExtendChain(r, current, segs).1.stored == r.stored
    decreases |segs|
  {
    if segs != [] {
      var next := current + "/" + segs[0];
      var r1 := Stat(r, next).1;
      var r2 := MakeFolder(r1, current, segs[0]).1;
      ExtendChainStored(r1, next, segs[1..]);
      ExtendChainStored(r2, next, segs[1..]);
    }
  }

  lemma {:induction false} ChainStored(r: Remote, dir: string)
    ensures EnsureChain(r, dir).1.stored == r.stored
  {
    var segs := Segs(dir);
    if |segs| > 1 { ExtendChainStored(r, "/" + segs[0], segs[1..]); }
  }

  lemma {:induction false} RemoteRenameStored(r: Remote, source: string, target: string, oldName: string,
                                              newName: string)
    ensures RemoteRename(r, source, target, oldName, newName).1.stored == r.stored
  {
    ChainStored(r, RemoteParent(target));
    var r1 := EnsureChain(r, RemoteParent(target)).1;
    RenameStored(r1, source, newName);
    MoveStored(r1, source, RemoteParent(target));
    var r2 := MovePath(r1, source, RemoteParent(target)).1;
    RenameStored(r2, RemoteParent(target) + "/" + oldName, newName);
  }

  lemma {:induction false} RenameStored(r: Remote, p: string, name: string)
    ensures RenamePath(r, p, name).1.stored == r.stored
  {
  }

  lemma {:induction false} MoveStored(r: Remote, p: string, parent: string)
    ensures MovePath(r, p, parent).1.stored == r.stored
  {
  }

  /** What `upload_if_needed` leaves behind. */
  lemma {:induction false} UploadOutcome(s: PinState, r: Remote, owner: Option<string>, local: string)
    ensures var (s', r', res) := UploadIfNeeded(s, r, owner, local);
      if s' == s then r.stored <= r'.stored
      else owner.Some? && local in s.disk &&
           s' == s.(pins := MarkSynced(s.pins, owner.value, s.disk[local].StampOf())) &&
           r'.stored == r.stored + [(Child(RemoteParent(owner.value), BaseName(local)), s.disk[local].bytes)]
  {
    if owner.Some? { ChainStored(r, RemoteParent(owner.value)); }
  }

  lemma {:induction false} PinStored(s: PinState, r: Remote, remote: string, force: bool, mtime: int)
    ensures PinPath(s, r, remote, force, mtime).1.stored == r.stored
  {
  }

  lemma {:induction false} HandleRenameStored(s: PinState, r: Remote, owner: Option<string>, from: string, to: string)
    ensures HandleRename(s, r, owner, from, to).1.stored == r.stored
  {
    if owner.Some? && RemotePathForLocal(s.root, to).Some? {
      RemoteRenameStored(r, owner.value, RemotePathForLocal(s.root, to).value, BaseName(from), BaseName(to));
    }
  }

  /** Drive never forgets what it accepted. */
  lemma {:induction false} StoredGrows(w: World, op: Op)
    requires Possible(w, op)
    ensures w.r.stored <= Step(w, op).r.stored
  {
    match op
    case DoPin(remote, force, mtime) => PinStored(w.s, w.r, remote, force, mtime);
    case DoMoveLocal(from, to, owner) => HandleRenameStored(Moved(w.s, from, to), w.r, owner, from, to);
    case DoUpload(local, owner) => UploadOutcome(w.s, w.r, owner, local);
    case _ =>
  }

  /** An upload either leaves the edit unsynced, or Drive accepted it at the pin's path. */
  lemma {:induction false} UploadCarries(w: World, local: string, owner: Option<string>, q: string)
    requires Mirror(w.s) && IsOwner(w.s.pins, local, owner) && Unsynced(w.s, q)
    ensures var (s', r', _) := UploadIfNeeded(w.s, w.r, owner, local);
      Carried(w.s, q, s', q) || r'.stored == w.r.stored + [(q, w.s.disk[w.s.root + q].bytes)]
  {
    UploadOutcome(w.s, w.r, owner, local);
    MirrorOwner(w.s, local, owner);
    UploadTarget(w.s.root, q);
    if owner != Some(q) && UploadIfNeeded(w.s, w.r, owner, local).0 != w.s {
      assert Unsynced(UploadIfNeeded(w.s, w.r, owner, local).0, q);
    }
  }

  /** One careful operation: the edit is still unsynced, under its old or a new name, or this was its upload. */
  lemma {:induction false} StepCarriesOrUploads(w: World, op: Op, q: string) returns (q': string)
    requires Mirror(w.s) && Possible(w, op) && RemotelyDone(w, op) && Careful(w, op) && Unsynced(w.s, q)
    ensures
      || Carried(w.s, q, Step(w, op).s, q')
      || (op.DoUpload? && Step(w, op).r.stored == w.r.stored + [(q, w.s.disk[w.s.root + q].bytes)])
  {
    q' := q;
    if op.DoUpload? {
      UploadCarries(w, op.local, op.owner, q);
    } else {
      q' := StepCarries(w, op, q);
    }
  }

  lemma {:induction false} StepCarries(w: World, op: Op, q: string) returns (q': string)
    requires Mirror(w.s) && Possible(w, op) && RemotelyDone(w, op) && Careful(w, op) && Unsynced(w.s, q) &&
             !op.DoUpload?
    ensures Carried(w.s, q, Step(w, op).s, q')
  {
    q' := q;
    match op
    case DoPin(remote, _, mtime) => PinCarries(w.s, w.r, remote, mtime, q);
    case DoUnpin(remote, _, stuck) => UnpinCarries(w.s, remote, stuck, q);
    case DoUnpinTree(_, _, rows, stuck) => UnpinRowsCarry(w.s, rows, stuck, q);
    case DoRenameTree(source, target, rows, stuck) =>
      SelectedBelow(rows, w.s.pins, source);
      NormPlain(source);
      NormPlain(target);
      q' := RenameRowsCarry(w.s, w.s.pins, rows, source, target, stuck, q);
    case DoMoveLocal(_, _, _) => q' := MoveLocalCarries(w, op, q);
    case DoEvict(remote) =>
  }

  ghost predicate CarefulRun(w: World, ops: seq<Op>)
    requires Run(w, ops)
    decreases |ops|
  {
    ops == [] || (Careful(w, ops[0]) && CarefulRun(Step(w, ops[0]), ops[1..]))
  }

  lemma {:induction false} RunStoredGrows(w: World, ops: seq<Op>)
    requires Run(w, ops)
    ensures w.r.stored <= End(w, ops).r.stored
    decreases |ops|
  {
    if ops != [] {
      StoredGrows(w, ops[0]);
      RunStoredGrows(Step(w, ops[0]), ops[1..]);
    }
  }

  lemma {:induction false} RunPrefix(w: World, ops: seq<Op>, k: nat)
    requires Run(w, ops) && 0 < k <= |ops|
    requires Run(Step(w, ops[0]), ops[1..][..k - 1])
    ensures Run(w, ops[..k]) && End(w, ops[..k]) == End(Step(w, ops[0]), ops[1..][..k - 1])
  {
    assert ops[..k][0] == ops[0] && ops[..k][1..] == ops[1..][..k - 1];
  }

  /** No careful run destroys a pinned file's unsynced bytes. Up to operation `k` they stay the unsynced copy
      of a pin, in the end one called `p`; if the run goes on, operation `k` is the upload with which Drive
      accepted them at `p`. */
  lemma {:induction false} NoUnsyncedBytesLost(w: World, ops: seq<Op>, q: string) returns (k: nat, p: string)
    requires Mirror(w.s) && Run(w, ops) && CarefulRun(w, ops) && Unsynced(w.s, q)
    ensures k <= |ops| && Run(w, ops[..k]) && Carried(w.s, q, End(w, ops[..k]).s, p)
    ensures k < |ops| ==>
              var n := |End(w, ops[..k]).r.stored|;
              ops[k].DoUpload? && n < |End(w, ops).r.stored| &&
                End(w, ops).r.stored[n] == (p, w.s.disk[w.s.root + q].bytes)
    decreases |ops|
  {
    k, p := 0, q;
    assert ops[..0] == [];
    if ops != [] {
      var w1 := Step(w, ops[0]);
      StepMirrors(w, ops[0]);
      var q' := StepCarriesOrUploads(w, ops[0], q);
      if Carried(w.s, q, w1.s, q') {
        var k1, p1 := NoUnsyncedBytesLost(w1, ops[1..], q');
        k, p := k1 + 1, p1;
        RunPrefix(w, ops, k);
      } else {
        RunStoredGrows(w1, ops[1..]);
      }
    }
  }

  // ---- After a fallback -------------------------------------------------------------

  /** A successful unforced pin of `t` leaves another pin's unsynced copy alone exactly when that copy is
      elsewhere, or is replaced by the very same bytes under another stamp than the recorded one. */
  lemma {:induction false} PinOverwritesIff(s: PinState, r: Remote, t: string, mtime: int, q: string)
    requires ValidRoot(s.root) && Norm(t) && Unsynced(s, q) && PinPath(s, r, t, false, mtime).2.Ok?
    ensures q != t && t in r.tree
    ensures Carried(s, q, PinPath(s, r, t, false, mtime).0, q) <==>
            (s.pins[q].local == s.root + t ==>
               r.tree[t].bytes == s.disk[s.root + t].bytes && Stamp(mtime, |r.tree[t].bytes|) != s.pins[q].stamp)
  {
    LocalPathMirrors(s.root, t);
  }

  /** The user moved the edited copy of `source` to where `target` would have its own, and Drive refused. */
  function AfterRefusal(s: PinState, r: Remote, source: string, target: string): (PinState, Remote)
    requires s.root + source in s.disk
  {
    var (s1, r1, _) := HandleRename(Moved(s, s.root + source, s.root + target), r, Some(source), s.root + source,
      s.root + target);
    (s1, r1)
  }

  /** The fallback keeps the edit, at a place that mirrors nothing; an unforced pin of `target` then
      overwrites it exactly when Drive has other bytes there, or the same under the recorded stamp. */
  lemma {:induction false} FallbackThenPin(s: PinState, r: Remote, source: string, target: string, mtime: int)
    requires Mirror(s) && Norm(target) && source in s.pins && target !in s.pins && Unsynced(s, source)
    requires s.root + target !in s.disk
    requires RemoteRename(r, source, target, BaseName(s.root + source), BaseName(s.root + target)).0.Err?
    ensures var (s1, r1) := AfterRefusal(s, r, source, target);
      && Carried(s, source, s1, source) && s1.pins[source].local == s.root + target && !Mirror(s1)
      && (PinPath(s1, r1, target, false, mtime).2.Ok? ==>
            target in r1.tree &&
            (Carried(s, source, PinPath(s1, r1, target, false, mtime).0, source) <==>
               r1.tree[target].bytes == s.disk[s.root + source].bytes &&
               Stamp(mtime, |r1.tree[target].bytes|) != s.pins[source].stamp))
  {
    RefusedRow(s, r, source, target);
    var (s1, r1) := AfterRefusal(s, r, source, target);
    if PinPath(s1, r1, target, false, mtime).2.Ok? {
      PinOverwritesIff(s1, r1, target, mtime, source);
    }
  }

  lemma {:induction false} RefusalIs(s: PinState, r: Remote, source: string, target: string)
    requires Norm(target) && s.root + source in s.disk
    requires RemoteRename(r, source, target, BaseName(s.root + source), BaseName(s.root + target)).0.Err?
    ensures AfterRefusal(s, r, source, target) ==
            (Rekeyed(Moved(s, s.root + source, s.root + target), source, source, s.root + target).0,
             RemoteRename(r, source, target, BaseName(s.root + source), BaseName(s.root + target)).1)
  {
    StripRoot(s.root, target);
  }

  lemma {:induction false} RefusedRow(s: PinState, r: Remote, source: string, target: string)
    requires Mirror(s) && Norm(target) && source in s.pins && target !in s.pins && Unsynced(s, source)
    requires s.root + target !in s.disk
    requires RemoteRename(r, source, target, BaseName(s.root + source), BaseName(s.root + target)).0.Err?
    ensures var s1 := AfterRefusal(s, r, source, target).0;
      && s1.root == s.root && source in s1.pins
      && s1.pins[source] == s.pins[source].(local := s.root + target)
      && s.root + target in s1.disk && s1.disk[s.root + target] == s.disk[s.root + source]
      && Carried(s, source, s1, source) && !Mirror(s1)
  {
    RefusalIs(s, r, source, target);
    if s.root + target == s.root + source { RootInjective(s.root, target, source); }
  }

  lemma {:induction false} ExtendChainFaults(r: Remote, current: string, segs: seq<string>)
    requires r.faults == []
    ensures ExtendChain(r, current, segs).1.faults == []
    decreases |segs|
  {
    if segs != [] {
      var next := current + "/" + segs[0];
      var r1 := Stat(r, next).1;
      var r2 := MakeFolder(r1, current, segs[0]).1;
      ExtendChainFaults(r1, next, segs[1..]);
      ExtendChainFaults(r2, next, segs[1..]);
    }
  }

  lemma {:induction false} ChainFaults(r: Remote, dir: string)
    requires r.faults == []
    ensures EnsureChain(r, dir).1.faults == []
  {
    var segs := Segs(dir);
    if |segs| > 1 { ExtendChainFaults(r, "/" + segs[0], segs[1..]); }
  }

  lemma {:induction false} CallFaults(r: Remote, p: string, name: string, parent: string)
    requires r.faults == []
    ensures RenamePath(r, p, name).1.faults == [] && MovePath(r, p, parent).1.faults == []
  {
  }

  lemma {:induction false} RemoteRenameFaults(r: Remote, source: string, target: string, oldName: string,
                                              newName: string)
    requires r.faults == []
    ensures RemoteRename(r, source, target, oldName, newName).1.faults == []
  {
    var parent := RemoteParent(target);
    ChainFaults(r, parent);
    var r1 := EnsureChain(r, parent).1;
    CallFaults(r1, source, newName, parent);
    CallFaults(MovePath(r1, source, parent).1, parent + "/" + oldName, newName, parent);
  }

  /** A name that Drive already has at the target is refused, and stays as it is. */
  lemma {:induction false} TakenNameIsRefused(r: Remote, root: string, source: string, target: string)
    requires WellFormed(r.tree) && Norm(source) && Norm(target) && RemoteParent(target) != "/"
    requires target in r.tree && !Under(source, target)
    ensures var (res, r') := RemoteRename(r, source, target, BaseName(root + source), BaseName(root + target));
      res.Err? && target in r'.tree && r'.tree[target] == r.tree[target]
  {
    ChildOfParent(target);
    EnsureChainExists(r, RemoteParent(target));
    var (chain, r1) := EnsureChain(r, RemoteParent(target));
    if chain.Ok? {
      HandleRenameIsRenameOrMove(r, root, source, target);
      RenameOrMoveRelocates(r1, source, target);
      FailedRenameOrMove(r1, source, target);
      if RenameOrMove(r1, source, target).1.tree != r1.tree {
        HalfWayFacts(source, target);
        AbsentNotAbove(r1.tree, HalfWay(source, target), target);
      }
    }
  }

  /** This is how it comes about without any call failing by itself: the new name is taken on Drive. The
      unforced pin of that name succeeds, and the edit is gone exactly when the bytes differ, or agree with
      the recorded stamp. */
  lemma {:induction false} TakenNameThenPin(s: PinState, r: Remote, source: string, target: string, mtime: int)
    requires Mirror(s) && Norm(target) && source in s.pins && target !in s.pins && Unsynced(s, source)
    requires s.root + target !in s.disk && WellFormed(r.tree) && r.faults == []
    requires RemoteParent(target) != "/" && !Under(source, target)
    requires target in r.tree && !r.tree[target].entry.isFolder && !r.tree[target].entry.webOnly
    ensures var (s1, r1) := AfterRefusal(s, r, source, target);
      var (s2, _, res) := PinPath(s1, r1, target, false, mtime);
      res.Ok? && (Carried(s, source, s2, source) <==>
                    r.tree[target].bytes == s.disk[s.root + source].bytes &&
                    Stamp(mtime, |r.tree[target].bytes|) != s.pins[source].stamp)
  {
    TakenNameIsRefused(r, s.root, source, target);
    RemoteRenameFaults(r, source, target, BaseName(s.root + source), BaseName(s.root + target));
    FallbackThenPin(s, r, source, target, mtime);
    RefusedRow(s, r, source, target);
    RefusalKeepsOthers(s, r, source, target);
    var (s1, r1) := AfterRefusal(s, r, source, target);
    PinSucceeds(s1, r1, target, false, mtime);
  }

  lemma {:induction false} RefusalKeepsOthers(s: PinState, r: Remote, source: string, target: string)
    requires Mirror(s) && Norm(target) && source in s.pins && target !in s.pins && s.root + source in s.disk
    requires RemoteRename(r, source, target, BaseName(s.root + source), BaseName(s.root + target)).0.Err?
    ensures var (s1, r1) := AfterRefusal(s, r, source, target);
      target !in s1.pins &&
        r1 == RemoteRename(r, source, target, BaseName(s.root + source), BaseName(s.root + target)).1
  {
    RefusalIs(s, r, source, target);
  }
}
