/** The `pins` table and the local disk, as values: what each pin operation of the cache does to
    them. `stuck` names the local paths on which the file system refuses to remove or rename. */
module PinStore {
  import opened Paths
  import opened Drive

  datatype Stamp = Stamp(mtime: int, size: int)

  datatype File = File(bytes: Bytes, mtime: int) {
    function StampOf(): Stamp {
      Stamp(mtime, |bytes|)
    }
  }

  datatype Pin = Pin(local: string, stamp: Stamp)

  type Rows = map<string, Pin>
  type Disk = map<string, File>

  datatype PinState = PinState(root: string, pins: Rows, disk: Disk)

  /** `Cache::lookup`: pinned, and the local copy is still there. */
  function Lookup(s: PinState, remote: string): Option<string> {
    if remote in s.pins && s.pins[remote].local in s.disk then Some(s.pins[remote].local) else None
  }

  /** What a query by local path may answer: any matching row, or none when there is none. */
  predicate IsOwner(pins: Rows, local: string, owner: Option<string>) {
    match owner
    case Some(q) => q in pins && pins[q].local == local
    case None => forall q :: q in pins ==> pins[q].local != local
  }

  predicate NeedsUpload(pins: Rows, remote: string, stamp: Stamp) {
    remote in pins && pins[remote].stamp != stamp
  }

  predicate IsDirty(s: PinState, local: string, remote: string) {
    local in s.disk && NeedsUpload(s.pins, remote, s.disk[local].StampOf())
  }

  /** The SQL tree match, for a path that may carry a trailing slash. */
  predicate Matches(path: string, p: string) {
    if path != "" && path[|path| - 1] == '/' then p == path || path <= p else Under(path, p)
  }

  /** A query result lists the matching rows once each, in no particular order. */
  predicate Selects(rows: seq<string>, pins: Rows, path: string) {
    && (forall i, j :: 0 <= i < j < |rows| ==> rows[i] != rows[j])
    && (forall i :: 0 <= i < |rows| ==> rows[i] in pins && Matches(path, rows[i]))
    && (forall q :: q in pins && Matches(path, q) ==> q in rows)
  }

  // ---- pin, unpin -------------------------------------------------------------------

  /** `Cache::pin`; the downloaded copy gets modification time `mtime`. */
  function PinPath(s: PinState, r: Remote, remote: string, force: bool, mtime: int): (PinState, Remote, Result<string>)
  {
    var (stat, r1) := Stat(r, remote);
    if stat.Err? then (s, r1, Err(stat.error))
    else if stat.value.isFolder || stat.value.webOnly then (s, r1, Err(Cli))
    else if !force && Lookup(s, remote).Some? && IsDirty(s, Lookup(s, remote).value, remote) then (s, r1, Err(Cli))
    else if TargetDir(s.root, remote).None? then (s, r1, Err(Cli))
    else
      var dir := TargetDir(s.root, remote).value;
      var (got, r2) := DownloadFile(r1, remote, dir);
      if got.Err? then (s, r2, Err(got.error))
      else if FileName(remote).None? then (s, r2, Err(Cli))
      else
        var local := Join(dir, FileName(remote).value);
        var file := File(got.value, mtime);
        (PinState(s.root, s.pins[remote := Pin(local, file.StampOf())], s.disk[local := file]), r2, Ok(local))
  }

  function Unpin(s: PinState, remote: string, force: bool, stuck: set<string>): (PinState, Result<Unit>) {
    match Lookup(s, remote)
    case None => (s.(pins := s.pins - {remote}), Ok(Unit))
    case Some(local) =>
      if !force && IsDirty(s, local, remote) then (s, Err(Cli))
      else if local in stuck then (s, Err(Io))
      else (s.(pins := s.pins - {remote}, disk := s.disk - {local}), Ok(Unit))
  }

  function UnpinRows(s: PinState, rows: seq<string>, force: bool, stuck: set<string>): (PinState, Result<Unit>)
    decreases |rows|
  {
    if rows == [] then (s, Ok(Unit))
    else
      var (s1, res) := Unpin(s, rows[0], force, stuck);
      if res.Err? then (s1, res) else UnpinRows(s1, rows[1..], force, stuck)
  }

  // ---- rename -----------------------------------------------------------------------

  /** `Cache::rename`: the row is rekeyed, unless another row already holds the new key. */
  function RenameRow(pins: Rows, source: string, target: string, local: string): Result<Rows> {
    if source !in pins then Ok(pins)
    else if target in pins && target != source then Err(Sqlite)
    else Ok((pins - {source})[target := pins[source].(local := local)])
  }

  /** One round of `rename_tree`: row first, then the file, and the row back if the file is stuck. */
  function MoveRow(s: PinState, q: string, local: string, src: string, dst: string, stuck: set<string>)
    : (PinState, Result<Unit>)
    requires Under(src, q)
  {
    var target := Rekey(src, dst, q);
    match LocalPath(s.root, target)
    case None => (s, Err(Cli))
    case Some(newLocal) => MoveRowTo(s, q, local, target, newLocal, stuck)
  }

  function MoveRowTo(s: PinState, q: string, local: string, target: string, newLocal: string, stuck: set<string>)
    : (PinState, Result<Unit>)
  {
    match RenameRow(s.pins, q, target, newLocal)
    case Err(e) => (s, Err(e))
    case Ok(pins1) =>
      if local !in s.disk then (s.(pins := pins1), Ok(Unit))
      else if local in stuck || newLocal in stuck then
        match RenameRow(pins1, target, q, local)
        case Err(e) => (s.(pins := pins1), Err(e))
        case Ok(pins2) => (s.(pins := pins2), Err(Io))
      else (s.(pins := pins1, disk := (s.disk - {local})[newLocal := s.disk[local]]), Ok(Unit))
  }

  /** The loop over the queried rows; `snap` holds them as they were queried. */
  function RenameRows(s: PinState, snap: Rows, rows: seq<string>, src: string, dst: string, stuck: set<string>)
    : (PinState, Result<Unit>)
    requires forall i :: 0 <= i < |rows| ==> rows[i] in snap && Under(src, rows[i])
    decreases |rows|
  {
    if rows == [] then (s, Ok(Unit))
    else
      var (s1, res) := MoveRow(s, rows[0], snap[rows[0]].local, src, dst, stuck);
      if res.Err? then (s1, res) else RenameRows(s1, snap, rows[1..], src, dst, stuck)
  }

  function RenameTree(s: PinState, source: string, target: string, rows: seq<string>, stuck: set<string>)
    : (PinState, Result<Unit>)
    requires forall i :: 0 <= i < |rows| ==> rows[i] in s.pins && Under(TrimEnd(source), rows[i])
  {
    RenameRows(s, s.pins, rows, TrimEnd(source), TrimEnd(target), stuck)
  }

  function MarkSynced(pins: Rows, remote: string, stamp: Stamp): Rows {
    if remote in pins then pins[remote := pins[remote].(stamp := stamp)] else pins
  }

  /** Trailing slashes of either path make no difference. */
  lemma {:induction false} RenameTreeTrims(s: PinState, source: string, target: string, rows: seq<string>,
                                           stuck: set<string>)
    requires forall i :: 0 <= i < |rows| ==> rows[i] in s.pins && Under(TrimEnd(source), rows[i])
    ensures TrimEnd(source + "/") == TrimEnd(source)
    ensures RenameTree(s, source + "/", target + "/", rows, stuck) == RenameTree(s, source, target, rows, stuck)
  {
    assert (source + "/")[..|source|] == source && (target + "/")[..|target|] == target;
    assert TrimEnd(target + "/") == TrimEnd(target);
  }

  lemma {:induction false} MoveRowIs(s: PinState, q: string, local: string, src: string, dst: string,
                                     stuck: set<string>)
    requires ValidRoot(s.root) && Norm(src) && Norm(dst) && Norm(q) && Under(src, q)
    ensures Norm(Rekey(src, dst, q))
    ensures MoveRow(s, q, local, src, dst, stuck) ==
            MoveRowTo(s, q, local, Rekey(src, dst, q), s.root + Rekey(src, dst, q), stuck)
  {
    RekeyNorm(src, dst, q);
    LocalPathMirrors(s.root, Rekey(src, dst, q));
  }

  /** Rekeying a row to a free key, and putting it back. */
  lemma {:induction false} RowThereAndBack(pins: Rows, q: string, target: string, local: string)
    requires q in pins && target !in pins
    ensures var pins' := (pins - {q})[target := pins[q].(local := local)];
      RenameRow(pins, q, target, local) == Ok(pins') &&
      RenameRow(pins', target, q, pins[q].local) == Ok(pins)
  {
    var pins' := (pins - {q})[target := pins[q].(local := local)];
    assert (pins' - {target})[q := pins'[target].(local := pins[q].local)] == pins;
  }

  /** Moving a row to a free key: done, or all undone when its file is stuck. */
  lemma {:induction false} MoveRowToFree(t: PinState, q: string, target: string, newLocal: string, stuck: set<string>)
    requires q in t.pins && target !in t.pins
    ensures var local, pins' := t.pins[q].local, (t.pins - {q})[target := t.pins[q].(local := newLocal)];
      MoveRowTo(t, q, local, target, newLocal, stuck) ==
        if local !in t.disk then (t.(pins := pins'), Ok(Unit))
        else if local in stuck || newLocal in stuck then (t, Err(Io))
        else (t.(pins := pins', disk := (t.disk - {local})[newLocal := t.disk[local]]), Ok(Unit))
  {
    RowThereAndBack(t.pins, q, target, newLocal);
  }

  /** `unpin` refuses unsynced edits unless forced, fails on a stuck file, and otherwise row and copy go. */
  lemma {:induction false} UnpinAnswers(s: PinState, remote: string, force: bool, stuck: set<string>)
    ensures var (s', res) := Unpin(s, remote, force, stuck);
      var held := Lookup(s, remote).Some?;
      var edits := held && s.disk[s.pins[remote].local].StampOf() != s.pins[remote].stamp;
      && (res == Err(Cli) <==> edits && !force)
      && (res == Err(Io) <==> held && s.pins[remote].local in stuck && (force || !edits))
      && (res.Err? ==> (res.error == Cli || res.error == Io) && s' == s)
      && (res.Ok? ==> s'.pins == s.pins - {remote} &&
                      s'.disk == if held then s.disk - {s.pins[remote].local} else s.disk)
  {
  }

  /** A folder's path with a trailing slash matches what is strictly below it. */
  lemma {:induction false} MatchesBelow(p: string, q: string)
    requires Norm(p) && Norm(q)
    ensures Matches(p + "/", q) <==> Under(p, q) && q != p
  {
    NormPlain(q);
    var init, name := NormShape(q);
    assert q[|q| - 1] == name[|name| - 1] != '/';
    assert (p + "/")[|p|] == '/';
  }

  // ---- The mirror -------------------------------------------------------------------

  /** Every pin's local copy is at the cache root followed by its Drive path. */
  predicate Mirror(s: PinState) {
    && ValidRoot(s.root)
    && forall q :: q in s.pins ==> Norm(q) && s.pins[q].local == s.root + q
  }

  lemma {:induction false} RootInjective(root: string, p: string, q: string)
    requires root + p == root + q
    ensures p == q
  {
    assert (root + p)[|root|..] == p && (root + q)[|root|..] == q;
  }

  lemma {:induction false} NormPlain(p: string)
    requires Norm(p)
    ensures TrimEnd(p) == p && forall q :: Matches(p, q) <==> Under(p, q)
  {
    var init, name := NormShape(p);
    assert p[|p| - 1] == name[|name| - 1];
  }

  /** Under the mirror the query by local path has one answer, and inverts the pin table. */
  lemma {:induction false} MirrorOwner(s: PinState, local: string, owner: Option<string>)
    requires Mirror(s) && IsOwner(s.pins, local, owner)
    ensures owner.Some? ==> local == s.root + owner.value && s.pins[owner.value].local == local
    ensures forall q :: q in s.pins && local == s.root + q ==> owner == Some(q)
    ensures forall q, q' :: q in s.pins && q' in s.pins && s.pins[q].local == s.pins[q'].local ==> q == q'
  {
    forall q, q' | s.root + q == s.root + q'
      ensures q == q'
    {
      assert (s.root + q)[|s.root|..] == q;
    }
  }
}
