/** The daemon sees the file moves that `rename_tree` itself makes. In every interleaving of
    workers and daemon, such an event finds no row for the path the file came from, so it does
    not rename anything on Drive a second time. */
module SelfRename {
  import opened Paths
  import opened Drive
  import opened PinStore
  import opened SyncSpec
  import opened PinRuns

  /** A row already rekeyed whose file has not moved yet; `seen` counts the writes of rows with
      local path `local` up to then. */
  datatype Flight = Flight(q: string, local: string, target: string, newLocal: string, seen: nat)

  /** A queued rename event; `own` when `rename_tree` caused it. */
  datatype Event = Event(from: string, to: string, own: bool, seen: nat)

  datatype Machine = Machine(
    s: PinState,
    r: Remote,
    flights: seq<Flight>,
    events: seq<Event>,
    writes: map<string, nat>)

  function Count(writes: map<string, nat>, local: string): nat {
    if local in writes then writes[local] else 0
  }

  /** A row with this local path was written. */
  function Note(writes: map<string, nat>, local: string): map<string, nat> {
    writes[local := Count(writes, local) + 1]
  }

  datatype Move =
    | Pins(remote: string, force: bool, mtime: int)
    | Unpins(remote: string, force: bool, stuck: set<string>)
    | Rekeys(q: string, src: string, dst: string)
    | MovesFile(flight: nat, works: bool)
    | UserMoves(from: string, to: string)
    | Handles(event: nat, owner: Option<string>)

  predicate Enabled(m: Machine, move: Move) {
    match move
    case Pins(remote, _, _) => Norm(remote)
    case Unpins(_, _, _) => true
    case Rekeys(q, src, dst) => Norm(src) && Norm(dst) && Norm(q) && Under(src, q)
    case MovesFile(i, _) => i < |m.flights|
    case UserMoves(from, to) => from in m.s.disk
    case Handles(k, owner) =>
      && k < |m.events| && IsOwner(m.s.pins, m.events[k].from, owner)
      && (owner.Some? ==> HandledCleanly(m, m.events[k], owner.value))
  }

  /** An event for a pinned file is propagated to Drive, for a mirrored destination. */
  predicate HandledCleanly(m: Machine, e: Event, source: string) {
    match RemotePathForLocal(m.s.root, e.to)
    case None => true
    case Some(target) =>
      Norm(target) && e.to == m.s.root + target &&
        RemoteRename(m.r, source, target, BaseName(e.from), BaseName(e.to)).0.Ok?
  }

  function Remove<T>(xs: seq<T>, i: nat): seq<T>
    requires i < |xs|
  {
    xs[..i] + xs[i + 1..]
  }

  /** First half of a `rename_tree` round: the row, for the local path it was queried with. */
  function RekeyStep(m: Machine, q: string, src: string, dst: string): Machine
    requires Under(src, q)
  {
    match LocalPath(m.s.root, Rekey(src, dst, q))
    case None => m
    case Some(newLocal) => RekeyTo(m, q, Rekey(src, dst, q), newLocal)
  }

  function RekeyTo(m: Machine, q: string, target: string, newLocal: string): Machine {
    var local := m.s.root + q;
    match RenameRow(m.s.pins, q, target, newLocal)
    case Err(_) => m
    case Ok(pins) =>
      Machine(m.s.(pins := pins), m.r, m.flights + [Flight(q, local, target, newLocal, Count(m.writes, local))],
              m.events, Note(m.writes, newLocal))
  }

  /** Second half: the file moves and causes an event, or is stuck and the row goes back. */
  function FileStep(m: Machine, i: nat, works: bool): Machine
    requires i < |m.flights|
  {
    var f := m.flights[i];
    var m1 := m.(flights := Remove(m.flights, i));
    if f.local !in m.s.disk then m1
    else if works then
      m1.(s := m.s.(disk := (m.s.disk - {f.local})[f.newLocal := m.s.disk[f.local]]),
          events := m.events + [Event(f.local, f.newLocal, true, f.seen)])
    else
      match RenameRow(m.s.pins, f.target, f.q, f.local)
      case Err(_) => m1
      case Ok(pins) => m1.(s := m.s.(pins := pins), writes := Note(m.writes, f.local))
  }

  /** The daemon takes an event from the queue. */
  function HandleStep(m: Machine, k: nat, owner: Option<string>): Machine
    requires k < |m.events|
  {
    var e := m.events[k];
    var (s, r, _) := HandleRename(m.s, m.r, owner, e.from, e.to);
    m.(s := s, r := r, events := Remove(m.events, k),
       writes := if owner.Some? then Note(m.writes, e.to) else m.writes)
  }

  function Next(m: Machine, move: Move): Machine
    requires Enabled(m, move)
  {
    match move
    case Pins(remote, force, mtime) =>
      var (s, r, res) := PinPath(m.s, m.r, remote, force, mtime);
      m.(s := s, r := r, writes := if res.Ok? then Note(m.writes, res.value) else m.writes)
    case Unpins(remote, force, stuck) => m.(s := Unpin(m.s, remote, force, stuck).0)
    case Rekeys(q, src, dst) => RekeyStep(m, q, src, dst)
    case MovesFile(i, works) => FileStep(m, i, works)
    case UserMoves(from, to) => m.(s := Moved(m.s, from, to), events := m.events + [Event(from, to, false, 0)])
    case Handles(k, owner) => HandleStep(m, k, owner)
  }

  // ---- The invariant ----------------------------------------------------------------

  predicate Untracked(pins: Rows, local: string) {
    forall q :: q in pins ==> pins[q].local != local
  }

  /** Unless a row with that local path was written since, nothing is tracked there. */
  predicate Quiet(m: Machine, local: string, seen: nat) {
    seen <= Count(m.writes, local) && (seen == Count(m.writes, local) ==> Untracked(m.s.pins, local))
  }

  predicate FlightOk(m: Machine, f: Flight) {
    Norm(f.q) && Norm(f.target) && f.local == m.s.root + f.q && f.newLocal == m.s.root + f.target &&
      Quiet(m, f.local, f.seen)
  }

  predicate FlightsOk(m: Machine, flights: seq<Flight>) {
    forall i :: 0 <= i < |flights| ==> FlightOk(m, flights[i])
  }

  predicate EventsOk(m: Machine, events: seq<Event>) {
    forall k :: 0 <= k < |events| && events[k].own ==> Quiet(m, events[k].from, events[k].seen)
  }

  predicate Inv(m: Machine) {
    Mirror(m.s) && FlightsOk(m, m.flights) && EventsOk(m, m.events)
  }

  lemma {:induction false} FlightGone(m: Machine, flights: seq<Flight>, i: nat)
    requires FlightsOk(m, flights) && i < |flights|
    ensures FlightsOk(m, Remove(flights, i))
  {
  }

  lemma {:induction false} EventGone(m: Machine, events: seq<Event>, k: nat)
    requires EventsOk(m, events) && k < |events|
    ensures EventsOk(m, Remove(events, k))
  {
  }

  /** Rows change only by forgetting local paths and by writing the noted one. */
  predicate Follows(m: Machine, m': Machine, written: Option<string>) {
    && m'.s.root == m.s.root
    && m'.writes == (if written.Some? then Note(m.writes, written.value) else m.writes)
    && forall q :: q in m'.s.pins ==>
         written == Some(m'.s.pins[q].local) || exists p :: p in m.s.pins && m.s.pins[p].local == m'.s.pins[q].local
  }

  lemma {:induction false} QuietStays(m: Machine, m': Machine, written: Option<string>, local: string, seen: nat)
    requires Follows(m, m', written) && Quiet(m, local, seen)
    ensures Quiet(m', local, seen)
  {
  }

  lemma {:induction false} FlightsAndEventsStay(m: Machine, m': Machine, written: Option<string>)
    requires Inv(m) && Follows(m, m', written)
    ensures FlightsOk(m', m.flights) && EventsOk(m', m.events)
  {
    forall i | 0 <= i < |m.flights|
      ensures FlightOk(m', m.flights[i])
    {
      QuietStays(m, m', written, m.flights[i].local, m.flights[i].seen);
    }
    forall k | 0 <= k < |m.events| && m.events[k].own
      ensures Quiet(m', m.events[k].from, m.events[k].seen)
    {
      QuietStays(m, m', written, m.events[k].from, m.events[k].seen);
    }
  }

  lemma {:induction false} PinStep(m: Machine, move: Move)
    requires Inv(m) && move.Pins? && Enabled(m, move)
    ensures Inv(Next(m, move))
  {
    PinMirrors(m.s, m.r, move.remote, move.force, move.mtime);
    LocalPathMirrors(m.s.root, move.remote);
    var res := PinPath(m.s, m.r, move.remote, move.force, move.mtime).2;
    FlightsAndEventsStay(m, Next(m, move), if res.Ok? then Some(res.value) else None);
  }

  lemma {:induction false} UnpinStep(m: Machine, move: Move)
    requires Inv(m) && move.Unpins? && Enabled(m, move)
    ensures Inv(Next(m, move))
  {
    FlightsAndEventsStay(m, Next(m, move), None);
  }

  /** The row goes before the file: once it is rekeyed nothing is tracked at the old place. */
  lemma {:induction false} RekeyedAway(s: PinState, q: string, target: string, pins: Rows)
    requires Mirror(s) && Norm(q) && Norm(target) && q != target
    requires RenameRow(s.pins, q, target, s.root + target) == Ok(pins)
    ensures Untracked(pins, s.root + q)
  {
    forall k | k in pins
      ensures pins[k].local != s.root + q
    {
      if s.root + k == s.root + q { RootInjective(s.root, k, q); }
      if s.root + target == s.root + q { RootInjective(s.root, target, q); }
    }
  }

  lemma {:induction false} RekeyKeepsInv(m: Machine, move: Move)
    requires Inv(m) && move.Rekeys? && Enabled(m, move)
    ensures Inv(Next(m, move))
  {
    RekeyNorm(move.src, move.dst, move.q);
    LocalPathMirrors(m.s.root, Rekey(move.src, move.dst, move.q));
    RekeyToKeepsInv(m, move.q, Rekey(move.src, move.dst, move.q));
  }

  lemma {:induction false} RekeyToKeepsInv(m: Machine, q: string, target: string)
    requires Inv(m) && Norm(q) && Norm(target)
    ensures Inv(RekeyTo(m, q, target, m.s.root + target))
  {
    RenameRowMirrors(m.s, q, target);
    var m' := RekeyTo(m, q, target, m.s.root + target);
    var res := RenameRow(m.s.pins, q, target, m.s.root + target);
    if res.Ok? {
      FlightsAndEventsStay(m, m', Some(m.s.root + target));
      if q != target {
        RekeyedAway(m.s, q, target, res.value);
        if m.s.root + q == m.s.root + target { RootInjective(m.s.root, q, target); }
      }
      assert FlightOk(m', m'.flights[|m.flights|]);
    }
  }

  lemma {:induction false} FileFollows(m: Machine, i: nat, works: bool, written: Option<string>)
    requires Inv(m) && i < |m.flights|
    requires var f := m.flights[i];
      written == if f.local in m.s.disk && !works && RenameRow(m.s.pins, f.target, f.q, f.local).Ok?
        then Some(f.local) else None
    ensures Mirror(FileStep(m, i, works).s) && Follows(m, FileStep(m, i, works), written)
  {
    var f := m.flights[i];
    assert FlightOk(m, f);
    RenameRowMirrors(m.s, f.target, f.q);
  }

  lemma {:induction false} FileKeepsInv(m: Machine, i: nat, works: bool)
    requires Inv(m) && i < |m.flights|
    ensures Inv(FileStep(m, i, works))
  {
    var f := m.flights[i];
    assert FlightOk(m, f);
    var m' := FileStep(m, i, works);
    var back := f.local in m.s.disk && !works && RenameRow(m.s.pins, f.target, f.q, f.local).Ok?;
    var written := if back then Some(f.local) else None;
    FileFollows(m, i, works, written);
    FlightsAndEventsStay(m, m', written);
    QuietStays(m, m', written, f.local, f.seen);
    FlightGone(m', m.flights, i);
  }

  lemma {:induction false} UserKeepsInv(m: Machine, move: Move)
    requires Inv(m) && move.UserMoves? && Enabled(m, move)
    ensures Inv(Next(m, move))
  {
    FlightsAndEventsStay(m, Next(m, move), None);
  }

  /** A rekeyed row takes the new local path; the others keep theirs. */
  lemma {:induction false} RekeyedRows(s: PinState, source: string, target: string, to: string)
    ensures var s' := Rekeyed(s, source, target, to).0;
      s'.root == s.root &&
      forall q :: q in s'.pins ==>
          s'.pins[q].local == to || exists p :: p in s.pins && s.pins[p].local == s'.pins[q].local
  {
    var s' := Rekeyed(s, source, target, to).0;
    forall q | q in s'.pins
      ensures s'.pins[q].local == to || exists p :: p in s.pins && s.pins[p].local == s'.pins[q].local
    {
      if s'.pins[q].local != to { assert q in s.pins; }
    }
  }

  lemma {:induction false} HandledRows(s: PinState, r: Remote, source: string, from: string, to: string)
    requires Mirror(s)
    requires match RemotePathForLocal(s.root, to)
      case None => true
      case Some(target) =>
        Norm(target) && to == s.root + target && RemoteRename(r, source, target, BaseName(from), BaseName(to)).0.Ok?
    ensures var s' := HandleRename(s, r, Some(source), from, to).0;
      Mirror(s') && s'.root == s.root &&
      forall q :: q in s'.pins ==>
          s'.pins[q].local == to || exists p :: p in s.pins && s.pins[p].local == s'.pins[q].local
  {
    var target := RemotePathForLocal(s.root, to);
    if target.Some? {
      RenameRowMirrors(s, source, target.value);
      RekeyedRows(s, source, target.value, to);
      assert HandleRename(s, r, Some(source), from, to).0 == Rekeyed(s, source, target.value, to).0;
    }
  }

  lemma {:induction false} HandledOwner(m: Machine, k: nat, source: string)
    requires Mirror(m.s) && k < |m.events| && HandledCleanly(m, m.events[k], source)
    ensures var m' := HandleStep(m, k, Some(source));
      Mirror(m'.s) && Follows(m, m', Some(m.events[k].to))
  {
    HandledRows(m.s, m.r, source, m.events[k].from, m.events[k].to);
  }

  lemma {:induction false} HandledNobody(m: Machine, k: nat)
    requires Mirror(m.s) && k < |m.events|
    ensures var m' := HandleStep(m, k, None);
      Mirror(m'.s) && Follows(m, m', None)
  {
  }

  lemma {:induction false} HandledFollows(m: Machine, k: nat, owner: Option<string>)
    requires Mirror(m.s) && k < |m.events| && (owner.Some? ==> HandledCleanly(m, m.events[k], owner.value))
    ensures var m' := HandleStep(m, k, owner);
      Mirror(m'.s) && Follows(m, m', if owner.Some? then Some(m.events[k].to) else None)
  {
    match owner
    case Some(source) => HandledOwner(m, k, source);
    case None => HandledNobody(m, k);
  }

  lemma {:induction false} HandleKeepsInv(m: Machine, k: nat, owner: Option<string>)
    requires Inv(m) && k < |m.events| && IsOwner(m.s.pins, m.events[k].from, owner)
    requires owner.Some? ==> HandledCleanly(m, m.events[k], owner.value)
    ensures Inv(HandleStep(m, k, owner))
  {
    HandledFollows(m, k, owner);
    FlightsAndEventsStay(m, HandleStep(m, k, owner), if owner.Some? then Some(m.events[k].to) else None);
    EventGone(HandleStep(m, k, owner), m.events, k);
  }

  lemma {:induction false} NextKeepsInv(m: Machine, move: Move)
    requires Inv(m) && Enabled(m, move)
    ensures Inv(Next(m, move))
  {
    match move
    case Pins(_, _, _) => PinStep(m, move);
    case Unpins(_, _, _) => UnpinStep(m, move);
    case Rekeys(_, _, _) => RekeyKeepsInv(m, move);
    case MovesFile(i, works) => FileKeepsInv(m, i, works);
    case UserMoves(_, _) => UserKeepsInv(m, move);
    case Handles(k, owner) => HandleKeepsInv(m, k, owner);
  }

  predicate Runs(m: Machine, moves: seq<Move>)
    decreases |moves|
  {
    moves == [] || (Enabled(m, moves[0]) && Runs(Next(m, moves[0]), moves[1..]))
  }

  function Final(m: Machine, moves: seq<Move>): Machine
    requires Runs(m, moves)
    decreases |moves|
  {
    if moves == [] then m else Final(Next(m, moves[0]), moves[1..])
  }

  lemma {:induction false} InvAlways(m: Machine, moves: seq<Move>)
    requires Inv(m) && Runs(m, moves)
    ensures Inv(Final(m, moves))
    decreases |moves|
  {
    if moves != [] {
      NextKeepsInv(m, moves[0]);
      InvAlways(Next(m, moves[0]), moves[1..]);
    }
  }

  /** `handle_rename` leaves rows and Drive alone exactly when nothing is tracked at `from`, or
      `to` is outside the cache: otherwise it calls the CLI. */
  lemma {:induction false} HandleRenameIdle(s: PinState, r: Remote, owner: Option<string>, from: string, to: string)
    ensures HandleRename(s, r, owner, from, to) == (s, r, Ok(Unit)) <==>
      owner.None? || RemotePathForLocal(s.root, to).None?
  {
    if owner.Some? && RemotePathForLocal(s.root, to).Some? {
      RemoteRenameCalls(r, owner.value, RemotePathForLocal(s.root, to).value, BaseName(from), BaseName(to));
    }
  }

  lemma {:induction false} ExtendChainCalls(r: Remote, current: string, segs: seq<string>)
    ensures var (res, r') := ExtendChain(r, current, segs);
      |r.calls| <= |r'.calls| && (res.Err? ==> |r.calls| < |r'.calls|)
    decreases |segs|
  {
    if segs != [] {
      var next := current + "/" + segs[0];
      var r1 := Stat(r, next).1;
      var r2 := MakeFolder(r1, current, segs[0]).1;
      ExtendChainCalls(r1, next, segs[1..]);
      ExtendChainCalls(r2, next, segs[1..]);
    }
  }

  lemma {:induction false} RenameCalls(r: Remote, p: string, name: string)
    ensures |RenamePath(r, p, name).1.calls| == |r.calls| + 1
  {
  }

  lemma {:induction false} MoveCalls(r: Remote, p: string, parent: string)
    ensures |MovePath(r, p, parent).1.calls| == |r.calls| + 1
  {
  }

  lemma {:induction false} RemoteRenameCalls(r: Remote, source: string, target: string, oldName: string,
                                             newName: string)
    ensures |RemoteRename(r, source, target, oldName, newName).1.calls| > |r.calls|
  {
    var segs := Segs(RemoteParent(target));
    if |segs| > 1 { ExtendChainCalls(r, "/" + segs[0], segs[1..]); }
    var r1 := EnsureChain(r, RemoteParent(target)).1;
    RenameCalls(r1, source, newName);
    MoveCalls(r1, source, RemoteParent(target));
    RenameCalls(MovePath(r1, source, RemoteParent(target)).1, RemoteParent(target) + "/" + oldName, newName);
  }

  /** In every reachable state, an event caused by `rename_tree`'s own file move is a no-op for
      the daemon, however late it is processed and whatever else ran in between, unless a row
      with the old local path was written since its own row moved on. */
  lemma {:induction false} OwnMovesAreNoOps(m: Machine, moves: seq<Move>, k: nat, owner: Option<string>)
    requires Inv(m) && Runs(m, moves)
    requires var m' := Final(m, moves);
      && k < |m'.events| && m'.events[k].own
      && m'.events[k].seen == Count(m'.writes, m'.events[k].from)
      && IsOwner(m'.s.pins, m'.events[k].from, owner)
    ensures var m' := Final(m, moves);
      HandleRename(m'.s, m'.r, owner, m'.events[k].from, m'.events[k].to) == (m'.s, m'.r, Ok(Unit))
  {
    InvAlways(m, moves);
    var m' := Final(m, moves);
    assert Quiet(m', m'.events[k].from, m'.events[k].seen);
    HandleRenameIdle(m'.s, m'.r, owner, m'.events[k].from, m'.events[k].to);
  }

  /** With nothing in between, the two halves are one round of `rename_tree`. */
  lemma {:induction false} TwoHalvesAreOneRound(m: Machine, q: string, src: string, dst: string, stuck: set<string>)
    requires Mirror(m.s) && Norm(src) && Norm(dst) && Norm(q) && Under(src, q)
    ensures var m1 := RekeyStep(m, q, src, dst);
      var (s, _) := MoveRow(m.s, q, m.s.root + q, src, dst, stuck);
      if |m1.flights| == |m.flights| then s == m.s && m1 == m
      else
        var f := m1.flights[|m.flights|];
        |m1.flights| == |m.flights| + 1 && FileStep(m1, |m.flights|, f.local !in stuck && f.newLocal !in stuck).s == s
  {
    MoveRowIs(m.s, q, m.s.root + q, src, dst, stuck);
    RekeyNorm(src, dst, q);
    LocalPathMirrors(m.s.root, Rekey(src, dst, q));
    var target := Rekey(src, dst, q);
    var m1 := RekeyStep(m, q, src, dst);
    assert m1 == RekeyTo(m, q, target, m.s.root + target);
    assert m1.flights == m.flights || m1.flights[|m.flights|] == m1.flights[|m1.flights| - 1];
  }

  /** The other order: the file has moved and its event is queued, and the row is still as it was. */
  function FileFirst(m: Machine, q: string, target: string): Machine
    requires m.s.root + q in m.s.disk
  {
    var from, to := m.s.root + q, m.s.root + target;
    m.(s := Moved(m.s, from, to), events := m.events + [Event(from, to, true, Count(m.writes, from))])
  }

  /** Then the daemon still finds the row, and calls Drive again. */
  lemma {:induction false} FileFirstWouldActTwice(m: Machine, q: string, target: string, owner: Option<string>)
    requires Mirror(m.s) && q in m.s.pins && m.s.root + q in m.s.disk && Norm(target)
    requires IsOwner(FileFirst(m, q, target).s.pins, m.s.root + q, owner)
    ensures var m1 := FileFirst(m, q, target);
      owner == Some(q) && |HandleStep(m1, |m.events|, owner).r.calls| > |m.r.calls|
  {
    MirrorOwner(m.s, m.s.root + q, owner);
    LocalBaseName(m.s.root, target);
    RemoteRenameCalls(m.r, q, target, BaseName(m.s.root + q), BaseName(m.s.root + target));
  }

  /** Row first, it finds none and does nothing; rows and files end up the same way. */
  lemma {:induction false} RowFirstActsOnce(m: Machine, q: string, target: string, owner: Option<string>)
    requires Mirror(m.s) && q in m.s.pins && m.s.root + q in m.s.disk && Norm(target) && target !in m.s.pins
    requires var m1 := RekeyTo(m, q, target, m.s.root + target);
      |m1.flights| == |m.flights| + 1 && IsOwner(FileStep(m1, |m.flights|, true).s.pins, m.s.root + q, owner)
    ensures var m2 := FileStep(RekeyTo(m, q, target, m.s.root + target), |m.flights|, true);
      && m2.s.disk == FileFirst(m, q, target).s.disk
      && |m2.events| == |m.events| + 1 && owner == None && HandleStep(m2, |m.events|, owner).r == m.r
  {
    var m1 := RekeyTo(m, q, target, m.s.root + target);
    RekeyedAway(m.s, q, target, m1.s.pins);
    assert m1.flights[|m.flights|].local == m.s.root + q;
  }
}
