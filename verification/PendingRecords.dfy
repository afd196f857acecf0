/** When recording a stamp after an upload is right. The daemon records it for the path it read, and by
    then a rename may have brought another pin there. */
module PendingRecords {
  import opened Paths
  import opened Relocation
  import opened Drive
  import opened PinStore
  import opened PinTree
  import opened SyncSpec
  import PinRuns
  import opened SyncRuns

  // ---- The exact condition ----------------------------------------------------------

  /** The rename, while an upload is pending, and then the record. */
  ghost function RenameThenMark(y: Sys, source: string, target: string, rows: seq<string>): Sys
    requires y.job.Sent? && Fair(y.(job := Idle), RenamesOnDrive(source, target, rows))
  {
    MarkStep(Next(y.(job := Idle), RenamesOnDrive(source, target, rows)).(job := y.job))
  }

  /** The record keeps clean pins on Drive exactly when the rename brought to its path no version of that
      stamp that Drive lacks. */
  lemma {:induction false} PendingRecordIff(y: Sys, source: string, target: string, rows: seq<string>)
    requires Inv(y) && y.job.Sent? && Fair(y.(job := Idle), RenamesOnDrive(source, target, rows))
    ensures var y' := RenameThenMark(y, source, target, rows);
      Synced(y'.s, y'.r.tree, y'.overtaken) <==> ArrivalOk(y, source, target)
  {
    var e := RenamesOnDrive(source, target, rows);
    if ArrivalOk(y, source, target) {
      NextKeepsInv(y, e);
      MarksKeeps(Next(y, e));
      assert Next(y, e) == Next(y.(job := Idle), e).(job := y.job);
    } else {
      BadArrival(y, source, target, rows);
    }
  }

  lemma {:induction false} BadArrival(y: Sys, source: string, target: string, rows: seq<string>)
    requires Inv(y) && y.job.Sent? && Fair(y.(job := Idle), RenamesOnDrive(source, target, rows))
    requires !ArrivalOk(y, source, target)
    ensures var y' := RenameThenMark(y, source, target, rows);
      Clean(y'.s, y.job.q) && !OnDrive(y'.s, y'.r.tree, y.job.q) && y'.s.pins[y.job.q].stamp !in y'.overtaken
  {
    RenamesOutcome(y.(job := Idle), RenamesOnDrive(source, target, rows));
    ArrivedFile(y.s, y.r.tree, source, target, y.job.q);
  }

  // ---- A run that violates it -------------------------------------------------------

  lemma {:induction false} FirstEvent(y: Sys, e: Event, rest: seq<Event>)
    ensures FairRun(y, [e] + rest) <==> Fair(y, e) && FairRun(Next(y, e), rest)
    ensures FairRun(y, [e] + rest) ==> End(y, [e] + rest) == End(Next(y, e), rest)
  {
    var events := [e] + rest;
    assert events[0] == e && events[1..] == rest;
  }

  lemma {:induction false} OneMoreEvent(y: Sys, events: seq<Event>, e: Event)
    requires FairRun(y, events) && Fair(End(y, events), e)
    ensures FairRun(y, events + [e]) && End(y, events + [e]) == Next(End(y, events), e)
    decreases |events|
  {
    if events == [] {
      FirstEvent(y, e, []);
      assert [] + [e] == [e] + [];
    } else {
      var first, rest := events[0], events[1..];
      assert events == [first] + rest;
      FirstEvent(y, first, rest);
      OneMoreEvent(Next(y, first), rest, e);
      FirstEvent(y, first, rest + [e]);
      assert events + [e] == [first] + (rest + [e]);
    }
  }

  /** Everything the next steps depend on. */
  predicate At(y: Sys, s: PinState, tree: Tree, job: Job, used: set<Stamp>) {
    y.s == s && y.r.tree == tree && y.r.faults == [] && y.job == job && y.used == used && y.overtaken == {}
  }

  /** The events lead there, each of them fair. */
  ghost predicate Reaches(y0: Sys, events: seq<Event>, s: PinState, tree: Tree, job: Job, used: set<Stamp>) {
    FairRun(y0, events) && At(End(y0, events), s, tree, job, used)
  }

  /** Two places in one section: a file at `q` on Drive, nothing at `x`. */
  predicate Scene(section: string, x: string, q: string, tree: Tree) {
    && Norm(section) && RemoteParent(section) == "/" && Norm(x) && Norm(q) && x != q
    && RemoteParent(x) == section == RemoteParent(q)
    && WellFormed(tree) && FolderAt(tree, section) && section in tree && q in tree && x !in tree
    && !tree[q].entry.isFolder && !tree[q].entry.webOnly
  }

  lemma {:induction false} PinCall(y: Sys, q: string, mtime: int, root: string, tree: Tree)
    requires At(y, PinState(root, map[], map[]), tree, Idle, {}) && ValidRoot(root) && Norm(q)
    requires q in tree && !tree[q].entry.isFolder && !tree[q].entry.webOnly
    ensures Fair(y, Pins(q, false, mtime))
    ensures var f := File(tree[q].bytes, mtime);
      At(Next(y, Pins(q, false, mtime)),
         PinState(root, map[q := Pin(root + q, f.StampOf())], map[root + q := f]), tree, Idle, {f.StampOf()})
  {
    PinRuns.PinSucceeds(y.s, y.r, q, false, mtime);
    PinRemote(y.s, y.r, q, mtime);
  }

  lemma {:induction false} PinRemote(s: PinState, r: Remote, q: string, mtime: int)
    requires r.faults == []
    ensures PinPath(s, r, q, false, mtime).1.tree == r.tree && PinPath(s, r, q, false, mtime).1.faults == []
  {
  }

  lemma {:induction false} WriteCall(y: Sys, s: PinState, tree: Tree, job: Job, used: set<Stamp>, local: string,
                                     file: File)
    requires At(y, s, tree, job, used) && file.StampOf() !in used
    ensures Fair(y, Edits(local, file))
    ensures At(Next(y, Edits(local, file)), s.(disk := s.disk[local := file]), tree, job, used + {file.StampOf()})
  {
  }

  lemma {:induction false} ReadCall(y: Sys, s: PinState, tree: Tree, used: set<Stamp>, q: string)
    requires At(y, s, tree, Idle, used) && Mirror(s) && q in s.pins && s.root + q in s.disk
    requires s.disk[s.root + q].StampOf() != s.pins[q].stamp
    ensures Fair(y, ReadsMetadata(s.root + q, Some(q)))
    ensures At(Next(y, ReadsMetadata(s.root + q, Some(q))), s, tree,
               Reading(q, s.root + q, s.disk[s.root + q].StampOf()), used)
  {
  }

  lemma {:induction false} SiblingsApart(section: string, x: string, q: string)
    requires Norm(section) && Norm(x) && Norm(q) && x != q && RemoteParent(x) == section == RemoteParent(q)
    ensures !Under(x, q) && !Under(q, x) && !Under(x, section) && !Under(q, section)
  {
    NotBelowSibling(x, q);
    NotBelowSibling(q, x);
    ParentAbove(x);
    ParentAbove(q);
  }

  lemma {:induction false} OneNode(tree: Tree, q: string, x: string)
    requires q in tree && !Under(q, x) && !Under(x, q) && Subtree(tree, q) == {q}
    ensures Relocate(tree, q, x) == (tree - {q})[x := tree[q]]
  {
    MoveOneMore(tree, {}, q, q, x);
    MoveNothing(tree, q, x);
    assert {} + {q} == {q};
    assert Rekey(q, x, q) == x;
  }

  lemma {:induction false} OnePin(s: PinState, q: string, x: string)
    requires Movable(s, q, x) && q in s.pins && s.root + q in s.disk && Subtree(s.pins, q) == {q}
    ensures After(s, Subtree(s.pins, q), q, x) == TrackedMoved(s, q, x)
  {
    AfterOnePin(s, {}, q, q, x);
    AfterOneFile(s, {}, q, q, x);
    AfterNothing(s, q, x);
    assert {} + {q} == {q};
    assert Rekey(q, x, q) == x;
  }

  lemma {:induction false} RenameCall(y: Sys, s: PinState, tree: Tree, job: Job, used: set<Stamp>, section: string,
                                      q: string, x: string)
    requires At(y, s, tree, job, used) && !job.Sent? && Mirror(s) && s.pins.Keys == {q} && s.root + q in s.disk
    requires Norm(section) && Norm(x) && Norm(q) && x != q && RemoteParent(x) == section == RemoteParent(q)
    requires WellFormed(tree) && q in tree && x !in tree && Subtree(tree, q) == {q}
    ensures Fair(y, RenamesOnDrive(q, x, [q]))
    ensures At(Next(y, RenamesOnDrive(q, x, [q])), TrackedMoved(s, q, x), (tree - {q})[x := tree[q]], job, used)
  {
    SiblingsApart(section, x, q);
    NormPlain(q);
    RenameOrMoveSucceeds(y.r, q, x);
    assert [q][0] == q;
    assert Subtree(s.pins, q) == {q};
    RenamesOutcome(y, RenamesOnDrive(q, x, [q]));
    OnePin(s, q, x);
    OneNode(tree, q, x);
    RenameFaults(y.r, q, x);
  }

  lemma {:induction false} RenameFaults(r: Remote, q: string, x: string)
    requires r.faults == [] && Norm(q) && Norm(x) && RemoteParent(q) == RemoteParent(x)
    ensures RenameOrMove(r, q, x).1.faults == []
  {
    RenameOrMoveIsNorm(r, q, x);
  }

  lemma {:induction false} SectionChain(r: Remote, section: string)
    requires Norm(section) && RemoteParent(section) == "/"
    ensures EnsureChain(r, section) == (Ok(Unit), r)
  {
    var init, name := NormShape(section);
  }

  lemma {:induction false} SendCall(y: Sys, s: PinState, tree: Tree, used: set<Stamp>, section: string, q: string,
                                    stamp: Stamp)
    returns (node: Node)
    requires At(y, s, tree, Reading(q, s.root + q, stamp), used) && Norm(q) && s.root + q in s.disk
    requires Norm(section) && RemoteParent(section) == "/" && RemoteParent(q) == section
    requires FolderAt(tree, section) && q !in tree
    ensures Fair(y, Sends)
    ensures At(Next(y, Sends), s, tree[q := node], Sent(q, stamp), used)
  {
    SectionChain(y.r, section);
    UploadTarget(s.root, q);
    assert y.r.faults == [];
    node := NewVersion(y.r, q, s.disk[s.root + q].bytes);
    UploadCall(y.r, s.root + q, s.disk[s.root + q].bytes, section, q);
  }

  lemma {:induction false} UploadCall(r: Remote, local: string, bytes: Bytes, parent: string, q: string)
    requires r.faults == [] && FolderAt(r.tree, parent) && Child(parent, BaseName(local)) == q && !FolderAt(r.tree, q)
    ensures var (res, r') := UploadFile(r, local, bytes, parent);
      res.Ok? && r'.faults == [] && r'.tree == r.tree[q := NewVersion(r, q, bytes)]
  {
  }

  lemma {:induction false} OthersCall(y: Sys, s: PinState, tree: Tree, job: Job, used: set<Stamp>, tree': Tree)
    requires At(y, s, tree, job, used) && WellFormed(tree')
    requires forall q :: q in s.pins && q in tree ==> q in tree' && tree'[q] == tree[q]
    ensures Fair(y, OthersWrite(tree')) && At(Next(y, OthersWrite(tree')), s, tree', job, used)
  {
  }

  /** The state before the fatal rename: `x` holds the edit whose stamp is about to be recorded for `q`. */
  lemma {:induction false} FatalRename(y: Sys, s: PinState, tree: Tree, used: set<Stamp>, section: string, q: string,
                                       x: string)
    requires Mirror(s) && s.pins.Keys == {x} && s.root + x in s.disk
    requires At(y, s, tree, Sent(q, s.disk[s.root + x].StampOf()), used)
    requires Norm(section) && Norm(x) && Norm(q) && x != q && RemoteParent(x) == section == RemoteParent(q)
    requires WellFormed(tree) && x in tree && q !in tree && tree[x].bytes != s.disk[s.root + x].bytes
    ensures y.job.Sent? && Fair(y.(job := Idle), RenamesOnDrive(x, q, [x])) && !ArrivalOk(y, x, q)
  {
    SiblingsApart(section, x, q);
    NormPlain(x);
    RenameOrMoveSucceeds(y.r, x, q);
    assert [x][0] == x;
    assert Rekey(q, x, q) == x;
  }

  lemma {:induction false} SceneAfterRename(section: string, x: string, q: string, tree: Tree)
    requires Scene(section, x, q, tree) && Subtree(tree, q) == {q}
    ensures var tree1 := (tree - {q})[x := tree[q]];
      WellFormed(tree1) && FolderAt(tree1, section) && q !in tree1
  {
    SiblingsApart(section, x, q);
    OneNode(tree, q, x);
    RelocateKeepsWellFormed(tree, q, x);
  }

  lemma {:induction false} CarriedIs(s: PinState, q: string, x: string)
    requires q in s.pins && s.root + q in s.disk && s.pins.Keys == {q} && s.disk.Keys == {s.root + q}
    ensures TrackedMoved(s, q, x) ==
            PinState(s.root, map[x := s.pins[q].(local := s.root + x)], map[s.root + x := s.disk[s.root + q]])
  {
  }

  // ---- The run, event by event ------------------------------------------------------

  lemma {:induction false} ThenPin(y0: Sys, root: string, tree: Tree, q: string, mtime: int)
    returns (events: seq<Event>)
    requires At(y0, PinState(root, map[], map[]), tree, Idle, {}) && ValidRoot(root) && Norm(q)
    requires q in tree && !tree[q].entry.isFolder && !tree[q].entry.webOnly
    ensures var f := File(tree[q].bytes, mtime);
      Reaches(y0, events, PinState(root, map[q := Pin(root + q, f.StampOf())], map[root + q := f]), tree, Idle,
        {f.StampOf()})
  {
    PinCall(y0, q, mtime, root, tree);
    OneMoreEvent(y0, [], Pins(q, false, mtime));
    events := [] + [Pins(q, false, mtime)];
  }

  lemma {:induction false} ThenWrite(y0: Sys, before: seq<Event>, s: PinState, tree: Tree, job: Job, used: set<Stamp>,
                                     local: string, file: File) returns (events: seq<Event>)
    requires Reaches(y0, before, s, tree, job, used) && file.StampOf() !in used
    ensures Reaches(y0, events, s.(disk := s.disk[local := file]), tree, job, used + {file.StampOf()})
  {
    WriteCall(End(y0, before), s, tree, job, used, local, file);
    OneMoreEvent(y0, before, Edits(local, file));
    events := before + [Edits(local, file)];
  }

  lemma {:induction false} ThenRead(y0: Sys, before: seq<Event>, s: PinState, tree: Tree, used: set<Stamp>, q: string)
    returns (events: seq<Event>)
    requires Reaches(y0, before, s, tree, Idle, used) && Mirror(s) && q in s.pins && s.root + q in s.disk
    requires s.disk[s.root + q].StampOf() != s.pins[q].stamp
    ensures Reaches(y0, events, s, tree, Reading(q, s.root + q, s.disk[s.root + q].StampOf()), used)
  {
    ReadCall(End(y0, before), s, tree, used, q);
    OneMoreEvent(y0, before, ReadsMetadata(s.root + q, Some(q)));
    events := before + [ReadsMetadata(s.root + q, Some(q))];
  }

  lemma {:induction false} ThenRename(y0: Sys, before: seq<Event>, s: PinState, tree: Tree, job: Job, used: set<Stamp>,
                                      section: string, q: string, x: string) returns (events: seq<Event>)
    requires Reaches(y0, before, s, tree, job, used)
    requires !job.Sent? && Mirror(s) && s.pins.Keys == {q} && s.root + q in s.disk
    requires Norm(section) && Norm(x) && Norm(q) && x != q && RemoteParent(x) == section == RemoteParent(q)
    requires WellFormed(tree) && q in tree && x !in tree && Subtree(tree, q) == {q}
    ensures Reaches(y0, events, TrackedMoved(s, q, x), (tree - {q})[x := tree[q]], job, used)
  {
    RenameCall(End(y0, before), s, tree, job, used, section, q, x);
    OneMoreEvent(y0, before, RenamesOnDrive(q, x, [q]));
    events := before + [RenamesOnDrive(q, x, [q])];
  }

  /** Drive gets what is at `q`. */
  lemma {:induction false} ThenSend(y0: Sys, before: seq<Event>, s: PinState, tree: Tree, used: set<Stamp>,
                                    section: string, q: string, stamp: Stamp) returns (events: seq<Event>, node: Node)
    requires Reaches(y0, before, s, tree, Reading(q, s.root + q, stamp), used) && Norm(q) && s.root + q in s.disk
    requires Norm(section) && RemoteParent(section) == "/" && RemoteParent(q) == section
    requires FolderAt(tree, section) && q !in tree
    ensures Reaches(y0, events, s, tree[q := node], Sent(q, stamp), used)
  {
    node := SendCall(End(y0, before), s, tree, used, section, q, stamp);
    OneMoreEvent(y0, before, Sends);
    events := before + [Sends];
  }

  /** Another device deletes it again. */
  lemma {:induction false} ThenDelete(y0: Sys, before: seq<Event>, s: PinState, tree: Tree, job: Job, used: set<Stamp>,
                                      tree': Tree)
    returns (events: seq<Event>)
    requires Reaches(y0, before, s, tree, job, used) && WellFormed(tree')
    requires forall q :: q in s.pins && q in tree ==> q in tree' && tree'[q] == tree[q]
    ensures Reaches(y0, events, s, tree', job, used)
  {
    OthersCall(End(y0, before), s, tree, job, used, tree');
    OneMoreEvent(y0, before, OthersWrite(tree'));
    events := before + [OthersWrite(tree')];
  }

  /** `q` is pinned and edited, and its upload begins. */
  lemma {:induction false} EditIsRead(root: string, r: Remote, q: string, t0: int, edit: File)
    returns (events: seq<Event>)
    requires ValidRoot(root) && r.faults == [] && Norm(q)
    requires q in r.tree && !r.tree[q].entry.isFolder && !r.tree[q].entry.webOnly
    requires edit.StampOf() != Stamp(t0, |r.tree[q].bytes|)
    ensures var past := Stamp(t0, |r.tree[q].bytes|);
      Reaches(Sys(PinState(root, map[], map[]), r, Idle, {}, {}), events,
              PinState(root, map[q := Pin(root + q, past)], map[root + q := edit]),
              r.tree, Reading(q, root + q, edit.StampOf()), {past} + {edit.StampOf()})
  {
    var y0, past := Sys(PinState(root, map[], map[]), r, Idle, {}, {}), Stamp(t0, |r.tree[q].bytes|);
    var s1 := PinState(root, map[q := Pin(root + q, past)], map[root + q := File(r.tree[q].bytes, t0)]);
    var s2 := s1.(disk := s1.disk[root + q := edit]);
    events := ThenPin(y0, root, r.tree, q, t0);
    events := ThenWrite(y0, events, s1, r.tree, Idle, {past}, root + q, edit);
    events := ThenRead(y0, events, s2, r.tree, {past} + {edit.StampOf()}, q);
    assert s2.disk == map[root + q := edit];
  }

  lemma {:induction false} EditedPin(root: string, q: string, past: Stamp, edit: File)
    requires ValidRoot(root) && Norm(q)
    ensures var s := PinState(root, map[q := Pin(root + q, past)], map[root + q := edit]);
      Mirror(s) && s.pins.Keys == {q} && s.disk.Keys == {root + q}
  {
  }

  /** Then it is renamed away. */
  lemma {:induction false} EditIsCarriedOff(root: string, r: Remote, section: string, x: string, q: string, t0: int,
                                            edit: File)
    returns (events: seq<Event>)
    requires ValidRoot(root) && r.faults == [] && Scene(section, x, q, r.tree) && Subtree(r.tree, q) == {q}
    requires edit.StampOf() != Stamp(t0, |r.tree[q].bytes|)
    ensures var past := Stamp(t0, |r.tree[q].bytes|);
      Reaches(Sys(PinState(root, map[], map[]), r, Idle, {}, {}), events,
              PinState(root, map[x := Pin(root + x, past)], map[root + x := edit]),
              (r.tree - {q})[x := r.tree[q]], Reading(q, root + q, edit.StampOf()), {past} + {edit.StampOf()})
  {
    var y0, past := Sys(PinState(root, map[], map[]), r, Idle, {}, {}), Stamp(t0, |r.tree[q].bytes|);
    var s2 := PinState(root, map[q := Pin(root + q, past)], map[root + q := edit]);
    events := EditIsRead(root, r, q, t0, edit);
    EditedPin(root, q, past, edit);
    events := ThenRename(y0, events, s2, r.tree, Reading(q, root + q, edit.StampOf()), {past} + {edit.StampOf()},
      section, q, x);
    CarriedIs(s2, q, x);
  }

  /** The second half sends a new file that someone left at `q`, and another device then deletes it. */
  lemma {:induction false} StrayIsSent(y0: Sys, before: seq<Event>, s: PinState, tree: Tree, used: set<Stamp>,
                                       section: string, q: string, stamp: Stamp, stray: File)
    returns (events: seq<Event>)
    requires Reaches(y0, before, s, tree, Reading(q, s.root + q, stamp), used) && stray.StampOf() !in used
    requires Norm(section) && RemoteParent(section) == "/" && Norm(q) && RemoteParent(q) == section && q !in s.pins
    requires WellFormed(tree) && FolderAt(tree, section) && q !in tree
    ensures Reaches(y0, events, s.(disk := s.disk[s.root + q := stray]), tree, Sent(q, stamp), used + {stray.StampOf()})
  {
    var s1, used1 := s.(disk := s.disk[s.root + q := stray]), used + {stray.StampOf()};
    var node;
    events := ThenWrite(y0, before, s, tree, Reading(q, s.root + q, stamp), used, s.root + q, stray);
    events, node := ThenSend(y0, events, s1, tree, used1, section, q, stamp);
    events := ThenDelete(y0, events, s1, tree[q := node], Sent(q, stamp), used1, tree);
  }

  /** From an empty index, in steps that each may happen, to where the edit may be renamed back under its
      own stamp although Drive does not have it. */
  lemma {:induction false} PendingRecordComesAbout(root: string, r: Remote, section: string, x: string, q: string,
                                                   t0: int, edit: File, stray: File)
    returns (events: seq<Event>)
    requires ValidRoot(root) && r.faults == [] && Scene(section, x, q, r.tree) && Subtree(r.tree, q) == {q}
    requires edit.StampOf() != Stamp(t0, |r.tree[q].bytes|) && edit.bytes != r.tree[q].bytes
    requires stray.StampOf() !in {Stamp(t0, |r.tree[q].bytes|), edit.StampOf()}
    ensures var y0 := Sys(PinState(root, map[], map[]), r, Idle, {}, {});
      && FairRun(y0, events)
      && (var y := End(y0, events);
          y.job.Sent? && Fair(y.(job := Idle), RenamesOnDrive(x, q, [x])) && !ArrivalOk(y, x, q))
  {
    var y0, past := Sys(PinState(root, map[], map[]), r, Idle, {}, {}), Stamp(t0, |r.tree[q].bytes|);
    var stamp, tree1 := edit.StampOf(), (r.tree - {q})[x := r.tree[q]];
    var s4 := PinState(root, map[x := Pin(root + x, past)], map[root + x := edit]);
    var used := {past} + {stamp};
    SceneAfterRename(section, x, q, r.tree);
    events := EditIsCarriedOff(root, r, section, x, q, t0, edit);
    events := StrayIsSent(y0, events, s4, tree1, used, section, q, stamp, stray);
    if root + x == root + q { RootInjective(root, x, q); }
    FatalRename(End(y0, events), s4.(disk := s4.disk[root + q := stray]), tree1, used + {stray.StampOf()}, section, q,
      x);
  }
}
