/** What the daemon's `handle_rename` and `upload_if_needed` do, as functions of the pin index,
    the disk and Drive. `owner` is the answer of the query by local path. */
module SyncSpec {
  import Text
  import opened Paths
  import opened Relocation
  import opened Drive
  import opened Calls
  import opened PinStore

  /** `remote_path_for_local`. */
  function RemotePathForLocal(root: string, local: string): Option<string> {
    if local == root then Some("/")
    else if root + "/" <= local then Some("/" + local[|root| + 1..])
    else None
  }

  /** The Drive side of `handle_rename`; the names are those of the local files. */
  function RemoteRename(r: Remote, source: string, target: string, oldName: string, newName: string)
    : (Result<Unit>, Remote)
  {
    var newParent := RemoteParent(target);
    var (chain, r1) := EnsureChain(r, newParent);
    if chain.Err? then (chain, r1)
    else if RemoteParent(source) == newParent then RenamePath(r1, source, newName)
    else
      var (moved, r2) := MovePath(r1, source, newParent);
      if moved.Err? || oldName == newName then (moved, r2)
      else RenamePath(r2, newParent + "/" + oldName, newName)
  }

  function HandleRename(s: PinState, r: Remote, owner: Option<string>, from: string, to: string)
    : (PinState, Remote, Result<Unit>)
  {
    if owner.None? || RemotePathForLocal(s.root, to).None? then (s, r, Ok(Unit))
    else
      var source, target := owner.value, RemotePathForLocal(s.root, to).value;
      var (res, r') := RemoteRename(r, source, target, BaseName(from), BaseName(to));
      var (s', done) := Rekeyed(s, source, if res.Ok? then target else source, to);
      (s', r', done)
  }

  /** The row follows the file: to the new Drive path, or with the old one when Drive refused. */
  function Rekeyed(s: PinState, source: string, target: string, to: string): (PinState, Result<Unit>) {
    match RenameRow(s.pins, source, target, to)
    case Err(e) => (s, Err(e))
    case Ok(pins) => (s.(pins := pins), Ok(Unit))
  }

  function UploadIfNeeded(s: PinState, r: Remote, owner: Option<string>, local: string)
    : (PinState, Remote, Result<Unit>)
  {
    if local !in s.disk || owner.None? then (s, r, Ok(Unit))
    else
      var remote, file := owner.value, s.disk[local];
      if !NeedsUpload(s.pins, remote, file.StampOf()) then (s, r, Ok(Unit))
      else
        var (chain, r1) := EnsureChain(r, RemoteParent(remote));
        if chain.Err? then (s, r1, chain)
        else
          var (sent, r2) := UploadFile(r1, local, file.bytes, RemoteParent(remote));
          if sent.Err? then (s, r2, sent)
          else (s.(pins := MarkSynced(s.pins, remote, file.StampOf())), r2, Ok(Unit))
  }

  /** What a finished `upload_if_needed` did to the index. */
  lemma {:induction false} UploadEffect(s: PinState, r: Remote, owner: Option<string>, local: string)
    ensures var (s', r', res) := UploadIfNeeded(s, r, owner, local);
      s' == if res.Ok? && local in s.disk && owner.Some? && NeedsUpload(s.pins, owner.value, s.disk[local].StampOf())
            then s.(pins := MarkSynced(s.pins, owner.value, s.disk[local].StampOf())) else s
  {
  }

  lemma {:induction false} RekeyedFailsIff(s: PinState, source: string, target: string, to: string)
    requires source in s.pins
    ensures Rekeyed(s, source, target, to).1 ==
            if target in s.pins && target != source then Err(Sqlite) else Ok(Unit)
  {
  }

  /** `handle_rename` reports no error of Drive's; it fails exactly when Drive followed to a path that another
      row holds. */
  lemma {:induction false} HandleRenameFailsIff(s: PinState, r: Remote, source: string, from: string, to: string)
    requires source in s.pins
    ensures var res := HandleRename(s, r, Some(source), from, to).2;
      var target := RemotePathForLocal(s.root, to);
      && (res.Err? <==> target.Some? && target.value in s.pins && target.value != source &&
                        RemoteRename(r, source, target.value, BaseName(from), BaseName(to)).0.Ok?)
      && (res.Err? ==> res.error == Sqlite)
  {
    var target := RemotePathForLocal(s.root, to);
    if target.Some? {
      RekeyedFailsIff(s, source, target.value, to);
      RekeyedFailsIff(s, source, source, to);
    }
  }

  /** What a daemon operation does after making the ancestors exist. */
  lemma {:induction false} AfterChain(r: Remote, dir: string, rest: seq<Call>, r': Remote, failure: Option<DriveError>,
                                      bytes: Bytes)
    requires var (chain, r1) := EnsureChain(r, dir);
      chain.Ok? && Talk(r1, rest, r', failure, Asking(bytes))
    ensures var r1 := EnsureChain(r, dir).1;
      Reports(r, r', failure, bytes) && Since(r, r') == Since(r, r1) + rest
  {
    EnsureChainReports(r, dir, bytes);
    var r1 := EnsureChain(r, dir).1;
    TalkOn(r, Since(r, r1), r1, rest, r', failure, Asking(bytes));
    TalkLogs(r, Since(r, r1) + rest, r', failure, bytes);
  }

  /** `upload_if_needed` makes no call for a file that is not dirty; for a dirty one it stops at the first call
      that fails, an ancestor's or the upload, and reports that call's error. */
  lemma {:induction false} UploadReports(s: PinState, r: Remote, owner: Option<string>, local: string)
    ensures var (_, r', res) := UploadIfNeeded(s, r, owner, local);
      var dirty := owner.Some? && IsDirty(s, local, owner.value);
      && Reports(r, r', Heard(res), if local in s.disk then s.disk[local].bytes else [])
      && (dirty <==> Since(r, r') != [])
      && (dirty && res.Ok? ==> Since(r, r')[|Since(r, r')| - 1] == Upload(local, RemoteParent(owner.value)))
  {
    var (_, r', res) := UploadIfNeeded(s, r, owner, local);
    if owner.Some? && IsDirty(s, local, owner.value) {
      var dir, bytes := RemoteParent(owner.value), s.disk[local].bytes;
      var (chain, r1) := EnsureChain(r, dir);
      if chain.Err? {
        EnsureChainReports(r, dir, bytes);
      } else {
        OneCall(r1, Upload(local, dir), bytes);
        AfterChain(r, dir, [Upload(local, dir)], r', Heard(res), bytes);
      }
    } else {
      TalkLogs(r, [], r', None, if local in s.disk then s.disk[local].bytes else []);
    }
  }

  /** The Drive side of `handle_rename` does too. */
  lemma {:induction false} RemoteRenameReports(r: Remote, source: string, target: string, oldName: string,
                                               newName: string)
    ensures var (res, r') := RemoteRename(r, source, target, oldName, newName);
      Reports(r, r', Heard(res), [])
  {
    var (res, r') := RemoteRename(r, source, target, oldName, newName);
    var dir := RemoteParent(target);
    var (chain, r1) := EnsureChain(r, dir);
    if chain.Err? {
      EnsureChainReports(r, dir, []);
    } else if RemoteParent(source) == dir {
      OneCall(r1, Rename(source, newName), []);
      AfterChain(r, dir, [Rename(source, newName)], r', Heard(res), []);
    } else if MovePath(r1, source, dir).0.Err? || oldName == newName {
      OneCall(r1, Move(source, dir), []);
      AfterChain(r, dir, [Move(source, dir)], r', Heard(res), []);
    } else {
      var r2 := MovePath(r1, source, dir).1;
      var last := Rename(dir + "/" + oldName, newName);
      TwoCalls(r1, Move(source, dir), r2, last, r', Heard(res));
      AfterChain(r, dir, [Move(source, dir), last], r', Heard(res), []);
    }
  }

  // ---- Names and paths --------------------------------------------------------------

  lemma {:induction false} BaseNameBelow(root: string, dir: string, name: string)
    requires '/' !in name
    ensures BaseName(root + (dir + "/" + name)) == name
  {
    Text.LastIndexBefore(root + dir, '/', name);
    assert root + dir + ['/'] + name == root + (dir + "/" + name);
    assert (root + dir + ['/'] + name)[|root + dir| + 1..] == name;
  }

  lemma {:induction false} LocalBaseName(root: string, p: string)
    requires Norm(p)
    ensures BaseName(root + p) == BaseName(p)
    ensures RemotePathForLocal(root, root + p) == Some(p)
  {
    var init, name := NormShape(p);
    BaseNameBelow(root, Print(init), name);
    assert p[0] == '/';
    StripRoot(root, p);
  }

  lemma {:induction false} StripRoot(root: string, p: string)
    requires p != "" && p[0] == '/'
    ensures RemotePathForLocal(root, root + p) == Some(p)
  {
    assert root + p != root;
    assert (root + p)[..|root| + 1] == root + "/";
    assert (root + p)[|root| + 1..] == p[1..];
    assert "/" + p[1..] == p;
  }

  /** Local paths and Drive paths correspond one to one below the root; the root itself is `/`. */
  lemma {:induction false} RemotePathIff(root: string, local: string, p: string)
    ensures RemotePathForLocal(root, local) == Some(p) <==>
            p != "" && p[0] == '/' && (local == root + p || (local == root && p == "/"))
  {
    if p != "" && p[0] == '/' && local == root + p {
      StripRoot(root, p);
    }
    if RemotePathForLocal(root, local) == Some(p) && local != root {
      assert local == root + "/" + local[|root| + 1..];
      assert root + "/" + local[|root| + 1..] == root + ("/" + local[|root| + 1..]);
    }
  }

  /** An upload of a mirrored pin lands at exactly its Drive path. */
  lemma {:induction false} UploadTarget(root: string, p: string)
    requires Norm(p)
    ensures Child(RemoteParent(p), BaseName(root + p)) == p
  {
    LocalBaseName(root, p);
    ChildOfParent(p);
  }

  /** For a mirrored pin, `handle_rename` makes the ancestors exist and then does on Drive exactly
      what the worker's `rename_or_move` does, except in one case: a move to the top level that
      also changes the name, where it goes on to rename a path with a doubled slash. */
  lemma {:induction false} HandleRenameIsRenameOrMove(r: Remote, root: string, source: string, target: string)
    requires Norm(source) && Norm(target) && EnsureChain(r, RemoteParent(target)).0.Ok?
    ensures var r1 := EnsureChain(r, RemoteParent(target)).1;
      RemoteRename(r, source, target, BaseName(root + source), BaseName(root + target)) ==
        RenameOrMove(r1, source, target)
      <==> !(RemoteParent(target) == "/" && RemoteParent(source) != "/" &&
             BaseName(source) != BaseName(target) && MovePath(r1, source, "/").0.Ok?)
  {
    RemoteRenameAfterChain(r, root, source, target);
    var r1 := EnsureChain(r, RemoteParent(target)).1;
    RenameOrMoveIsNorm(r1, source, target);
    RestIsNorm(r1, source, target);
  }

  /** The Drive side once the ancestors exist, in terms of the Drive paths alone. */
  function RemoteRenameRest(r: Remote, source: string, target: string): (Result<Unit>, Remote) {
    if RemoteParent(source) == RemoteParent(target) then RenamePath(r, source, BaseName(target))
    else
      var (moved, r2) := MovePath(r, source, RemoteParent(target));
      if moved.Err? || BaseName(source) == BaseName(target) then (moved, r2)
      else RenamePath(r2, RemoteParent(target) + "/" + BaseName(source), BaseName(target))
  }

  lemma {:induction false} RemoteRenameAfterChain(r: Remote, root: string, source: string, target: string)
    requires Norm(source) && Norm(target) && EnsureChain(r, RemoteParent(target)).0.Ok?
    ensures RemoteRename(r, source, target, BaseName(root + source), BaseName(root + target)) ==
            RemoteRenameRest(EnsureChain(r, RemoteParent(target)).1, source, target)
  {
    LocalBaseName(root, source);
    LocalBaseName(root, target);
  }

  lemma {:induction false} TopLevelRename(r: Remote, source: string, target: string)
    requires RemoteParent(target) == "/" && Norm(source)
    ensures RenamePath(r, "/" + "/" + BaseName(source), BaseName(target)) !=
            RenamePath(r, HalfWay(source, target), BaseName(target))
  {
    assert TrimEnd("/") == "";
    var a, b := "/" + "/" + BaseName(source), HalfWay(source, target);
    assert |a| == |b| + 1;
    var r1, r2 := RenamePath(r, a, BaseName(target)).1, RenamePath(r, b, BaseName(target)).1;
    assert r1.calls == r.calls + [Rename(a, BaseName(target))];
    assert r2.calls == r.calls + [Rename(b, BaseName(target))];
    assert r1.calls[|r.calls|] != r2.calls[|r.calls|];
  }

  lemma {:induction false} RestIsNorm(r: Remote, source: string, target: string)
    requires Norm(source) && Norm(target)
    ensures RemoteRenameRest(r, source, target) == RenameOrMoveNorm(r, source, target)
            <==> !(RemoteParent(target) == "/" && RemoteParent(source) != "/" &&
                   BaseName(source) != BaseName(target) && MovePath(r, source, "/").0.Ok?)
  {
    ChildOfParent(target);
    if RemoteParent(target) == "/" {
      TopLevelRename(MovePath(r, source, "/").1, source, target);
    } else {
      SlashedPath(RemoteParent(target), BaseName(source));
    }
  }

  /** A remotely successful `handle_rename` left Drive with the old subtree at the new path. */
  lemma {:induction false} HandleRenameRelocates(r: Remote, root: string, source: string, target: string)
    requires WellFormed(r.tree) && Norm(source) && Norm(target) && RemoteParent(target) != "/"
    requires RemoteRename(r, source, target, BaseName(root + source), BaseName(root + target)).0.Ok?
    ensures var tree1 := EnsureChain(r, RemoteParent(target)).1.tree;
      && OnlyGains(r.tree, tree1, RemoteParent(target)) && source in tree1 && target !in tree1
      && RemoteRename(r, source, target, BaseName(root + source), BaseName(root + target)).1.tree ==
         Relocate(tree1, source, target)
      && WellFormed(Relocate(tree1, source, target))
  {
    ChildOfParent(target);
    EnsureChainExists(r, RemoteParent(target));
    HandleRenameIsRenameOrMove(r, root, source, target);
    RenameOrMoveRelocates(EnsureChain(r, RemoteParent(target)).1, source, target);
    RenameOrMoveKeepsWellFormed(EnsureChain(r, RemoteParent(target)).1, source, target);
  }
}
