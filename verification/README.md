# Local state between Dolphin and Proton Drive, in Dafny

This project models the layer that keeps local state in step with Proton Drive: the on-disk index
(`pins`, `cached_files`, the stat and listing caches), the files below the cache root, the bridge calls
of the KIO worker, and the daemon's sync, refresh and eviction calls. The CLI is a set of operations on
a tree of paths, each of which may fail on its own account. Beside that core stand the cancellable
transfer with its retry loop and throughput estimate, the photo names, the daemon's control request,
and the counter of open folders.

## How it is built

- `Text`, `Paths`: string operations, normal paths, parents and names, the SQL prefix match, and where a
  Drive path's local copy lives. `Relocation`: carrying a set of keys from below one path to below another.
- `Drive`: the remote tree, the CLI calls, `rename_or_move`, `ensure_remote_dir_chain`. A `Remote` value
  holds the tree, the pending faults of the next calls, the calls made and the bytes Drive accepted.
- `PinStore`, `SyncSpec`, `CachedFiles`, `MetaCache`, `Reconcile`, `Refresh`: what each operation does, as
  functions from state to state, and what is proved about them.
- `CacheDb` (a class), `Bridge`, `Daemon`: the same operations as code that changes the shared cache object
  step by step; each is proved equal to its specification function on the old state. Where a query may
  return rows in any order, the specification takes the order as an argument and the method returns it.
- `Calls`, `BridgeEffects`: what an operation makes of the answers to its CLI calls, and what each bridge
  call does to Drive and the caches in full.
- `PinTree`, `PinRuns`, `SyncRuns`, `PendingRecords`, `SelfRename`, `GetPut`, `GetPutRuns`: theorems over
  whole runs and interleavings. Steps that split an operation are proved equal to the whole one.
- `Transfer`, `Photos`, `ControlRequest`, `OpenFolders`: the smaller components.

A path is *normal* when it is a slash followed by plain names joined by single slashes. A pin table is a
*mirror* when every local path is the cache root followed by the pin's Drive path.

## What the run theorems ask of a run

- `PinRuns`: paths are normal, a local move is answered by Drive, and no user moves a file over another.
  The theorem on unsynced bytes asks in addition that nothing is forced, that an evicted file is no pin's
  copy, and that an edited copy moved to another pin's path does not have the very stamp recorded there
  (`MoveOntoPinIff`).
- `SyncRuns`: each version of a file has a modification time and size no file had before, renames and
  deletions go through, other devices leave pinned paths alone, the daemon does one thing at a time, and no
  rename brings a version that Drive lacks to a path where its stamp is about to be recorded. Edits,
  erasures, pins and unpins, forced or not, and the parts of saves may fall anywhere; a save may stop
  after any part.
- `SelfRename`: paths are normal and the daemon's own renames are answered by Drive; file moves may fail
  and queued events may be handled at any time.
- `MetaCache`: this program is the only writer, Drive lists what it has, and a rename that fails half-way
  meets nothing cached around it. Every call may fail.
- `GetPut`: each version written is later than the one before, and each step is harmless: content does not
  arrive under a record, a record about to be made or an open that is wrong about it, and a save does not
  read Drive's present time for other bytes. Nothing is asked of what a download records. A step that is not
  harmless is one after which an open can stream stale bytes without any further write or transfer
  (`StepStaleIff`). Within that, any number of workers, crashes and failures at any step. When
  transfers do not overlap, only the condition on saves remains (`ApartStaleIff`).

## Where code and comments differ

The model follows the code. These promises of the comments do not hold as they stand; for each there is
a lemma with the failing situation, and a condition under which the promise is kept.

- "Pinned files never appear here" (core/src/cache.rs:680) and "never for a pinned path"
  (core/src/cache.rs:609): a file opened, then pinned, loses its pinned copy to the sweep
  (`OpenedThenPinnedIsEvicted`). The sweep spares every pinned copy exactly when no stale row names one
  (`PinsSurviveEviction`).
- `disambiguate` gives every photo its own name: not for `a.jpg`, `a.jpg`, `a (2).jpg`
  (`NamesCanClash`). Names are distinct, and lookups right, exactly when no base name equals a generated
  one (`DistinctIff`, `LookupIff`).
- `rename_or_move` is move, then rename: when only the second fails the node stays half-way
  (`FailedRenameOrMove`) and the caches are not told (`HalfWayRenameStaysCached`); they stay right exactly
  when nothing around it was cached (`HalfWayCoherentIff`).
- `handle_rename` does what `rename_or_move` does, except for a move to the top level that also changes
  the name, where it goes on to rename a path with a doubled slash (`HandleRenameIsRenameOrMove`).
- The fallback of `handle_rename` goes on tracking the entry at its new local place, which breaks the
  mirror; a later unforced pin then overwrites unsynced bytes exactly under the condition of
  `PinOverwritesIff` (`FallbackThenPin`, `TakenNameThenPin`).
- What a transfer records need not describe what is on disk: a slow download can land under another
  worker's record (`SlowDownloadIsServedStale`), a save's copy can come late (`LateCopyIsServedStale`), and
  the time a save records is read after the upload (`OvertakenRecordIsServedStale`). An open can
  stream stale bytes at some point of a run exactly when one of its steps is not harmless
  (`NeverStaleIff`); for a save, when the time read is Drive's present one and Drive no longer holds the
  saved version (`SavedTimeIff`).
- `put()` ignores whether the old copy could be removed and does not look at pins: a clean pin can keep its
  old bytes while Drive has the saved ones (`KeptCopyStaysClean`, `SaveUploadIff`).
- Recording a stamp after an upload takes the path's row as it is by then; when a rename has brought a
  version with that stamp there which Drive lacks, it is called clean (`PendingRecordIff`,
  `PendingRecordComesAbout`).
- An upload leaves the replaced file's cached stat in place (`UploadLeavesStat`), which is right exactly when
  it happens to equal the new entry (`UploadStatIff`).
- `extract_header` ignores case exactly for names without capitals; one with a capital is never found
  (`HeaderFoundIff`, `CapitalNameIsNeverFound`).
- `target_dir_for` accepts inner empty parts, so unnormalised paths share a local copy
  (`UnnormalisedPathsCollide`).

## Model

| member | source | states |
|---|---|---|
| `Paths.SegsPrint` | core/src/cli.rs:277-285 | splitting a printed path gives its names back, so normal paths and lists of plain names correspond one to one |
| `Paths.ChildOfParent` | core/src/cli.rs:608-620 | a normal path is the child, by its base name, of the parent that `split_parent_and_name` and `remote_parent` name |
| `Paths.ParentOfChild` | daemon/src/sync.rs:43-48 | the path printed for a child has the folder as its parent and the name as its last part |
| `Paths.UnderIsDescent` | core/src/cache.rs:392-404 | on normal paths the SQL match by equality or by the prefix path-and-slash is exactly descent name by name |
| `Paths.RekeyNorm` | core/src/cache.rs:490 | cutting the old prefix off and putting the new one in front keeps the path normal, lands in the new tree, and is undone by the reverse cut |
| `Paths.LocalPathMirrors` | core/src/cache.rs:264-280 | on normal paths the local copy lives at the cache root followed by the Drive path, in the mirrored parent directory |
| `Paths.UnnormalisedPathsCollide` | core/src/cache.rs:266-275 | a doubled slash is accepted and maps to the local file of the path without it, so normal paths are needed for distinct local copies |
| `Relocation.MoveBack` | core/src/cache.rs:468-511 | carrying keys to another tree and back restores the map but for what lay where they landed |
| `Relocation.RelocateTwice` | core/src/cli.rs:639-645 | two carries in a row through a free middle place are one carry |
| `Drive.RenameOrMoveRelocates` | core/src/cli.rs:626-647 | a successful call carries exactly the old subtree to exactly the new path, which was free |
| `Drive.FailedRenameOrMove` | core/src/cli.rs:626-647 | a failed call leaves the tree alone, except exactly when the move went through; then the subtree sits under the new parent with its old name |
| `Drive.RenameOrMoveSucceeds` | core/src/cli.rs:626-647 | when the CLI itself does not fail, the call succeeds if and only if source exists, target is free, and, for another parent, that parent is a folder outside the source and the half-way place is free |
| `Drive.RenameOrMoveConserves` | core/src/cli.rs:626-647 | whatever fails, each node is in as many places after the call as before |
| `Drive.RenameOrMoveKeepsWellFormed` | core/src/cli.rs:626-647 | whatever fails, every path still hangs off an existing parent afterwards; after success neither path is inside the other |
| `Drive.EnsureRemoteDirChain` | core/src/cli.rs:277-301 | the loop that stats each ancestor and creates the missing ones computes the recursive walk, racing creations counted as success |
| `Drive.EnsureChainExists` | core/src/cli.rs:277-301 | on success every ancestor below the section exists; on any outcome nothing that was there changed and only folders above the path were added |
| `Calls.EnsureChainReports` | core/src/cli.rs:277-301 | the walk stops at the first call that fails, a missing folder or a racing creation not being failures, and reports that call's error |
| `Calls.EnsureChainCalls` | core/src/cli.rs:277-301 | when the CLI does not fail, each ancestor below the section is asked for once from the top down and exactly the missing ones are created |
| `Calls.RenameOrMoveReports` | core/src/cli.rs:626-647 | the calls are the one rename, or the move and the rename at the half-way place, up to the first that fails, whose error is the result |
| `CacheDb.Cache.LookupByLocalPath` | core/src/cache.rs:242-252 | answers some pin with that local path, or none only when there is none |
| `CacheDb.Cache.Pin` | core/src/cache.rs:292-352 | the steps of `pin` on the object give the specified new index, Drive calls and result: folders, online-only documents, unsynced copies without force, and refused paths are errors that change no row |
| `CacheDb.Cache.Unpin` | core/src/cache.rs:362-383 | drops row and copy, keeps both for unsynced edits without force or an unremovable file |
| `CacheDb.Cache.UnpinTree` | core/src/cache.rs:391-413 | for the rows the query lists, in its order, unpins one after another and stops at the first that cannot be |
| `CacheDb.Cache.Rename` | core/src/cache.rs:439-456 | rekeys the row, changes nothing when it is absent, and fails when the new key is taken by another row |
| `CacheDb.Cache.RenameTree` | core/src/cache.rs:468-511 | for the rows the query lists, in its order, does a round for each and stops at the first error |
| `CacheDb.Cache.MoveOne` | core/src/cache.rs:489-509 | one round: row first, then file, and the row put back when the file is stuck |
| `CacheDb.Cache.MarkSynced` | core/src/cache.rs:516-534 | replaces the recorded stamp of that row only |
| `CacheDb.Cache.TouchCachedFile` | core/src/cache.rs:646-654 | only the access time of that row changes |
| `CacheDb.Cache.EvictCachedFile` | core/src/cache.rs:660-675 | removes file and row; a stuck file keeps both, a file already gone is no error |
| `CacheDb.Cache.StoreListing` | core/src/cache.rs:810-832 | the loop over the children stores the listing and every child's stat, later duplicates winning |
| `CacheDb.Cache.InvalidateTree` | core/src/cache.rs:853-874 | drops exactly the stats and listings at or under the path |
| `PinStore.MirrorOwner` | core/src/cache.rs:242-252 | under the mirror the query by local path has one answer and inverts the pin table |
| `PinTree.RenameTreeMoves` | core/src/cache.rs:468-511 | whatever the row order and stuck files, a first part of the tree's pins moves, all of them exactly when the call succeeds; the state is then the old one with those rows and files carried over |
| `PinTree.AfterPathByPath` | core/src/cache.rs:468-511 | after a full move each pin of the tree is at its mirrored place with its file's bytes, each other pin is as before |
| `PinTree.AfterFileByFile` | core/src/cache.rs:492-508 | every file on disk afterwards either arrived with a moved pin or was there and did not leave |
| `PinTree.AfterElsewhere` | core/src/cache.rs:492-508 | a file that is no moved copy and where none lands is untouched |
| `PinTree.AfterMirrors` | core/src/cache.rs:489-491 | the mirror is kept by any part of the move |
| `PinTree.RenameTreeUndone` | core/src/cache.rs:468-511 | renaming back restores every row, and the disk too if and only if no file lay where a moved copy landed |
| `PinTree.UnpinRowsDrop` | core/src/cache.rs:391-413 | the listed pins go one after another, each with its own file and nothing else, up to the first with unsynced edits or a stuck file |
| `PinTree.UnpinTreeIsExact` | core/src/cache.rs:391-413 | the call succeeds if and only if no pin of the tree is blocked; then exactly the pins outside remain, and every file but those of the tree's pins |
| `PinStore.UnpinAnswers` | core/src/cache.rs:362-383 | one pin: unsynced edits are refused unless forced, a stuck file is an I/O error, nothing changes after either, and otherwise exactly this row and its copy go |
| `PinStore.RenameTreeTrims` | core/src/cache.rs:468-511 | trailing slashes of source and target make no difference |
| `SyncSpec.UploadTarget` | core/src/cli.rs:438-448 | the remote name is the local base name, which for a mirrored pin is exactly its Drive path |
| `SyncSpec.RemotePathIff` | daemon/src/sync.rs:64-69 | a local path stands for exactly the Drive path that follows the cache root in it, the root for `/` |
| `SyncSpec.HandleRenameIsRenameOrMove` | daemon/src/sync.rs:71-92 | once the ancestors exist, the daemon's Drive calls are those of `rename_or_move` if and only if this is not a renaming move to the top level whose move works |
| `SyncSpec.HandleRenameRelocates` | daemon/src/sync.rs:58-112 | a remotely successful rename leaves the old subtree at the new path, on a tree that only gained the ancestors |
| `PinRuns.PinSucceeds` | core/src/cache.rs:292-352 | pinning succeeds if and only if neither call fails by itself, the path is a plain file and, without force, its copy has no unsynced edits; then copy and stamp are fresh; otherwise nothing changes, the error is the failing call's, and edits are kept without a download |
| `Daemon.HandleRename` | daemon/src/sync.rs:58-112 | the steps on the cache object give the specified index and Drive: untracked sources and targets outside the root are ignored, a refused rename keeps the old Drive path |
| `Daemon.RenameOnDrive` | daemon/src/sync.rs:71-92 | ancestors, then rename in place or move and rename, stopping at the first failure |
| `Daemon.UploadIfNeeded` | daemon/src/sync.rs:118-154 | uploads when the stamp differs from the recorded one and then records the stamp read before the upload |
| `SyncSpec.UploadReports` | daemon/src/sync.rs:118-154 | no call for a file whose stamp is recorded; for a dirty one the calls go up to the first that fails, an ancestor's or the upload, whose error is the result, and success means the last call was the upload |
| `SyncSpec.RemoteRenameReports` | daemon/src/sync.rs:71-92 | the Drive side of a local move stops at the first call that fails and reports its error |
| `SyncSpec.HandleRenameFailsIff` | daemon/src/sync.rs:58-112 | the daemon's rename fails if and only if Drive followed to a path whose row another pin holds; a refusal by Drive is not an error |
| `PinRuns.HandleRenameMirrors` | daemon/src/sync.rs:58-112 | the daemon's rename of a pinned file keeps the mirror if and only if Drive followed it or the path is unchanged |
| `PinRuns.StepMirrors` | core/src/cache.rs:292-511 | pin, unpin, unpin_tree, rename_tree, upload, eviction and remotely successful renames each keep the mirror |
| `PinRuns.MirrorAlways` | core/src/cache.rs:242-511 | in every reachable state local paths are the root plus the Drive path, pairwise distinct, and the query by local path inverts the table |
| `PinRuns.UploadOutcome` | daemon/src/sync.rs:118-154 | when the index changes, Drive accepted the file's present bytes under the name of the local file; otherwise Drive only gained |
| `PinRuns.StepCarriesOrUploads` | core/src/cache.rs:292-511 | one unforced call leaves an edit of a pinned file unsynced, under the pin's old or new name, or it is the upload with which Drive accepted those bytes at the pin's path |
| `PinRuns.NoUnsyncedBytesLost` | core/src/cache.rs:292-511 | so in any run of unforced calls, given the mirror, evictions that name no pin's copy and local moves that bring no edit to a pin with its stamp, an edit stays a pin's unsynced copy up to the end, or up to an upload in this run that stored its bytes at that very pin's path |
| `PinRuns.MoveOntoPinIff` | daemon/src/sync.rs:58-112 | an edited copy moved to another pin's path, with Drive following, leaves the index as it is; the edit is that pin's unsynced copy afterwards if and only if the stamp recorded there is not the arriving file's |
| `PinRuns.PinOverwritesIff` | core/src/cache.rs:292-352 | a successful unforced pin leaves another pin's unsynced copy alone if and only if that copy is elsewhere, or is replaced by the same bytes under another stamp than the recorded one |
| `PinRuns.FallbackThenPin` | daemon/src/sync.rs:94-111 | when Drive refuses a local move, the fallback keeps the edit at a place that breaks the mirror; a pin of the path which that place mirrors then overwrites it under exactly that condition |
| `PinRuns.TakenNameThenPin` | daemon/src/sync.rs:58-112 | this happens without any call failing by itself: the new name is taken on Drive, the move is refused, the unforced pin of that name succeeds, and the edit survives if and only if the bytes agree and the stamp is not the recorded one |
| `SyncRuns.CleanMeansOnDrive` | daemon/src/sync.rs:118-154 | in every fair run, with edits between the parts of uploads and saves, a pin whose recorded stamp is its file's stamp has its bytes at exactly its Drive path, unless a save replaced this very version on Drive and left it on disk |
| `SyncRuns.NextKeepsInv` | core/src/cache.rs:516-558 | each event keeps the invariant behind this: distinct stamps, strays apart from pins, and a pending record only for bytes that are on Drive or overtaken by a save |
| `SyncRuns.ThreePartsAreOne` | daemon/src/sync.rs:118-154 | with nothing in between, the three parts of the upload are `upload_if_needed`: same index, same Drive, same success |
| `SyncRuns.SaveUploadIff` | worker/protondriveworker.cpp:748-767 | the upload of a save leaves every clean pin on Drive if and only if the pin at that path was not clean with other bytes |
| `SyncRuns.KeptCopyStaysClean` | worker/protondriveworker.cpp:776-784 | if the old local copy is then not removed, the pin stays clean with other bytes on Drive |
| `SyncRuns.TidySavesStaySynced` | worker/protondriveworker.cpp:776-784 | when every save whose upload went through does remove the old copy, clean means on Drive without exception at the end of the run |
| `SyncRuns.RenameJobIff` | core/src/cache.rs:516-534 | a rename keeps a pending record right if and only if it brings to that path no version with the pending stamp that Drive lacks |
| `PendingRecords.PendingRecordIff` | core/src/cache.rs:516-534 | rename, then record: clean pins are still on Drive if and only if that condition held |
| `PendingRecords.PendingRecordComesAbout` | daemon/src/sync.rs:118-154 | a fair run from an empty index, with files inside a section, ends where a rename would violate it |
| `SelfRename.HandleRenameIdle` | daemon/src/sync.rs:64-69 | the daemon's rename leaves rows and Drive alone if and only if nothing is tracked at the old place or the new one is outside the root |
| `SelfRename.InvAlways` | core/src/cache.rs:489-509 | in every interleaving of row updates, file moves, rollbacks, pins, user moves and handled events, nothing is tracked at the old place of a moved row unless a row was written there since |
| `SelfRename.OwnMovesAreNoOps` | core/src/cache.rs:463-508 | so an event caused by `rename_tree`'s own file move does nothing, however late it is handled |
| `SelfRename.FileFirstWouldActTwice` | core/src/cache.rs:463-467 | with the file moved and its event queued before the row changes, the daemon finds the row and calls Drive again |
| `SelfRename.RowFirstActsOnce` | core/src/cache.rs:492-508 | with the row first the daemon finds none and leaves Drive alone, and the files end up in the same place |
| `SelfRename.TwoHalvesAreOneRound` | core/src/cache.rs:489-509 | with nothing in between, the two halves are one round of `rename_tree`, rollback included |
| `Bridge.ListDir` | core/src/bridge.rs:187-223 | cached listing served as it is, live one stored with its children's stats; the root is never cached |
| `Bridge.StatPath` | core/src/bridge.rs:225-246 | cached stat served as it is, live one stored |
| `Bridge.MakeDir` | core/src/bridge.rs:248-257 | the parent's listing goes and the new folder's stat is stored |
| `Bridge.FinishUpload` | core/src/bridge.rs:300-325 | a finished upload invalidates the parent's listing and nothing else |
| `Bridge.TrashNode` | core/src/bridge.rs:348-358 | the tree's entries and the parent's listing go |
| `Bridge.RenameOrMove` | core/src/bridge.rs:395-413 | after Drive's rename both trees' entries and both parents' listings go and the pins move along; after a failure nothing local changes |
| `Bridge.CopyNode` | core/src/bridge.rs:418-432 | the copy is made in the destination's parent under the destination's own name, and its stat and its parent's listing go; a destination without a slash is an error without a call |
| `Bridge.LookupCached` | core/src/bridge.rs:468-485 | a recorded copy is served only when the live modification time is the recorded one, and is evicted otherwise; the live stat is stored |
| `BridgeEffects.ListDirDoes` | core/src/bridge.rs:187-223 | one call unless the listing is cached; a live answer is kept, so the next listing needs no call, exactly the children's stats become Drive's, and a failure or the root changes nothing |
| `BridgeEffects.StatPathDoes` | core/src/bridge.rs:225-246 | one call unless the stat is cached; a live answer is kept, so the next stat needs no call; nothing else changes |
| `BridgeEffects.MakeDirDoes` | core/src/bridge.rs:248-257 | success adds exactly one folder, whose live stat is cached, and drops exactly the parent's listing; failure changes nothing and reports Drive's error |
| `BridgeEffects.FinishUploadDoes` | core/src/bridge.rs:300-325 | success makes exactly that file hold the uploaded bytes, with its identity if it was there, and drops exactly the parent's listing; failure changes nothing |
| `BridgeEffects.TrashNodeDoes` | core/src/bridge.rs:348-358 | success removes exactly the tree at the path from Drive and from the caches, and the listing it was in; failure changes nothing |
| `BridgeEffects.CopyNodeDoes` | core/src/bridge.rs:418-432 | success puts what is at and below the source at the target under the target's own name, where nothing was, and changes nothing else on Drive; exactly the target's stat and its parent's listing go; without a fault it succeeds if and only if the source exists, the target's parent is a folder and the target is free |
| `BridgeEffects.RenameNodeForgets` | core/src/bridge.rs:395-413 | after success exactly the entries of both trees and both parents' listings go; after failure none |
| `MetaCache.CoherentAlways` | core/src/bridge.rs:187-432 | with this program as only writer, and half-way renames only where nothing around them was cached, cached listings and stats are Drive's after any run of bridge calls and rechecks, stats of files uploaded since excepted |
| `MetaCache.ListDirIsLive` | core/src/bridge.rs:187-223 | so the listing served for any folder has exactly the live listing's items |
| `MetaCache.StatPathIsLive` | core/src/bridge.rs:225-246 | and the stat served is Drive's, files uploaded since their stat was taken excepted; a path Drive lacks is never served |
| `MetaCache.UploadLeavesStat` | core/src/bridge.rs:315-319 | the exception is real: the old stat is served after an upload of another size |
| `MetaCache.UploadStatIff` | core/src/bridge.rs:315-319 | the stat answered after an upload is Drive's if and only if the cached one equals the new entry, or none was cached and the call goes through |
| `MetaCache.HalfWayRenameStaysCached` | core/src/bridge.rs:395-397 | after a rename that fails half-way the cache still answers for a path Drive no longer has |
| `MetaCache.HalfWayCoherentIff` | core/src/bridge.rs:395-413 | after a rename that failed half-way the caches are coherent if and only if nothing at or under the source and neither parent's listing was cached |
| `Daemon.EvictStale` | daemon/src/cache_eviction.rs:24-37 | the sweep evicts the rows last accessed at or before the cutoff one after another and goes on past failures |
| `CachedFiles.EvictionGoesOn` | daemon/src/cache_eviction.rs:32-36 | whatever files are stuck, the rows left are exactly those accessed after the cutoff and the stale ones whose file is there and stuck, and the files gone are exactly the others that stale rows name |
| `CachedFiles.EvictionIsExact` | core/src/cache.rs:660-695 | when nothing is stuck it removes exactly the stale rows and exactly the files they name |
| `CachedFiles.FreshFilesStay` | core/src/cache.rs:684-695 | with distinct local paths a file stays if and only if its own row was accessed after the cutoff or it is stuck |
| `CachedFiles.PinsSurviveEviction` | core/src/cache.rs:677-683 | every pinned copy survives if and only if each stale row that names one names a stuck one |
| `CachedFiles.ServedCopyStays` | core/src/cache.rs:646-654 | a copy served after the cutoff, row and file, survives the sweep, with the access time renewed and nothing else changed |
| `CachedFiles.OpenedThenPinnedIsEvicted` | core/src/cache.rs:292-352 | opening, pinning and ageing past the cutoff removes the pinned copy |
| `GetPut.InvAlways` | worker/protondriveworker.cpp:515-621 | in every run of harmless steps, with any workers, remote writes, stat fills, evictions, crashes and downloads that take any time, every record, every record about to be made and every open under way either cannot match Drive's present time or is right about the stored content |
| `GetPut.HitsAreFresh` | core/src/bridge.rs:468-485 | when the live check makes a hit the bytes on disk are Drive's content at that moment |
| `GetPut.ServedBytesAreFresh` | worker/protondriveworker.cpp:515-521 | in the same runs the bytes streamed later are still that content, or a later version that another worker's transfer brought |
| `GetPut.BringStaleIff` | worker/protondriveworker.cpp:579-610 | content that arrives can be served stale, by opens, checks and records alone, if and only if the record, a record about to be made or an open that has read the record bears Drive's present time and it is other content, or an open already checked newer content |
| `GetPut.SavedTimeIff` | worker/protondriveworker.cpp:785-791 | with the saved copy stored, reading the time lets stale bytes be served if and only if it is Drive's present time and Drive no longer holds the saved version; with no cached stat, if and only if Drive no longer holds it |
| `GetPut.StepStaleIff` | core/src/bridge.rs:468-521 | after any step, stale bytes can be served without a further write or transfer if and only if the step was not harmless |
| `GetPut.NeverStaleIff` | worker/protondriveworker.cpp:515-621 | so a run, however interleaved, has no point at which an open can come to stream older content than it checked if and only if all its steps are harmless |
| `GetPutRuns.ApartStaleIff` | worker/protondriveworker.cpp:515-791 | when transfers of the file do not overlap, this holds if and only if no save with a stored copy reads Drive's present time after another version has replaced the saved one; downloads, copies and records need no condition |
| `GetPutRuns.SlowDownloadIsServedStale` | worker/protondriveworker.cpp:579-610 | a run from a cold cache in which a slow download brings the old version under another worker's record of the new one, and the next open serves it as current |
| `GetPutRuns.LateCopyIsServedStale` | worker/protondriveworker.cpp:779-784 | a run from a cold cache in which a save's copy comes after another worker recorded a newer version, and the next open serves it as that version |
| `GetPutRuns.OvertakenRecordIsServedStale` | worker/protondriveworker.cpp:785-791 | a run from a cold cache without any download in which a write between the upload and the stat labels the saved bytes with the later time, and the next open serves them |
| `GetPutRuns.FilesAreAccounted` | worker/protondriveworker.cpp:566-610 | whatever interleaves, a stored file is on record or in the hands of a transfer, unless a worker stopped between storing and recording |
| `GetPutRuns.AccountedIff` | worker/protondriveworker.cpp:566-610 | a step leaves a stored file without a record, which no sweep would find, if and only if it is such a stop; aborted and failed transfers remove their file |
| `Bridge.OpenIsLookup` | core/src/bridge.rs:468-485 | an open and its live check in this model take the branch of `lookup_cached` and leave the same tables |
| `Bridge.TakenStatIsStatPath` | core/src/bridge.rs:225-246 | the time `get()` and `put()` take in this model is the one `stat_path` answers and keeps |
| `Daemon.WalkAndUpload` | daemon/src/sync.rs:164-197 | the recursion over a directory tree syncs its files in order, carries on past failures, and ends at a lost session or an unreadable folder |
| `Reconcile.WalkEntries` | daemon/src/sync.rs:173-195 | the walk over a folder is the walk over its first entry followed by the rest, unless that ended it |
| `Reconcile.WalkIsComplete` | daemon/src/sync.rs:164-197 | a walk that got through visited every file on disk below its folder |
| `Reconcile.VisitThroughIff` | daemon/src/sync.rs:164-197 | the walk gets through if and only if nothing in the tree, however deep, is unreadable; a folder that has gone counts as read |
| `Reconcile.ReconcileLeavesOrder` | daemon/src/sync.rs:160-197 | after success every pinned file on disk under the root is clean or its own upload failed for a reason other than authentication, for any directory tree that shows the disk |
| `Reconcile.SessionLossStopsTheWalk` | daemon/src/sync.rs:160-197 | on an authentication failure the walk ended at that very upload; files before it stay as synced and later ones are not tried |
| `Reconcile.SessionLossIff` | daemon/src/sync.rs:182-189 | the walk reports a lost session if and only if one of its calls, all made for dirty pinned files, was answered so; no call was made after that one |
| `Reconcile.FailedIff` | daemon/src/sync.rs:186-194 | the failures noted are exactly the files whose own upload Drive refused, otherwise than for the session |
| `Daemon.RefreshAll` | daemon/src/fs_refresh.rs:153-207 | after both loops every cached stat and listing is Drive's value, or the old entry of a path whose own call reported an error other than not found; exactly what Drive says is gone was dropped, and exactly what was renewed is announced |
| `Refresh.SweepMakesFresh` | daemon/src/fs_refresh.rs:153-207 | the same for the sweep as a function, for any order in which the tables enumerate their paths |
| `Refresh.SweepSettles` | daemon/src/fs_refresh.rs:153-207 | each entry's own call settles it: renewed to Drive's value, dropped if and only if Drive says it is gone, or left alone after another error; children of renewed listings have Drive's entry as their stat, nothing else changes, and exactly the renewed stats and those children are announced |
| `Refresh.StatsKept` | daemon/src/fs_refresh.rs:153-180 | an entry is kept by the first loop if and only if its own call failed otherwise than by not being found |
| `Refresh.CalmSweepIsLive` | daemon/src/fs_refresh.rs:153-207 | when no call fails by itself everything cached afterwards is Drive's |
| `Daemon.LastRevalidated.Claim` | daemon/src/fs_refresh.rs:84-101 | old entries are forgotten, a recent one refuses, anything else is recorded |
| `Refresh.GrantedIff` | daemon/src/fs_refresh.rs:84-101 | in any sequence of requests one is granted if and only if none for its folder was granted less than ten seconds before |
| `Refresh.ToldIff` | daemon/src/fs_refresh.rs:109-140 | Drive is asked exactly for a real folder not claimed in the last ten seconds, and Dolphin is told exactly when Drive then lists something else than was cached; the listing becomes Drive's, goes when the folder is gone, or stays after another error |
| `Daemon.RevalidateListing` | daemon/src/fs_refresh.rs:109-140 | the root, a refused claim, an unchanged listing and a failed call tell nothing; a changed listing is stored and told |
| `Refresh.ToldAtMostOnce` | daemon/src/fs_refresh.rs:109-140 | while Drive's answer for a folder stays the same, any mix of listing and revalidating it announces it at most once |
| `Transfer.Run` | core/src/cli.rs:178-191 | the retry loop returns the outcome of the first attempt that is not locked out, or of the third, after 300 and then 600 milliseconds; locked out means unsuccessful with one of the two lock messages somewhere in either stream |
| `Transfer.TransientIff` | core/src/cli.rs:99-105 | an output counts as lock contention if and only if it is unsuccessful and either stream reads something, then one of the two messages, then something |
| `Transfer.TriesBackOff` | core/src/cli.rs:178-191 | the reference for the loop, from outputs alone: which attempt is the last, what is returned, and which spawns and delays came before |
| `Transfer.TransferHandle.Poll` | core/src/transfer.rs:215-262 | one poll: pending, finished, or a retry after a back-off unless cancelled or used up; a successful end is counted towards the throughput |
| `Transfer.RetriesIff` | core/src/transfer.rs:215-262 | a poll retries if and only if the ended attempt was locked out, nobody cancelled and fewer than three were made, after 300 milliseconds for each so far; any other end is the answer |
| `Transfer.CountedIff` | core/src/transfer.rs:206-209 | in every run a transfer is counted if and only if it ends with a successful attempt, with all its bytes over the time since the very first attempt |
| `Transfer.TransferHandle.Cancel` | core/src/transfer.rs:269-280 | marks the handle; the running child is left for the next poll to collect |
| `Transfer.PollingRefinesRun` | core/src/transfer.rs:215-262 | however the polls fall, the final result, the spawns and the delays are those of the blocking loop |
| `Transfer.PollingEnds` | core/src/transfer.rs:215-262 | three polls that find the attempt ended are enough to finish |
| `Transfer.AlwaysOrderly` | core/src/transfer.rs:215-280 | in every run of polls and cancels: at most one live child, at most three spawns, none after a cancel, each delay the one due |
| `Transfer.EstimatesClimb` | core/src/transfer.rs:199-204 | estimates of one transfer never go down and never pass 95 percent of the total, across retries |
| `Transfer.EstimateTracks` | core/src/transfer.rs:199-204 | the estimate is the elapsed time at the average rate, or the cap if that is less, rounded down to whole bytes |
| `Transfer.Throughput.Record` | core/src/transfer.rs:70-76 | samples without a positive duration are ignored; totals add up otherwise |
| `Transfer.AverageIsBetween` | core/src/transfer.rs:62-76 | the average lies between any bounds on the recorded rates |
| `Transfer.TotalSplits` | core/src/transfer.rs:70-76 | the totals of two series of samples together are the sums of their totals |
| `Transfer.RateIs` | core/src/transfer.rs:62-69 | the rate is all counted bytes over all counted seconds, or three mebibytes a second while nothing was counted |
| `Photos.StripIsExact` | core/src/photos.rs:194-209 | exactly a leading caret, at least eight hexadecimal digits and a caret are dropped |
| `Photos.BaseIs` | core/src/photos.rs:164-171 | a photo's base name is its name, or its id when it has none, less an import hash in front |
| `Photos.Disambiguate` | core/src/photos.rs:164-183 | the counting loop keeps nodes and order and gives the n-th photo of a base name its n-th name |
| `Photos.SuffixedInjective` | core/src/photos.rs:172-179 | generated names determine base name and number, so they never clash with one another |
| `Photos.DistinctIff` | core/src/photos.rs:164-183 | all names are distinct if and only if no base name equals a generated one |
| `Photos.NamesCanClash` | core/src/photos.rs:172-179 | `a.jpg`, `a.jpg`, `a (2).jpg` get the same name twice |
| `Photos.FilterMembers` | core/src/photos.rs:127-138 | a category holds exactly the listed photos with one of its tags |
| `Photos.FilterSplits` | core/src/photos.rs:127-138 | filtering goes through the list photo by photo, so order and number are kept |
| `Photos.TagsInOrder` | core/src/photos.rs:96-108 | the categories in order have the tags 0 to 9, one each but for the two of the live photos |
| `Photos.FindIff` | core/src/photos.rs:41-46 | a lookup finds a photo if and only if one has that name |
| `Photos.LookupReturnsListed` | core/src/photos.rs:41-46 | without such a base name, looking up a name from the flat list or any category returns the photo it was listed for |
| `Photos.LookupIff` | core/src/photos.rs:41-46 | every listed name leads back to its photo if and only if no base name equals a generated one |
| `ControlRequest.PercentEncode` | core/src/local_ctrl.rs:206-217 | the loop computes the encoding byte by byte |
| `ControlRequest.PercentDecode` | core/src/local_ctrl.rs:138-169 | the index loop computes the decoding, with plus as space and malformed escapes kept |
| `ControlRequest.PercentDecodeUrl` | daemon/src/open_folders.rs:182-201 | the loop of the URL decoder, which keeps plus and reads a plus sign inside an escape as part of a number |
| `ControlRequest.DecodeEncode` | core/src/local_ctrl.rs:206-217 | both decoders invert the encoder on every byte string (sections 2.1 and 2.3 of RFC 3986) |
| `ControlRequest.DecodersAgree` | daemon/src/open_folders.rs:182-201 | the two decoders agree on a text if and only if it has no plus sign |
| `ControlRequest.DecodeReads` | core/src/local_ctrl.rs:138-169 | two hexadecimal digits of either case after a percent sign are one byte, any other percent sign is kept, a plus sign is a space in a query, and all else stands for itself |
| `ControlRequest.EncodeByteIs` | core/src/local_ctrl.rs:206-217 | letters, digits and four marks stand for themselves, any other byte is a percent sign and its two digits in capitals |
| `ControlRequest.RouteReadBack` | core/src/local_ctrl.rs:246-254 | `request_path` recovers the printed route if and only if it has no blank and no question mark |
| `ControlRequest.PathReadBack` | core/src/local_ctrl.rs:223-231 | on such a route `extract_query_param` recovers exactly the path's bytes and finds no other parameter |
| `ControlRequest.ParamIff` | core/src/local_ctrl.rs:223-231 | a parameter is found if and only if some pair has its name; the first such pair gives the value |
| `ControlRequest.TokenReadBack` | core/src/local_ctrl.rs:237-244 | on such a route `extract_header` recovers the trimmed token if and only if no newline is left inside it |
| `ControlRequest.CapitalNameIsNeverFound` | core/src/local_ctrl.rs:233-244 | a header name with a capital letter is never found |
| `ControlRequest.HeaderFoundIff` | core/src/local_ctrl.rs:233-244 | a header is found if and only if its name has no capitals and some line has that name in any case; the first such line gives the value |
| `OpenFolders.OpenFolderTable.Enter` | daemon/src/open_folders.rs:63-72 | starts or adds a view and notes the time |
| `OpenFolders.OpenFolderTable.Leave` | daemon/src/open_folders.rs:73-81 | takes a view away and forgets the folder with the last one |
| `OpenFolders.OpenFolderTable.Touch` | daemon/src/open_folders.rs:85-89 | pushes back the expiry of a tracked folder only |
| `OpenFolders.OpenFolderTable.Current` | daemon/src/open_folders.rs:92-96 | drops the expired folders and answers with the rest |
| `OpenFolders.TrackedExactly` | daemon/src/open_folders.rs:63-96 | after any events a folder is tracked if and only if a spell of it, read off the events alone, is still open; its views are entered less left since the first such spell began, its time the last entry or touch |
| `OpenFolders.AnswerIsRecent` | daemon/src/open_folders.rs:92-96 | the answer holds exactly the folders with an open view that were entered or touched less than an hour ago, each with at least one view |
| `OpenFolders.ExpiryForgetsViews` | daemon/src/open_folders.rs:14-20 | after an hour of silence the views seen before no longer count, so a folder can be forgotten with views still on it |

## Left out

- SQLite, JSON and schema migration: tables are maps and stored nodes read back equal; a cache that cannot be opened or written is not modelled
- `last_synced_at` and `all_pinned`: recorded or listed, never used for a decision
- `is_dirty` and directory creation failing with an I/O error: only removing and renaming files may fail, on the paths named as stuck
- file system aliasing: the disk is a map from path strings, so two spellings of one path are two files; local paths built from normal Drive paths have one spelling
- the daemon hears a user's move through inotify with debouncing; in `PinRuns` and `SyncRuns` the move and its handling are one step, in `SelfRename` they are apart; what a move during an upload comes to is said by `MoveDuringUpload` and `MoveBeforeSending`
- `SyncRuns.CleanMeansOnDrive`: does not cover local moves to the top level of the cache, because there the Drive side may go wrong with the doubled slash described above; nor moves over another pin
- `GetPut.ServedBytesAreFresh`: does not model a file that is half written while it is read; a transfer takes time but its bytes land in one step, and `put()` without a usable cache directory is an upload alone
- files reached through symbolic links to directories: the walk does not follow them, and `Shows` then says nothing about them
- copied nodes keep the source's identity number, so conservation is stated for renames and moves only
- `Refresh.ToldIff`: does not name the paths announced along with the folder; they are the children of the new listing
- the sorting of the CLI's messages into kinds of errors: a call's error is a kind already
- listing order is Drive's choice and is a parameter; two listings are compared by their items
- `/trash`, restore and permanent deletion, and the effect of the daemon's own uploads and renames on the stat and listing caches: the code does not keep these fresh
- timeouts and signals: an attempt ends, breaks or does not start; killing a child is the mark that no further child is started
- floating-point rounding: times, rates and progress are reals; counters are unbounded naturals
- UTF-8: texts are bytes or characters one for one; lossy conversion, Unicode white space and Unicode case are not modelled
- the 4 KiB limit on reading a request, sockets, token generation and the constant-time comparison
- `OpenFolders.OpenFolderTable.Current`: answers a set, because the order of the sorted map it is read from is only presentation
- `drive_path` and `parse_signal`: conversions of D-Bus messages with one branch each
- photo timeline caching and downloads, sharing, the share dialog, the wizard, overlay and context-menu plugins, systemd, packaging and translations: input and output or user interface
- version comparison and the timers of the daemon's main loop: they would only add easy members
