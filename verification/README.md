# Verified models of Tactile's storage, sync and publishing core

Dafny models of the parts of Tactile whose correctness depends on more than one function, with proofs of what they
promise. Check the whole project with `dafny verify dfyconfig.toml`.

## What is modelled

**Sync engine.** `SyncModel` describes one run of `syncNow` as a function: the decision table over local file, remote
entry and last-sync base, what each decision does when any of its I/O calls throws (with or without having taken
effect), the loop over all paths, publishing the manifest and collecting blobs. `SyncEngine` is the run itself, with
the engine's mutable maps and counters, proved equal to that function. `SyncSafety` holds what every sync keeps under
arbitrary faults, and what holds in every run of edits, lost states and syncs by any number of devices. `SyncSurvival`
tells exactly which contents survive a sync when conflict copies may have names that are in use, `SyncReport` what the
list of errors and the counters of a sync say about what it did, and `SyncTimes` which times the manifest carries and
that the newer of two edits wins.
`SyncConvergence`, `SyncRounds`, `SyncPruning`, `SyncFixpoint` and `SyncMerge` treat error-free syncs: convergence of
all devices, repeated syncs, and the three-way merge law with its consequences; `SyncRetry` what a fault does to the
sync after it. `SyncStorage` puts a file system of files and directories under a sync, in which a file cannot be written
below another file or onto a directory, and tells when an error-free sync gets through; `SyncOnTree` and `SyncCalls`
make the storage calls of a whole sync on the directory tree below and show that it refuses just what the storage of
the sync refuses; `SyncThrows` shows that every sync is possible on every storage. `SyncClock` counts the moments a
clock needs, and `SyncLiveness`, `SyncProgress`, `SyncStuck` and `SyncMakesRoom` tell when error-free syncs and
convergence are possible at all. Hashes are constructors, hence injective, and a sealed blob opens to what was sealed.
The assumptions of an error-free sync are spelled out in `Calm` and `CalmStep`: no fault, every file readable,
conflict-copy names unused.

**Line diff.** `Lcs`, `LcsTable`, `LineDiff` and `DiffDisplay`: the flat table, the walk, trimming, the coarse
fallback, and the collapsed display.

**Keyed mutex.** `MutexModel` is the transition system of the promise callbacks, `KeyedLock` the object that takes its
steps, `MutexProofs` the claims over every interleaving.

**IndexedDB file system.** `Paths` is the path algebra, `DirTree` a nested tree, `FlatTable` the record table,
`FsRefinement` the refinement between them, `DirEffects` and `FsTimes` what each call does to the contents and to the
times of every path, `RootRecord` the extension to the calls aimed at the root, `IdbFs` the backend that changes the
record store in place.

**ZIP writer.** `Crc32`, `ZipNames`, `ZipFormat`, `ZipWriter` and, for the reader, `ZipRoundTrip`
(sections 4.3.7, 4.3.12 and 4.3.16 of the PKWARE APPNOTE).

**Relay store.** `BlobCodec` is the envelope format, `RelaySpec` the map the store is meant to be, with its accounting,
`RelayStore` the store with files, index and usage, and its recovery at start, `RelayHeaders` the accounts of that
recovery for any files.

**Publish node.** `PublishSpec` is a state machine of uploads, commits, rollbacks, site deletions and sweeps,
`PublishHistory` tells the state of every site from the operations alone, and `PublishServer` is the object store, the
handlers and the sweeper.

**Replace-all.** `ReplaceAll` edits a flat sequence of positions.

## Where the code does not keep its promise

Each of these is a lemma with a concrete input or an exact condition; the model follows the code.

- A comment says an in-flight deploy is never swept (publish/internal/server/server.go:187-190). A deploy loses an
  object when its upload was a dedup hit on an object marked earlier (`PublishSpec.MarkedOrphanIsSweptMidDeploy`), and
  a newly uploaded one when it meets two sweeps (`PublishSpec.TwoSweepsTakeNewUpload`).
  `PublishSpec.InFlightDeploySafeIff` says for every run which deploys are safe.
- If the site record cannot be written after the manifests were trimmed, a retained deploy, possibly the current one,
  has lost its manifest: `PublishSpec.FailedSiteWriteIff`, at an input `PublishSpec.FailedSiteWriteLosesManifest`. If
  the record of a deleted site cannot be unlinked, it lists deploys without manifests:
  `PublishSpec.DeleteKeepsManifestsIff`, at an input `PublishSpec.FailedUnlinkLosesManifest`. With no deploys kept the
  current one is not retained: `PublishSpec.CommitKeepsCurrentIff`, at an input `PublishSpec.NoneKeptLosesCurrent`.
  The limit is not checked, and a negative one loses manifests at each deploy: `PublishSpec.NegativeLimitLosesManifest`.
- The relay's quota check is skipped for an identity without a usage entry: `RelaySpec.PutKeepsQuotaIff`,
  `RelaySpec.FirstPutSkipsQuota`.
- Opening the relay's store drops corrupt files (relay/internal/store/fs.go:91-95) but checks the header only:
  `RelayStore.OpensWholeIff` says exactly which files open as a set of records, and `RelayStore.CutRecordIsIndexed`
  that a record cut short in its payload is indexed all the same. Files that head the same record are counted twice:
  `RelayStore.UsageCountRightIff`.
- Writing to, or renaming to, the root of the IndexedDB file system succeeds and leaves records that belong to no
  tree: `FsRefinement.WriteKeepsTreeIff`, `FsRefinement.RenameKeepsTreeIff`, at inputs
  `FsRefinement.RootWriteBreaksTheTree`, `FsRefinement.RootRenameBreaksTheTree`. `RootRecord.EveryCallBehaves` says what
  then happens in every sequence of calls: the renamed subtree is gone from the tree.
- Devices do not always converge: with a file "a" on one and a file "a/b" on another no run of syncs makes them agree
  (`SyncStuck.NeverConverges`, at an input `SyncStuck.FileAgainstFolder`), and a directory stays in the way when its
  files are gone (`SyncLiveness.LeftoverDirectory`, at an input `SyncLiveness.FolderOutlivesFile`).
  `SyncLiveness.ErrorFreeSyncIff` says exactly when an error-free sync is possible, `SyncStuck.ConvergenceIffRoom` when
  convergence is, unless a name that clashes is itself being deleted.
- A step that fails forgets its base, which can turn the next sync around: `SyncRetry.FaultChangesMergeIff` says exactly
  when, and `SyncRetry.FailedRemovalReturns` that a failed removal undoes the deletion for all devices, at an input
  `SyncRetry.RemovalFailsOnce`.
- A file that the walk leaves out, because it has grown too large or cannot be read, is deleted for all other devices:
  `SyncReport.LeftOutIsBuriedIff`.
- A deletion whose tombstone is pruned early comes back: `SyncPruning.TwoRoundsWithPruning`.
- A conflict copy overwrites a file that happens to have its name: `SyncSurvival.ContentAfterIff` says exactly what is
  under a path afterwards, `SyncSurvival.EditStaysIff` and `SyncSurvival.CopyStaysIff` when an edited file and when a
  copy survive, and `SyncSurvival.UsedCopyNameLosesEdit` gives the input. Then a recorded base may not match its file:
  `SyncSurvival.BasesMatchBothSidesIff`, at an input `SyncSurvival.UsedCopyNameSpoilsBase`.
- A conflict won by the local side drops the remote content, also on the device that wrote it:
  `SyncMerge.ConflictKeepsBothIff`, at an input `SyncMerge.OlderRemoteIsDropped`, and `SyncMerge.LosingEditIsGone`.

## Model

| member | source | states |
|---|---|---|
| `ConflictNames.ConflictPathInjective` | packages/core/src/api/sync.ts:219-226 | For one timestamp two different files never get the same conflict-copy name |
| `ConflictNames.ConflictPathKeepsDirectory` | packages/core/src/api/sync.ts:219-226 | A conflict copy lies in the directory of its file |
| `ConflictNames.CutOfCopy` | packages/core/src/api/sync.ts:221-225 | Where the mark was inserted can be read off the copy name: the copy is cut right after the mark, or at its end when there was no extension |
| `ConflictNames.ExtensionIsKept` | packages/core/src/api/sync.ts:221-225 | The mark goes before the last dot of a name, and whatever follows that dot stays the end of the name |
| `ConflictNames.NoExtensionNoCut` | packages/core/src/api/sync.ts:221-225 | A name without a dot gets the mark at its end, whatever dots its directories have |
| `SyncEngine.SyncRun.Upload` | packages/core/src/api/sync.ts:323-328 | The blob id is derived from path and content, the content is sealed under it unless stored already, only a successful put is counted, and the new entry is live and carries the hash and the modification time of the file, or the time of the sync for a file without one |
| `SyncEngine.SyncRun.Download` | packages/core/src/api/sync.ts:330-337 | Which of the three calls throws decides whether the file is written and whether the download is counted |
| `SyncEngine.SyncRun.ReconcileBoth` | packages/core/src/api/sync.ts:345-380 | In-place handling of a path both sides hold changes tree, relay, next manifest, next state and counters exactly as the decision table prescribes, for every fault |
| `SyncEngine.SyncRun.TransferEither` | packages/core/src/api/sync.ts:352-379 | Whichever side changed is transferred; the branch for neither side is unreachable |
| `SyncEngine.SyncRun.SettleConflict` | packages/core/src/api/sync.ts:360-373 | Of two edits the newer one is transferred, the conflict is counted either way, and a failure leaves entry and base as they were |
| `SyncEngine.SyncRun.TakeRemote` | packages/core/src/api/sync.ts:361-369 | The losing local file is saved as a copy before the remote one overwrites it; a failed copy stops before the overwrite |
| `SyncEngine.SyncRun.SaveCopy` | packages/core/src/api/sync.ts:361-368 | The copy's directory is made and the copy written, in that order; a call that takes effect had no file above and no directory in its way |
| `SyncEngine.SyncRun.ReconcileLocal` | packages/core/src/api/sync.ts:381-391 | A file only this device holds is removed exactly when it is tombstoned and unchanged, and uploaded otherwise |
| `SyncEngine.SyncRun.ReconcileRemote` | packages/core/src/api/sync.ts:392-407 | A file with a live entry that is missing here is buried when this device deleted it, and fetched otherwise |
| `SyncEngine.SyncRun.Reconcile` | packages/core/src/api/sync.ts:340-422 | One round of the loop equals applying the decided outcome, tombstones kept or pruned by age, errors recorded and not propagated |
| `SyncEngine.SyncRun.WriteManifest` | packages/core/src/api/sync.ts:209-217 | Although put never overwrites, fetching afterwards gives the new manifest, or none if the put throws; every other id is as before |
| `SyncEngine.SyncRun.DropStaleBlobs` | packages/core/src/api/sync.ts:428-432 | Exactly the stale ids that the next manifest does not name are removed, removal failures aside |
| `SyncEngine.SyncRun.SyncNow` | packages/core/src/api/sync.ts:309-434 | The whole imperative run ends in the state of the functional specification of one sync, files and directories alike, for every fault and wherever the run stops |
| `SyncSafety.NoLocalEditLost` | packages/core/src/api/sync.ts:340-422 | For every pattern of faults and aborts, while no path in use is a copy name, a walked file that differs from its base, or has none, is still there at its path or at its conflict copy |
| `SyncSurvival.ContentAfterIff` | packages/core/src/api/sync.ts:340-422 | Whatever names are in use, under every fault and abort, a content is under a path after a sync if and only if the condition foretells it from the state before: the one file copied onto the path, the own step of the path, and their order |
| `SyncSurvival.EditKeptIff` | packages/core/src/api/sync.ts:360-373 | A content is kept, at its path or at its conflict copy, exactly when that condition holds for one of the two |
| `SyncSurvival.EditStaysIff` | packages/core/src/api/sync.ts:345-391 | An edited file that is not itself copied keeps its content if and only if every file copied onto its path has that same content |
| `SyncSurvival.CopyStaysIff` | packages/core/src/api/sync.ts:361-370 | The conflict copy of an overtaken file survives if and only if the path of the copy is not processed after the file, or its own step leaves that content there |
| `SyncSurvival.UsedCopyNameLosesEdit` | packages/core/src/api/sync.ts:361-368 | For every timestamp there is a fault-free sync that overwrites a new file with the copy of another one |
| `SyncSurvival.BasesMatchBothSidesIff` | packages/core/src/api/sync.ts:345-422 | Whatever failed and whatever names are in use, every state entry written matches the manifest, and the local file exactly if its content is under the path in the end, as it is when no copy name is in use |
| `SyncSurvival.UsedCopyNameSpoilsBase` | packages/core/src/api/sync.ts:361-378 | For every timestamp there is a fault-free sync that records a base and then overwrites the file with a copy |
| `SyncSafety.EditKept` | packages/core/src/api/sync.ts:345-391 | No decision overwrites or removes an edited file without its content going to a copy first |
| `SyncSafety.PathResult` | packages/core/src/api/sync.ts:340-422 | What a whole sync does to a path is what was decided for it, whatever happens to the other paths |
| `SyncSafety.PathUntouched` | packages/core/src/api/sync.ts:339-340 | A path outside the enumeration gets no entry and no state, and its file stays unless it has the name of a copy |
| `SyncSafety.BaseRecorded` | packages/core/src/api/sync.ts:345-407 | State is recorded for a path only together with a live entry and a file of the same hash |
| `SyncSafety.EntrySource` | packages/core/src/api/sync.ts:323-328 | Every new entry names the blob of an old entry or a blob put in this sync, under the id of path and hash |
| `SyncSafety.NextEntriesStored` | packages/core/src/api/sync.ts:339-426 | When the manifest is published, every entry in it names a stored blob under its content-derived id |
| `SyncSafety.GarbageIsOwn` | packages/core/src/api/sync.ts:319-321 | Only file blobs of the own collection are collected, never one the new manifest names, never the manifest |
| `SyncSafety.ManifestAfter` | packages/core/src/api/sync.ts:424-432 | The manifest on the relay after a sync is the one the loop built, the old one if the run stopped before, or none if the put after the removal threw |
| `SyncSafety.PublishedAndSaved` | packages/core/src/api/sync.ts:424-434 | A published manifest carries the time of the sync, and the state is saved only by a sync that finishes |
| `SyncSafety.OtherCollectionsUntouched` | packages/core/src/api/sync.ts:99-107 | Manifests and file blobs of other collections are left exactly as they were |
| `SyncSafety.InvStep` | packages/core/src/api/sync.ts:278-434 | Content addressing, stored entries and addressed bases are kept by every edit, lost state and sync |
| `SyncSafety.ManifestBlobsReachable` | packages/core/src/api/sync.ts:103-107 | In every run from an empty relay, faults and aborts included, each manifest entry, tombstones too, names a stored blob that decrypts to content of its hash |
| `SyncConvergence.Agreement` | packages/core/src/api/sync.ts:345-418 | After any error-free sync file, live entry and base agree on every path but the fresh conflict copies, and only outdated tombstones have lost their entries |
| `SyncConvergence.CalmCopy` | packages/core/src/api/sync.ts:361-370 | A conflict copy is written exactly for a file overtaken by a newer remote edit, with the local content, under a name nobody used |
| `SyncConvergence.SyncSettles` | packages/core/src/api/sync.ts:345-434 | Any error-free sync adds the local names to the manifest, drops outdated tombstones and nothing else, and without conflicts leaves a mirror with nothing to send |
| `SyncConvergence.SettledSync` | packages/core/src/api/sync.ts:345-418 | A device without edits uploads what the manifest lacks, changes no entry, prunes outdated tombstones only and causes no conflict |
| `SyncConvergence.UntouchedOnlyPulls` | packages/core/src/api/sync.ts:345-432 | A device untouched since its last sync only pulls: the manifest loses outdated tombstones at most, and its live part becomes the files |
| `SyncConvergence.NoConflictNoCopy` | packages/core/src/api/sync.ts:360-370 | A sync that counts no conflict wrote no conflict copy |
| `SyncRounds.ConvergesInThreeRounds` | packages/core/src/api/sync.ts:339-434 | Three rounds of error-free serial syncs, in any orders and with any pruning, make all devices mirror the live manifest |
| `SyncRounds.ConvergesInTwoRounds` | packages/core/src/api/sync.ts:339-434 | Two rounds are enough when the first one counts no conflict and neither prunes a tombstone |
| `SyncPruning.TwoRoundsWithPruning` | packages/core/src/api/sync.ts:408-417 | Two rounds without conflicts are not enough with pruning: a concrete run in which a pruned deletion comes back |
| `SyncRounds.EventualConsistency` | packages/core/src/api/sync.ts:278-434 | After any history of edits, lost states and failing syncs, three error-free rounds leave all devices with the same files, whatever is pruned |
| `SyncStorage.PossibleIffClear` | packages/core/src/api/sync.ts:330-337 | The storage lets an error-free sync through if and only if, before it, no file to be pulled is a directory or lies below a file that stays, a copy or another one to be pulled, and no copy is a directory |
| `SyncStorage.ValidAfter` | packages/core/src/api/sync.ts:330-337 | Whatever fails, a sync the storage allows leaves files and directories apart and every file below directories |
| `SyncOnTree.DownloadOnTreeIff` | packages/storage/src/idbfs.ts:141-222 | On the directory tree, the two calls of a download are refused exactly where the storage of the sync refuses them, and if accepted the tree shows one file more, with its contents, and the directories above it |
| `SyncCalls.CopyHasNames` | packages/core/src/api/sync.ts:219-226 | The name of a conflict copy is a path of names if that of its file is |
| `SyncCalls.StepCallsIff` | packages/core/src/api/sync.ts:340-407 | The storage calls of one step, conflict copies and removals included, meet nothing in their way exactly if the storage model allows the step, and change the files and directories as it says |
| `SyncCalls.SyncOnTreeIff` | packages/core/src/api/sync.ts:309-426 | All storage calls of a sync are accepted by the directory tree if and only if the storage model allows the sync, and then the tree shows exactly its files, with their contents, and its directories afterwards |
| `SyncThrows.EverySyncIsPossible` | packages/core/src/api/sync.ts:330-337 | For every storage and every other fault there is a run the storage allows, which differs by the calls the storage refuses |
| `SyncClock.OneStampPerName` | packages/core/src/api/sync.ts:219-226 | A name is that of a conflict copy for at most one timestamp |
| `SyncClock.FreshTimes` | packages/core/src/api/sync.ts:219-226 | Of the moments a clock shows at most one for each name in use gives a conflict copy that name |
| `SyncLiveness.ErrorFreeSyncIff` | packages/core/src/api/sync.ts:330-337 | On a clock with more moments than names in use, an error-free sync is possible if and only if no wanted file is a directory here or lies below a file that stays or another wanted one |
| `SyncLiveness.FileAgainstDirectory` | packages/core/src/api/sync.ts:330-337 | A file here and a live file below it in the manifest: no error-free sync |
| `SyncLiveness.LeftoverDirectory` | packages/core/src/api/sync.ts:381-386 | A directory left by a deleted file stands in the way of a file of its name: no error-free sync |
| `SyncLiveness.FolderOutlivesFile` | packages/core/src/api/sync.ts:381-386 | The failure at an input: "a/b" is given up here, and "a" is live in the manifest |
| `SyncLiveness.NoErrorFreeSync` | packages/storage/src/idbfs.ts:184-191 | The failure at an input: file "a" here, "a/b" in the manifest |
| `SyncProgress.ConvergencePossible` | packages/core/src/api/sync.ts:278-434 | Whatever happened before, if no name in use lies above another or is a directory anywhere, three error-free rounds the storages allow are possible at moments of the clock and make all devices hold the same files |
| `SyncStuck.NeverConverges` | packages/core/src/api/sync.ts:330-337 | A file nobody is deleting that is a directory on another device: no run of syncs, with whatever faults, makes the devices agree |
| `SyncStuck.ConvergenceIffRoom` | packages/core/src/api/sync.ts:278-434 | Unless a name that clashes with another one is itself being deleted, three error-free rounds that make the devices agree are possible if and only if the names in use leave room; other deletions, finished or under way, do not matter |
| `SyncMakesRoom.RoomAfterSync` | packages/core/src/api/sync.ts:278-434 | If some error-free sync makes room, three rounds that begin with it can make the devices agree |
| `SyncMakesRoom.DeletedNameMakesRoom` | packages/core/src/api/sync.ts:381-386 | Why clashes of a name being deleted are excepted, at an input: no room yet, as "a" is on its way out above a new "a/b", and convergence is possible all the same |
| `SyncStuck.FileAgainstFolder` | packages/core/src/api/sync.ts:330-337 | The failure at an input: a new file "a" on one device, a new "a/b" on the other |
| `SyncFixpoint.SyncLeavesInStep` | packages/core/src/api/sync.ts:345-418 | After any error-free sync the device agrees with every entry, and what the manifest lacks are exactly the conflict copies |
| `SyncFixpoint.RepeatedSync` | packages/core/src/api/sync.ts:345-418 | A sync of such a device changes no file and no entry, prunes outdated tombstones only, and uploads exactly the files the manifest lacks |
| `SyncFixpoint.ThirdSyncIsFixpoint` | packages/core/src/api/sync.ts:345-418 | The second of three error-free syncs uploads exactly the conflict copies; the third transfers nothing and changes no entry but for pruning outdated tombstones |
| `SyncMerge.ThreeWayMerge` | packages/core/src/api/sync.ts:345-418 | File, live entry and base all end as the textbook three-way merge of local, remote and base; the entry is gone exactly if it was an outdated tombstone |
| `SyncMerge.EditBeatsEarlierDelete` | packages/core/src/api/sync.ts:381-391 | One device deletes and syncs, the other edits and syncs: after the deleter syncs again both hold the edit |
| `SyncMerge.EditBeatsLaterDelete` | packages/core/src/api/sync.ts:392-407 | The same with the editing device syncing first |
| `SyncMerge.UneditedCopyIsDeleted` | packages/core/src/api/sync.ts:382-386 | An unedited copy is deleted instead, and the tombstone stays |
| `SyncMerge.ConflictKeepsBothIff` | packages/core/src/api/sync.ts:360-373 | A conflict keeps both contents if and only if the remote entry is newer than the local file |
| `SyncMerge.OlderRemoteIsDropped` | packages/core/src/api/sync.ts:370-372 | The failure at an input: an older remote entry, whose content is on the relay no more |
| `SyncMerge.LosingEditIsGone` | packages/core/src/api/sync.ts:370-372 | When the local side wins, the device that made the other edit takes the winner at its next sync, without a copy and with the content gone from the relay |
| `SyncMerge.LoserCollected` | packages/core/src/api/sync.ts:428-432 | The blob of a former entry is stored afterwards exactly if the path still has that content |
| `SyncTimes.EntryAfter` | packages/core/src/api/sync.ts:323-417 | Whatever fails, an entry after a sync is the former one, a tombstone of it dated now, or, for a content that was not live before, the entry of the walked file with the time of that file |
| `SyncTimes.UploadedTime` | packages/core/src/api/sync.ts:327 | The live entry of an uploaded file carries its modification time |
| `SyncTimes.TombstoneAge` | packages/core/src/api/sync.ts:408-417 | The tombstone of a file that is not here either is kept for thirty days and no longer |
| `SyncTimes.TwoEdits` | packages/core/src/api/sync.ts:357-373 | Of two edits of a common base the one synced first wins, on both devices and in the manifest, exactly if its time is after that of the other file |
| `SyncTimes.NewerEditWins` | packages/core/src/api/sync.ts:357-373 | Of two edits of a common base that of the newer file wins, whichever device syncs first |
| `SyncReport.Reported` | packages/core/src/api/sync.ts:344-421 | A path is reported exactly if one of the calls made for it fails; a path that is not ends as in an error-free sync whatever fails elsewhere, one that is keeps its entry and loses its base |
| `SyncReport.LeftOutIsBuriedIff` | packages/core/src/api/sync.ts:149-152 | A file the walk leaves out counts as deleted: its live entry becomes a tombstone if and only if it is unchanged since the last sync, although the file stays |
| `SyncReport.CountersTell` | packages/core/src/api/sync.ts:285-294 | The counters of a sync, failing ones included, are the numbers of paths whose live content in the manifest changed, that took another content here, that went here, that went from the live manifest, and that were in conflict |
| `SyncRetry.FaultChangesMergeIff` | packages/core/src/api/sync.ts:418-432 | A sync with faults, or one that stops early, and then an error-free one merge a path as an error-free one at once exactly if the step of the path recovers, told from plan, fault, stop, file and entry before; stopping before the manifest or before the state never matters |
| `SyncRetry.FailedRemovalReturns` | packages/core/src/api/sync.ts:382-386 | A failed removal of a file deleted elsewhere makes the next sync bring the file back for all |
| `SyncRetry.RemovalFailsOnce` | packages/core/src/api/sync.ts:382-386 | The failure at an input: one file with its base and its tombstone |
| `Lcs.CommonSubseqBound` | packages/core/src/utils/diff.ts:106-124 | No common subsequence is longer than the recursively defined length |
| `Lcs.TrimPreservesLcs` | packages/core/src/utils/diff.ts:47-60 | Trimming a common prefix and suffix takes exactly their lengths off the LCS length |
| `LcsTable.FillTable` | packages/core/src/utils/diff.ts:112-124 | Every cell of the flat 32-bit table holds the LCS length of the two suffixes |
| `LineDiff.Trim` | packages/core/src/utils/diff.ts:47-60 | Prefix and suffix are maximal, equal on both sides and do not overlap |
| `LineDiff.LcsDiff` | packages/core/src/utils/diff.ts:106-151 | The walk through the table accounts for both middles line by line, keeps as many lines as an LCS has, and never puts an addition right before a deletion |
| `LineDiff.DiffLines` | packages/core/src/utils/diff.ts:31-104 | Without additions the result is the old text numbered 1..n, without deletions the new one; counts are exact; deletions come before their additions, in the coarse fallback too; unless truncated it keeps LCS many lines; it truncates exactly when the trimmed middles have too many cells |
| `LineDiff.FaithfulKeepsAtMostLcs` | packages/core/src/utils/diff.ts:31-104 | No faithful result, however computed, keeps more lines than an LCS |
| `LineDiff.LcsResultIsMinimal` | packages/core/src/utils/diff.ts:97-103 | A result that keeps LCS many lines has the fewest additions plus deletions of all faithful results |
| `LineDiff.TextsRecovered` | packages/core/src/utils/diff.ts:31-104 | Either text can be rebuilt from the result, truncated or not |
| `DiffDisplay.CollapseUnchanged` | packages/core/src/utils/diff.ts:159-194 | The rows stand for all lines in order; a collapsed row hides only unchanged lines, at least two, under right numbers, with full context on both sides; no longer run is shown in full |
| `KeyedLock.KeyedMutex.RunExclusive` | packages/storage/src/mutex.ts:15-29 | A call holds exactly its keys, sorted: every one of them is in the chain map with the new operation and all other entries are as before, it waits exactly for the tails found, and all this is one step of the transition system |
| `KeyedLock.SortKeys` | packages/storage/src/mutex.ts:16 | Sorting gives the same keys in ascending order |
| `KeyedLock.KeyedMutex.ReleaseKeys` | packages/storage/src/mutex.ts:30-35 | Cleanup is one step: only chain entries that still hold the own tail go |
| `MutexProofs.OperationsAreCalls` | packages/storage/src/mutex.ts:16-29 | In every run the operations are the calls: operation i has the keys of the i-th call, and its phase and result are those its events tell |
| `MutexProofs.MutualExclusion` | packages/storage/src/mutex.ts:15-37 | In every interleaving, two calls that share a key are never in progress together: started and not yet finished |
| `MutexProofs.StartsInCallOrder` | packages/storage/src/mutex.ts:17-22 | Of two calls that share a key the later one has not started unless the earlier one has finished |
| `MutexProofs.StartsIffEarlierUsersDone` | packages/storage/src/mutex.ts:17-35 | A call that has not started may start exactly when every earlier call that shares a key is done, although chain entries are overwritten and deleted |
| `MutexProofs.OnlyOwnStepsCount` | packages/storage/src/mutex.ts:16-22 | Later calls, whatever their keys and orders, never add a step an operation has to wait for |
| `MutexProofs.SomeEarlierCanStep` | packages/storage/src/mutex.ts:16-22 | No deadlock: while an operation is not done, it or an earlier one can take a step |
| `MutexProofs.EveryOperationRuns` | packages/storage/src/mutex.ts:16-35 | Once enough steps of it and its predecessors have happened, an operation has run and cleaned up |
| `MutexProofs.QuietMeansCleanedUp` | packages/storage/src/mutex.ts:30-35 | A run that cannot go on has run every operation and left the chain map empty |
| `MutexProofs.FailuresDoNotBlock` | packages/storage/src/mutex.ts:23-26 | Because the tail handles both outcomes it is fulfilled either way, so whether callbacks fail makes no difference to what can happen afterwards |
| `Paths.ComputeNormalizePath` | packages/storage/src/paths.ts:24-39 | The loop computes the normal form and rejects exactly the empty path and paths with a ".." segment |
| `Paths.SegmentsConcat` | packages/storage/src/paths.ts:30-38 | Of any two paths with a slash between them the segments are those of the one and then those of the other, an empty side having none; a refused side refuses both |
| `Paths.SingleSegment` | packages/storage/src/paths.ts:30-36 | A path without a slash is one name; a dot stands for nothing, two dots and nothing at all are refused |
| `Paths.NormalFormOfSegments` | packages/storage/src/paths.ts:38 | The normal form of any path is the path of its segments |
| `Paths.OuterSlashChangesNothing` | packages/storage/src/paths.ts:30-31 | A slash before or after a path changes nothing |
| `Paths.InnerSlashChangesNothing` | packages/storage/src/paths.ts:30-31 | A doubled slash is one slash, and so is a dot between slashes |
| `Paths.ParentAndBaseOfPath` | packages/storage/src/paths.ts:45-54 | Parent and base name of any path, normalized or not, from its segments |
| `Paths.IsUnderOfPaths` | packages/storage/src/paths.ts:67-71 | Of any two paths one is under the other exactly if the segments of the other begin its own |
| `Paths.NormalizeIdempotent` | packages/storage/src/paths.ts:24-39 | A normalized path consists of proper names, and normalizing it again changes nothing |
| `Paths.SegmentsOfPath` | packages/storage/src/paths.ts:60-64 | Splitting the path of a list of names gives back the list |
| `Paths.PathOfInjective` | packages/storage/src/paths.ts:60-64 | Different lists of names have different paths |
| `Paths.ParentAndBase` | packages/storage/src/paths.ts:41-54 | Parent and base name are the list without its last name and that name, and joining them rebuilds the path |
| `Paths.ParentOfRoot` | packages/storage/src/paths.ts:45-54 | The root is its own parent and has an empty base name |
| `Paths.UnderIffPrefix` | packages/storage/src/paths.ts:67-71 | The string test holds exactly when one segment list is a prefix of the other |
| `Paths.UnderIsPartialOrder` | packages/storage/src/paths.ts:67-71 | The test is reflexive, antisymmetric and transitive on normalized paths |
| `FlatTable.WriteRefines` | packages/storage/src/idbfs.ts:141-176 | A write on the record table reports and does what a write on the tree does |
| `FlatTable.MakeDirRefines` | packages/storage/src/idbfs.ts:184-222 | Making one directory reports and does what it does on the tree, existing directories and files in the way included |
| `FlatTable.MkdirRecursiveRefines` | packages/storage/src/idbfs.ts:206-212 | Making all prefixes reports and does what it does on the tree; with a file in the way both stay as they were |
| `FlatTable.RenameRefines` | packages/storage/src/idbfs.ts:226-276 | A rename reports the same and moves exactly the subtree, contents kept |
| `FlatTable.RenameProblemIff` | packages/storage/src/idbfs.ts:230-256 | The checks of a rename fail on the table exactly when and how they fail on the tree |
| `FlatTable.MoveRefines` | packages/storage/src/idbfs.ts:258-272 | Rewriting each affected record under the new prefix is detaching and attaching the subtree |
| `FlatTable.RemoveRefines` | packages/storage/src/idbfs.ts:278-304 | A removal reports the same and takes away exactly the subtree, or refuses a non-empty directory |
| `FsRefinement.StepRefines` | packages/storage/src/idbfs.ts:141-304 | Every call, failing ones included, reports the same and keeps table and tree in correspondence |
| `FsRefinement.TableBehavesLikeTree` | packages/storage/src/idbfs.ts:141-304 | From the empty table on, every sequence of calls not aimed at the root is a sequence of calls on a nested directory tree |
| `FsRefinement.ReadDirRefines` | packages/storage/src/idbfs.ts:92-108 | Listing by the parent index gives exactly the children in the tree, with their kinds |
| `DirEffects.WriteEffect` | packages/storage/src/idbfs.ts:149-172 | A write shows its data at its path and changes what no other path shows; when it fails, and how |
| `DirEffects.MakeDirEffect` | packages/storage/src/idbfs.ts:184-222 | One new directory shows at its path, an old one is left alone, no other path changes; when it fails, and how |
| `DirEffects.MakeDirsEffect` | packages/storage/src/idbfs.ts:206-212 | Every directory on the way is made, or, with a file on the way, none |
| `DirEffects.RenameEffect` | packages/storage/src/idbfs.ts:258-272 | What was at and below the source shows at and below the target, nothing shows at the source, and all other paths show what they did |
| `DirEffects.RenameFails` | packages/storage/src/idbfs.ts:230-256 | Exactly when a rename fails, and how |
| `DirEffects.RemoveEffect` | packages/storage/src/idbfs.ts:278-304 | Exactly what is at and below the path goes; when a removal fails, and how |
| `DirEffects.ListEffect` | packages/storage/src/idbfs.ts:92-108 | A listing has exactly the names that show something one level below, and tells the directories |
| `FsTimes.WriteTimes` | packages/storage/src/idbfs.ts:159-171 | An overwrite renews the modification time and keeps the creation time; no other path changes its times |
| `FsTimes.MkdirTimes` | packages/storage/src/idbfs.ts:182-222 | A new directory is created now, one that was there keeps its times |
| `FsTimes.RenameTimes` | packages/storage/src/idbfs.ts:258-272 | Everything moved keeps its creation time and gets a new modification time |
| `FsTimes.RemoveTimes` | packages/storage/src/idbfs.ts:278-304 | What stays after a removal keeps its times |
| `FsRefinement.WriteKeepsTreeIff` | packages/storage/src/idbfs.ts:149-163 | A write, failed or not, leaves a table that stands for a tree if and only if its target is not the root |
| `FsRefinement.RenameKeepsTreeIff` | packages/storage/src/idbfs.ts:236-272 | A successful rename leaves a table that stands for a tree if and only if its target is not the root |
| `FsRefinement.RootWriteSucceeds` | packages/storage/src/idbfs.ts:149-163 | A write to the root succeeds on every store and leaves a table that stands for no tree |
| `FsRefinement.RootRenameSucceedsIff` | packages/storage/src/idbfs.ts:230-256 | A rename to the root succeeds exactly for an existing source, and then the table stands for no tree |
| `FsRefinement.RootWriteBreaksTheTree` | packages/storage/src/idbfs.ts:149-163 | The failure at an input: a write to the root of the empty store |
| `FsRefinement.RootRenameBreaksTheTree` | packages/storage/src/idbfs.ts:226-276 | The failure at an input: the only file of a store renamed to the root |
| `RootRecord.StepAside` | packages/storage/src/idbfs.ts:141-304 | Whatever calls aimed at the root have left behind, every other call reports and does what it does without it |
| `RootRecord.RootRenameAside` | packages/storage/src/idbfs.ts:258-272 | A rename to the root takes its source with all descendants out of the tree |
| `RootRecord.EveryStepRefines` | packages/storage/src/idbfs.ts:141-304 | Every call at all, those aimed at the root and failing ones included, reports and does what it does on a tree with a slot for one record at its root |
| `RootRecord.EveryCallBehaves` | packages/storage/src/idbfs.ts:141-304 | From the empty table on, every sequence of calls has the errors and the tree of that specification |
| `RootRecord.StepKeepsAside` | packages/storage/src/idbfs.ts:141-304 | Apart from what calls aimed at the root leave behind, the table keeps standing for a tree under every call |
| `IdbFs.IdbFsBackend.WriteRecord` | packages/storage/src/idbfs.ts:141-176 | The in-place write equals its step on the table and keeps the directory-tree invariant |
| `IdbFs.IdbFsBackend.MakeDirectories` | packages/storage/src/idbfs.ts:178-224 | The loop over the prefixes equals the step on the table, stopping where it fails, and keeps the invariant |
| `IdbFs.IdbFsBackend.RenameEntry` | packages/storage/src/idbfs.ts:226-276 | The in-place rename, its records visited in any order, equals the step on the table and keeps the invariant that every call keeps, renames to the root included |
| `IdbFs.IdbFsBackend.MoveAffected` | packages/storage/src/idbfs.ts:258-272 | The delete/put loop never puts a record onto one still to be moved, in whatever order it runs |
| `IdbFs.IdbFsBackend.RemoveEntry` | packages/storage/src/idbfs.ts:278-304 | The in-place removal equals the step on the table and keeps the invariant |
| `IdbFs.IdbFsBackend.ReadDir` | packages/storage/src/idbfs.ts:92-108 | Listing reports the error or the children that the directory tree held by the records has there |
| `Crc32.BuildTable` | packages/core/src/utils/zip.ts:14-24 | Each of the 256 entries is its index shifted eight times against the reflected polynomial |
| `Crc32.ShiftLinear` | packages/core/src/utils/zip.ts:19 | The shift step is linear over xor |
| `Crc32.TableStep` | packages/core/src/utils/zip.ts:29 | Eight shifts at once are one lookup for the low byte and a plain shift for the rest |
| `Crc32.DivideBitsIsShift` | packages/core/src/utils/zip.ts:26-32 | Dividing by message bits one by one is shifting the remainder xored with them |
| `Crc32.ComputeCrc32` | packages/core/src/utils/zip.ts:26-32 | For every byte sequence the table-driven loop is the bit-by-bit division of section 8 of RFC 1952 |
| `Crc32.PolynomialTerms` | packages/core/src/utils/zip.ts:19 | The constant is the generator polynomial of CRC-32 in ITU-T V.42 with its bits reversed |
| `ZipNames.SanitizedIsSafe` | packages/core/src/utils/zip.ts:34-40 | A sanitized name has no backslash and no empty, "." or ".." segment |
| `ZipNames.SafeIsKept` | packages/core/src/utils/zip.ts:34-40 | A safe name is left as it is |
| `ZipNames.PartsConcat` | packages/core/src/utils/zip.ts:34-40 | Either slash separates segments, and those of both sides stay in order |
| `ZipNames.SinglePart` | packages/core/src/utils/zip.ts:34-40 | A name without slashes is one segment unless it is empty, "." or ".." |
| `ZipNames.NumberedBeforeExtension` | packages/core/src/utils/zip.ts:57-63 | The number goes before the last dot, or to the end if there is no dot or only one at the beginning |
| `ZipNames.DecimalValue` | packages/core/src/utils/zip.ts:63 | The digits of a number stand for it |
| `ZipNames.NumberedIsSafe` | packages/core/src/utils/zip.ts:57-63 | Numbering a safe name gives a safe name |
| `ZipNames.FirstFree` | packages/core/src/utils/zip.ts:61-63 | The search for a number ends, at the first free one |
| `ZipNames.ChooseNames` | packages/core/src/utils/zip.ts:54-65 | Every entry gets a safe name that no earlier entry has: its own, or the first free numbered one |
| `ZipNames.AllDistinct` | packages/core/src/utils/zip.ts:54-65 | Names chosen this way are pairwise distinct and safe |
| `ZipWriter.Writer.WriteLocal` | packages/core/src/utils/zip.ts:94-111 | Exactly one local record is appended and nothing before it changes |
| `ZipWriter.Writer.WriteCentral` | packages/core/src/utils/zip.ts:115-135 | Exactly one central record is appended and nothing before it changes |
| `ZipWriter.Writer.WriteEnd` | packages/core/src/utils/zip.ts:138-145 | Exactly the end record is appended, with size and start of the directory |
| `ZipWriter.Sizes` | packages/core/src/utils/zip.ts:74-77 | The sizes added up beforehand are the lengths of what the two loops write |
| `ZipWriter.CreateZip` | packages/core/src/utils/zip.ts:50-148 | The buffer is filled exactly, with the archive of the sanitized, renamed and checksummed entries |
| `ZipRoundTrip.ReadBackIff` | packages/core/src/utils/zip.ts:93-147 | A reader that goes from the end record over the central directory to the local headers, compares both headers field by field and checks the data, recovers every name, all data and all time stamps in order if and only if the counts, name lengths, stamps and sizes fit their 16- and 32-bit fields |
| `ZipWriter.ReadCreated` | packages/core/src/utils/zip.ts:50-148 | What that reader recovers from a created archive are the data and time stamps of the entries in order, under pairwise distinct safe names |
| `BlobCodec.Marshal` | relay/internal/blob/blob.go:91-108 | Filling the header buffer field by field gives the encoding of the record |
| `BlobCodec.HeaderRoundTrip` | relay/internal/blob/blob.go:120-143 | A header parses back to its fields, negative expiries included, whatever follows it |
| `BlobCodec.RecordRoundTrip` | relay/internal/blob/blob.go:147-166 | A stored record reads back exactly when its payload is within the limit |
| `BlobCodec.EncodedInjective` | relay/internal/blob/blob.go:91-108 | Different records have different bytes on disk |
| `BlobCodec.ReadIsEncoded` | relay/internal/blob/blob.go:120-166 | Bytes that read as a record are its own encoding if and only if the flag and reserved bytes are zero |
| `RelaySpec.PutWithinIff` | relay/internal/store/fs.go:131-145 | A put succeeds if and only if the key is new, the records with the new one keep the total cap and, where the owner is known, its quota, and the writes succeed; a refusal names what adding the record would break |
| `RelaySpec.PutIsWithinWideCaps` | relay/internal/store/fs.go:148-156 | A put without caps does what one within sufficient caps does |
| `RelaySpec.SweepLeavesNoneExpired` | relay/internal/store/fs.go:326-347 | A sweep counts what has expired and keeps exactly what has not or cannot be removed; where all can be, nothing expired is left |
| `RelaySpec.GetAnswers` | relay/internal/store/fs.go:196-217 | A get answers with the record before its expiry and with an error from then on, and drops only what it finds expired |
| `RelaySpec.ExpiredIsGone` | relay/internal/store/fs.go:204 | Once a record has expired no get returns it, whatever happens short of putting it again |
| `RelaySpec.KnownStays` | relay/internal/store/fs.go:294-299 | An identity keeps its usage entry until the store is closed |
| `RelaySpec.AddedCounts` | relay/internal/store/fs.go:105-118 | Adding a record raises the total and its owner's usage by its size and leaves every other usage alone |
| `RelaySpec.RemovedCounts` | relay/internal/store/fs.go:294-299 | Removing a record is the reverse of adding it |
| `RelaySpec.TotalWithinCap` | relay/internal/store/fs.go:131-145 | In every run, restarts and failures included, the total stays within its cap |
| `RelaySpec.PutKeepsQuotaIff` | relay/internal/store/fs.go:138-140 | A stored put keeps every identity within quota if and only if its identity was known or the record alone fits |
| `RelaySpec.QuotaKept` | relay/internal/store/fs.go:131-145 | When one record always fits the quota, every run keeps every identity within it |
| `RelaySpec.FirstPutSkipsQuota` | relay/internal/store/fs.go:138-140 | A record refused for its quota while its identity is known is stored after a restart |
| `RelaySpec.RecordStays` | relay/internal/store/fs.go:131-347 | No put overwrites: a record stays unchanged until it is deleted or its expiry is noticed |
| `RelaySpec.RecordThereIff` | relay/internal/store/fs.go:196-347 | Until it is put again a record is there exactly as long as no operation deletes it or meets it after its expiry, removals that fail aside |
| `RelaySpec.PutThenGet` | relay/internal/store/fs.go:196-217 | After a put every get before expiry returns exactly that record, whatever happened in between |
| `RelayStore.FileStore.IndexEntry` | relay/internal/store/fs.go:105-118 | Index, usage and total together account for one more record |
| `RelayStore.FileStore.PutWithin` | relay/internal/store/fs.go:131-145 | The put behaves as on a map from owner and id to record, with the same refusals in the same order |
| `RelayStore.FileStore.Put` | relay/internal/store/fs.go:148-156 | The put without quota checks refuses exactly the ids that are stored |
| `RelayStore.FileStore.PutLocked` | relay/internal/store/fs.go:158-192 | The record's file appears whole or not at all, its temp file is gone, and the accounting follows |
| `RelayStore.FileStore.Get` | relay/internal/store/fs.go:196-217 | The get returns the stored record, and removes it when it has expired |
| `RelayStore.FileStore.DeleteFile` | relay/internal/store/fs.go:283-301 | File, index, usage and total lose exactly that record, or nothing when the file cannot be removed |
| `RelayStore.FileStore.UsageId` | relay/internal/store/fs.go:309-316 | Reported usage is the exact byte and record count of the identity |
| `RelayStore.FileStore.Sweep` | relay/internal/store/fs.go:326-347 | Exactly the expired records whose files can be removed go |
| `RelayStore.FileStore.LoadAll` | relay/internal/store/fs.go:59-103 | Scanning any files in any order drops leftovers and broken headers, indexes exactly the records the other headers name, and counts every file with a header in usage and total; if those files are whole records, all accounts are exact |
| `RelayHeaders.CountedAdd` | relay/internal/store/fs.go:105-118 | One more header adds its size and one record to its owner and to the total, whatever it heads |
| `RelayStore.UsageCountRightIff` | relay/internal/store/fs.go:105-118 | After opening, the count of an identity is the number of its records if and only if no two files head the same one |
| `RelayStore.OpensWholeIff` | relay/internal/store/fs.go:24-28 | What opening leaves on disk is a set of records if and only if every file with a good header is a whole record under its own name |
| `RelayStore.CutRecordIsIndexed` | relay/internal/store/fs.go:87-100 | A record cut short anywhere in its payload is indexed when the store opens, and reading it fails |
| `RelayStore.OpenAgain` | relay/internal/store/fs.go:43-57 | Closing and opening again gives the same records and the same accounting |
| `RelayStore.CrashDuringPut` | relay/internal/store/fs.go:158-192 | A crash at any moment of a put leaves files that open as the store before it or the store after it |
| `RelayStore.DiskDetermines` | relay/internal/store/fs.go:59-103 | The files on disk determine the records |
| `PublishSpec.CommitKeepsRetainedIff` | publish/internal/server/api.go:400-451 | A commit keeps every retained object stored if and only if the files of an effective deploy are stored by then |
| `PublishSpec.SweepKeepsRetained` | publish/internal/server/server.go:207-251 | A sweep never removes an object a retained deploy lists |
| `PublishSpec.RetainedInEveryRun` | publish/internal/server/server.go:207-251 | In every interleaving of uploads, sound commits, rollbacks, deletions and sweeps retained objects stay stored |
| `PublishSpec.AtomicDeploysStayStored` | publish/internal/server/api.go:351-451 | With each deploy atomic, failing ones included, every object of a retained deploy stays stored over every run |
| `PublishSpec.AbsentAtOneSurvivesNext` | publish/internal/server/server.go:230-249 | An object absent at one sweep survives the next |
| `PublishSpec.UnneededTwiceIsGoneIff` | publish/internal/server/server.go:230-249 | An object unreferenced at two consecutive sweeps is gone unless it was absent after the first and stored again in between |
| `PublishSpec.StoredSince` | publish/internal/server/server.go:230-249 | In any run an object is stored since its last upload exactly as long as no later sweep finds it both on the sweeper's list and unreferenced |
| `PublishSpec.InFlightDeploySafeIff` | publish/internal/server/server.go:187-190 | With any requests and any number of sweeps between and after its uploads, a commit leaves all retained objects stored if and only if no file of it was lost to a sweep since its last upload |
| `PublishSpec.TwoSweepsTakeNewUpload` | publish/internal/server/server.go:187-190 | A concrete deploy that loses a newly uploaded object: two sweeps before its commit |
| `PublishSpec.MarkedOrphanIsSweptMidDeploy` | publish/internal/server/server.go:187-190 | A concrete deploy that loses an object to the sweeper: the dedup hit was already marked |
| `PublishSpec.CommitKeepsCurrentIff` | publish/internal/server/api.go:440-447 | The current deploy is a retained one after a commit if and only if the number of deploys kept is not zero |
| `PublishSpec.NoneKeptLosesCurrent` | publish/internal/server/api.go:440-447 | The failure at an input: a new site and no deploys kept |
| `PublishSpec.CurrentAlwaysRetained` | publish/internal/server/api.go:440-447 | Unless the number of deploys kept is zero, the current deploy of every site is empty or retained in every run |
| `PublishSpec.FailedSiteWriteIff` | publish/internal/server/api.go:436-451 | When the site record is not written after the manifest, because that fails or a negative limit ends the request before it, retained deploys keep their manifests exactly when none had to be trimmed or every removal of theirs failed too |
| `PublishSpec.FailedSiteWriteLosesManifest` | publish/internal/server/api.go:436-451 | The failure at an input: a site with two deploys, the second of them current |
| `PublishSpec.NegativeLimitLosesManifest` | publish/internal/server/api.go:443-447 | The failure at an input: with a limit of -1 and nothing failing, a deploy removes the manifest of the only one retained |
| `PublishSpec.DeleteKeepsManifestsIff` | publish/internal/store/fs.go:171-184 | After a site deletion every deploy still listed has its manifest exactly when the record was unlinked, there was none, or none of its manifests went |
| `PublishSpec.FailedUnlinkLosesManifest` | publish/internal/store/fs.go:171-184 | The failure at an input: a site with one deploy whose record stays |
| `PublishSpec.ManifestsAlwaysThere` | publish/internal/server/api.go:436-451 | When site records are reached, written and unlinked, every retained deploy has its manifest in every run |
| `PublishHistory.SiteIsItsPast` | publish/internal/server/api.go:436-541 | In every run a site is there with exactly the deploys and the current one its operations tell: the newest deploys committed since it was created, as many as the limit allows, and the one named last |
| `PublishHistory.CurrentIsNamedLast` | publish/internal/server/api.go:440-541 | In every run the current deploy is the one named last, by a commit or an effective rollback, since the site was created |
| `PublishHistory.RollbackAndBack` | publish/internal/server/api.go:529-541 | A rollback to a retained deploy makes it current and changes nothing else; rolling back to the former one restores the node |
| `PublishHistory.ManifestIsWrittenLast` | publish/internal/server/api.go:436-439 | A manifest lists the files of the last commit that wrote it, in every run |
| `PublishHistory.ManifestsOnlyOfRetained` | publish/internal/server/api.go:443-447 | When nothing fails no manifest outlives its deploy, in every run |
| `PublishServer.Store.PutObject` | publish/internal/store/fs.go:291-330 | A duplicate is not counted twice, and index, files and total stay exact |
| `PublishServer.Store.OpenObject` | publish/internal/store/fs.go:333-348 | Whatever is served under a hash has that hash |
| `PublishServer.Store.DeleteObject` | publish/internal/store/fs.go:351-364 | The index entry and its size go even when the file cannot be removed |
| `PublishServer.Server.CollectRefs` | publish/internal/server/server.go:208-225 | The collected references are exactly the hashes the manifests of retained deploys list |
| `PublishServer.Server.SweepOrphans` | publish/internal/server/server.go:207-251 | The two loops remove what was marked and is unreferenced and mark what is seen unreferenced first |
| `PublishServer.Server.HandleDeploy` | publish/internal/server/api.go:351-459 | Uploads file by file and then commits; with any operations of others before each file and before the commit, the state is that of the specification run with the same operations, and a deploy that stops early has met a bad or unwritable file |
| `PublishServer.AloneIsHandled` | publish/internal/server/api.go:351-459 | With nothing in between the handler does what the specification says of a deploy that runs alone |
| `PublishServer.Server.CommitDeploy` | publish/internal/server/api.go:436-451 | The trimming loop removes the manifests of exactly the oldest deploys beyond the limit |
| `PublishServer.Server.HandleRollback` | publish/internal/server/api.go:518-546 | Exactly a retained deploy becomes current, if the record is written; its deploys and all other sites stay as they are |
| `PublishServer.Server.HandleDeleteSite` | publish/internal/store/fs.go:171-184 | Objects and marks stay for the sweeper, retained objects stay stored, and manifests go only together with the site record or after a failed unlink |
| `ReplaceAll.RebaseNextResult` | packages/core/src/components/shared/editor/extensions/searchAndReplace.ts:181-203 | Only the next result is overwritten, shifted by the accumulated offset |
| `ReplaceAll.ReplaceAllResults` | packages/core/src/components/shared/editor/extensions/searchAndReplace.ts:205-228 | The sequential edits with rebased offsets equal one simultaneous substitution, for any replacement length |
| `ReplaceAll.RangeAndGap` | packages/core/src/components/shared/editor/extensions/searchAndReplace.ts:205-228 | In the result each range holds the replacement at its rebased place and the gap before it is the original text |
| `ReplaceAll.LastGap` | packages/core/src/components/shared/editor/extensions/searchAndReplace.ts:205-228 | What follows the last range is the original text and nothing follows that |
| `ReplaceAll.ReplaceBack` | packages/core/src/components/shared/editor/extensions/searchAndReplace.ts:205-228 | Replacing every occurrence of a word and then those places by the word again gives the original text |

## Left out

- Cryptography and encodings: hashes, key derivation, sealing, signatures and base64 are symbolic constructors.
- Overlapping syncs of two devices: the code takes no lock across devices; in the model one sync is one step, which may stop anywhere, also between removing and putting the manifest.
- Expiry of relay blobs during sync: blobs stay until they are removed.
- The size field of manifest entries, the walk itself, the collection-path join and the filter of internal paths: a collection is a map from relative paths to files, and unreadable or oversized files are the set `skipped`.
- Names that a storage treats alike, such as repeated slashes or letter case: a path of the sync model is its own name, and on the directory tree it is a list of names.
- The formatted timestamp of a conflict copy and the DOS time stamp of a ZIP entry: both are parameters.
- The ZIP reader ignores archive comments; names are encoded by a function parameter, assumed injective where distinct names are claimed. Strings are sequences of Unicode scalar values, so unpaired surrogates do not occur.
- Keys are sorted by Unicode scalar values, not by UTF-16 units as in JavaScript; no property depends on which order it is. `withWebLock` is a browser service.
- Modification and creation times are kept in the record table but not in the directory tree; the order of a listing is not modelled, it is a set.
- Change events, stat, file reads, the path hash and the directory-name encoding of the IndexedDB backend.
- The locks of the relay and publish stores: operations run one after another. The scan and the removal phase of a publish sweep are one step.
- Machine widths of the relay's byte counters: they are unbounded integers. An envelope's 32-bit length and 64-bit expiry are modelled.
- Read errors of stored relay records, partial payload reads and listings of the relay store; the S3 backend.
- Publish quotas, rate limits, signatures, custom domains, caches and bundle extraction; a refused deploy is one whose manifest is not written. A publish store's index is not rebuilt from its files.
- The document of replace-all is flat: node boundaries and marks are not modelled, search itself neither; results are given in ascending order.
- SyncRounds.EventualConsistency: assumes serial syncs with unused conflict-copy names, as `CalmStep` says.
- SyncStuck.ConvergenceIffRoom: excepts states in which a name being deleted is itself part of a clash. There room for all names in use is enough but not needed, as `SyncMakesRoom.DeletedNameMakesRoom` shows; whether such a name goes depends on edits and on the order of the syncs, and the exact condition is not given.
