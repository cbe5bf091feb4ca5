# A verified model of the build daemon

This project models the hard parts of a build daemon and proves theorems about them in Dafny 4.11.
`dafny verify dfyconfig.toml` checks everything.

## What is modelled

**Managed sessions.** A session is initialized, serves actions and source updates, and is torn down by
whichever of stop, lifetime, idle timeout, disconnect, service exit or worker failure wins one lock.
`SessionEntries` holds the lock-protected entry as a class; each method is one critical section of the
session manager. The sections obey one law, `Lawful`: an election is final, it leaves the cleanup with whoever
had the duty already, and a caller is told to clean up exactly when that duty is its own. Only the handler of an
update worker that panicked takes a duty over. `SessionProtocol` puts the threads around the entry: initializer,
action workers and their delivery handshake, update workers, stop calls, cleanups, the durable record, the
registry and the permit. A run is any sequence of their atomic steps. `SessionInvariants` is the inductive
invariant, `SessionRuns` the theorems about every run, `SessionOutcomes` a witness schedule and the proof that a
termination can always be completed, `SessionCleanups` what a terminated session leaves behind,
`SessionProgress` what a Ready session is good for, `SessionServices` joins the cleanup steps with the service
stops behind them, and `Daemon` is the pool of build permits over all sessions.

The delivery handshake is modelled as the code has it. An acknowledged action worker that gives up instead
of retiring calls `finish_action`, whose Terminating arm checks the owner but not the action. When a later
action's termination is pending at that moment, the worker starts a cleanup that is not its own
(`StaleFinish`). Exclusive cleanup therefore holds throughout a run exactly when no step of the run is such a
stale finish, and `StaleFinishBreaksExclusivity` gives a run in which one is. Claims that depend on it carry
the premise `Punctual`; the others hold in every run.

**Source updates.** `UpdateSteps` gives the file operations of an update as functions of the world around it: which
operations fail, when cancellation is seen and how task processes relink directories between any two operations
are arbitrary. `SourceUpdates.Transaction` is the program: it backs up every target, mutates one slot at a time,
verifies the held parent directories, commits, and rolls back in reverse. Its methods are proved to take exactly
those steps, and `TransactionTheorem` says what they amount to. `QuietSteps` and `QuietUpdates` add what holds
where directories stay put: then only failing operations stand in the way. `UpdateArchive` matches the uploaded
archive against the declared changes, `UpdateStaging` says how much it can stage, `Revisions` reads revision names.

**Source archives.** `SourceTree` is the daemon's preflight, `SourceExtraction` the extraction into an empty
workspace, `SourcePackaging` the client's planner and packager. `Transfer` composes them end to end.

**Services and restart.** `Services` stops a retained service, `Reconciliation` is the startup check of the
durable records, composed with the session theorems across a restart.

**Codecs and small loops.** `Crc32` and `Png` are the framing check on captured images, `CrcDivision` ties the CRC
to polynomial division, `PngSample` is a genuine image. `ModeBits` reads modes digit by digit, `Artifacts` is the
pruned artifact walk, `OutputBudget` the output limit shared by reader threads, `ManifestFraming` the bytes fed
to the manifest hash, `LogRotation` the rotating log writer.

Some loops take ghost function parameters (`Judge`, `Summary`, `Verdict`). They stand for a specification
that one inner method settles, so that the loop is proved without unfolding it.

## Where the code and its documents differ, or a natural claim is false

- Exclusive cleanup: false in general, see above; exact condition in `CleanupIsExclusiveExactlyWhenPunctual`.
- The repository's README says an unproven supervisor reap keeps the session record. The code sets
  `cleanup_unproven` only when the monitor cannot be joined, reports nothing, or the service group was not seen
  gone; a report of an unproven reap does not set it. `StopService` follows the code.
- The output limit: forwarding stays within it in every run exactly when the limit leaves room below 2^64 for one
  chunk per other reader (`ForwardedStaysWithinLimit`). The counter wraps otherwise.
- Staged update bytes are charged at declared sizes, and every entry is held to what the sizes before it leave of
  the limit. The total staged stays within the limit, for all accepted archives with given declared sizes, exactly
  under the condition of `StagingIsBoundedExactly`; `Overfull` gives an accepted archive otherwise.
- A deletion of a successful update: its slot is empty at the end exactly when no later change of the update
  installed a file there (`ApplyUpdate`). That can happen, because the parents are verified one after the other
  (`DeletionCanBeUndone`), and cannot where directories stay put (`QuietUpdatesAreExact`). Installed files are
  always in place.
- A commit that reports failure may have reached the disk all the same, so it never counts as rolled back.

## Model

| member | source | states |
|---|---|---|
| `SessionEntries.SessionEntry.constructor` | src/sessions.rs:306-369 | a reserved session waits for its upload, with revision 0 and no success |
| `SessionEntries.SessionEntry.BeginInitialization` | src/sessions.rs:371-397 | the upload is settled: no later call starts an initializer; a started one could commit at that instant and has the cleanup duty; a cleanup falls to the requester exactly when it made the election |
| `SessionEntries.SessionEntry.CancelUpload` | src/sessions.rs:399-418 | a lost upload can never start an initializer; the requester cleans up exactly when it made the election, and any earlier election stands |
| `SessionEntries.SessionEntry.CheckCommit` | src/sessions.rs:507-523 | permission leaves the entry alone and an immediate election would succeed; a refusal is final, and an initialization refused leaves its cleanup to the initializer |
| `SessionEntries.SessionEntry.CommitFailed` | src/sessions.rs:533-546 | after a failed record write no election can succeed, and the initializer finds the cleanup its own unless somebody else ended the session |
| `SessionEntries.SessionEntry.ElectCommit` | src/sessions.rs:574-610 | Ready admits an action or the first update at once and cannot be elected again; a lost election is final and leaves an initialization to the initializer |
| `SessionEntries.SessionEntry.InitializerCleanup` | src/sessions.rs:1624-1648 | once started, the initializer is told to clean up exactly when the duty is its own, with the elected flag; afterwards the session cannot become Ready |
| `SessionEntries.SessionEntry.ServiceFailed` | src/sessions.rs:754-803 | a dead service ends every live session; once initialization has started the cleanup stays with whoever worked for it; nothing is admitted afterwards |
| `SessionEntries.SessionEntry.Disconnect` | src/sessions.rs:805-841 | a lost start stream ends an initialization and no other state; the requester cleans up exactly when no initializer had started |
| `SessionEntries.SessionEntry.StartUpdate` | src/sessions.rs:872-933 | an admitted update excludes every other operation and can commit until the deadline; a refusal changes nothing; after a revision conflict the reported revision is admitted |
| `SessionEntries.SessionEntry.CloseUpdate` | src/sessions.rs:1037-1101 | after a commit the same request is answered by the cached success, the same id with another digest conflicts, and exactly base plus one is the next base; the worker cleans up exactly when the duty is its own |
| `SessionEntries.SessionEntry.FailUpdate` | src/sessions.rs:1103-1141 | revision and cached success stay; the active update returns to Ready exactly by a proven rollback, and Ready admits the same base again; otherwise the worker cleans up exactly when the duty is its own |
| `SessionEntries.SessionEntry.UpdatePanicked` | src/sessions.rs:1143-1167 | the handler takes over the cleanup exactly when the duty was the update worker's, and no close of a dead worker can claim it again |
| `SessionEntries.SessionEntry.StartAction` | src/sessions.rs:1169-1232 | an admitted action excludes every other operation and its delivery can be acknowledged exactly until the deadline; a refusal changes nothing |
| `SessionEntries.SessionEntry.FinishAction` | src/sessions.rs:1459-1490 | an action ends only by its own number; the worker cleans up exactly when the duty is an action worker's, with the elected flag; revisions stay |
| `SessionEntries.SessionEntry.AcknowledgeDelivery` | src/sessions.rs:1492-1528 | an accepted delivery admits the next action at once and is accepted only once; a refused one leaves the cleanup to the action's worker |
| `SessionEntries.SessionEntry.DisconnectAction` | src/sessions.rs:1530-1550 | a dropped stream ends only its own action, can no longer be acknowledged, and leaves the cleanup to the worker |
| `SessionEntries.SessionEntry.Stop` | src/sessions.rs:1552-1622 | a stop is refused exactly when the session was over; it makes the explicit election, the requester cleans up exactly when nobody worked, and every later stop, action or update is refused |
| `SessionEntries.SessionEntry.ExpireLifetime` | src/sessions.rs:1797-1850 | the lifetime ends every live session, leaves the cleanup with whoever worked for it, and nothing is admitted afterwards |
| `SessionEntries.SessionEntry.ExpireIdle` | src/sessions.rs:1852-1870 | only a Ready session expires by idleness; then the requester cleans up and nothing is admitted, otherwise nothing changes |
| `SessionEntries.SessionEntry.Finish` | src/sessions.rs:1726-1741 | whatever lawful section comes later keeps the published response and demands no cleanup; stops and operations are refused |
| `SessionRuns.CoreAlways` | src/sessions.rs:306-1741 | the core invariant holds after every prefix of every run |
| `SessionRuns.InvWhilePunctual` | src/sessions.rs:306-1741 | the full invariant holds up to the first stale finish |
| `SessionRuns.CleanupIsExclusiveExactlyWhenPunctual` | src/sessions.rs:1459-1490 | at most one cleanup and nobody working beside it throughout a run, if and only if no step is a stale finish |
| `SessionRuns.StaleFinishOverlaps` | src/sessions.rs:1483-1487 | every stale finish starts a cleanup beside a worker or a second cleanup |
| `SessionRuns.ExactlyOneOwner` | src/sessions.rs:173-205 | while a termination is pending exactly one party is outstanding, and it is the elected owner |
| `SessionRuns.NeverRevives` | src/sessions.rs:1552-1741 | once termination is elected no later step brings a live state back or changes the election |
| `SessionRuns.WinnerWasElected` | src/sessions.rs:1552-1622 | the recorded winner of a stop made the election itself |
| `SessionRuns.OneStopSucceeds` | src/sessions.rs:1552-1622 | at most one stop call ever returns success, and it made the election |
| `SessionRuns.CleanupUsesElectedFlag` | src/sessions.rs:1650-1709 | every cleanup gets the elected explicit flag, and final artifacts are collected only for an explicit election |
| `SessionRuns.LiveIsInOrder` | src/sessions.rs:371-1550 | a live session satisfies the full invariant in every run, stale finishes included |
| `SessionRuns.CleanupFollowsDuty` | src/sessions.rs:371-1741 | in every run a session that ends leaves the cleanup with whoever worked for it, or with the handler of a panicked update; a cleanup is started only by the party with that duty, by a requester only with its own election |
| `SessionRuns.RevisionsFormAChain` | src/sessions.rs:872-1094 | successes have bases 0, 1, 2, ...; in Ready and Action the durable revision is the one in memory |
| `SessionRuns.ExactRetryChangesNothing` | src/sessions.rs:872-933 | retrying the latest success changes no state and reports it again |
| `SessionRuns.JobWasAdmitted` | src/sessions.rs:872-1035 | every update worker was admitted by some step, from the files it remembers |
| `SessionRuns.FailedUpdateLeavesFilesAlone` | src/sessions.rs:1103-1141 | an update that fails back to Ready leaves files, revision and record as at its admission |
| `SessionRuns.RecordOutlivesServices` | src/sessions.rs:1650-1731 | a session that reached Ready loses its record only after a cleanup counted every retained service as gone |
| `SessionServices.StopServices` | src/sessions.rs:1655-1667 | stopping the services from the last on is a run of stopping steps, and ends unproven exactly when some service was not proven gone |
| `SessionServices.ServicesStayDistinct` | src/sessions.rs:1655-1667 | in every run no two services of a session share a name |
| `SessionServices.RemovedRecordMeansGroupsGone` | src/sessions.rs:1650-1731 | with stopping steps that report what their stops prove, a removed record means that every retained service's process group was probed and found gone |
| `SessionCleanups.TerminatedLeavesNothing` | src/sessions.rs:1650-1741 | in every punctual run whose cleanup steps go well a terminated session has neither workspace nor record, its teardown ran exactly once, artifacts were collected exactly when a stop made the election, and every returned stop call says so |
| `SessionCleanups.StopCallsReturn` | src/sessions.rs:1552-1622 | in every punctual run, once the session is terminated every stop call that was not refused has the published response or gets it by its next step |
| `SessionCleanups.LiveKeepsWorkspace` | src/sessions.rs:1650-1741 | in every punctual run a live session has its workspace and nothing was torn down |
| `SessionProgress.UpdatesComplete` | src/sessions.rs:872-1141 | in every run a Ready session admits a new request on its revision; success makes it Ready at the next revision with the new files and record, a proven rollback makes it Ready with everything as before |
| `SessionProgress.ActionsComplete` | src/sessions.rs:1169-1528 | in every run a Ready session admits an action whose acknowledged delivery makes it Ready again and changes nothing else |
| `SessionProgress.IdleExpiryIsExact` | src/sessions.rs:1852-1870 | in every run the idle timer ends a live session exactly when it has been Ready that long, counted from the commit, acknowledgement or close that made it so |
| `SessionProgress.TriggersEndSessions` | src/sessions.rs:754-841 | in every run a live session is ended by its lifetime, by a service failure exactly when a service was spawned, and by a disconnect exactly while it initializes |
| `SessionProgress.StopEndsSession` | src/sessions.rs:1552-1622 | in every run a new stop call on a live session makes the explicit election and cleans up or waits, depending on who works |
| `SessionOutcomes.StaleFinishBreaksExclusivity` | src/sessions.rs:1409-1490 | a run with two cleanups, in which the record is removed while a retained service is not known to be gone |
| `SessionOutcomes.DrainTermination` | src/sessions.rs:1624-1741 | the elected owner can always complete a pending termination by its own steps, with no panic and no I/O error; if nothing had gone wrong before, neither workspace nor record is left |
| `SessionOutcomes.EveryRunCanBeDrained` | src/sessions.rs:306-1741 | every punctual run extends, with no panic and no I/O error, to one in which the session is terminated and its permit given back, and unless an earlier cleanup step failed, workspace and record are removed, teardown ran once and artifacts follow the election |
| `Daemon.PermitsAreConserved` | src/http.rs:587-606 | builds plus registered sessions never exceed the limit, registered sessions hold permits, a terminated one gave back exactly one |
| `Daemon.AdmissionIsExact` | src/http.rs:587-606 | in every run a build or a new session is admitted exactly while fewer than the limit are there |
| `Daemon.EverySessionKeepsOrder` | src/sessions.rs:306-369 | in every daemon run each session has its chain of revisions and at most one successful stop |
| `SourceUpdates.Transaction.constructor` | src/source_updates.rs:336-354 | a transaction starts with nothing held or mutated |
| `QuietSteps.OpenedParentWalks` | src/source_updates.rs:531-560 | opening a parent one component at a time finds what one walk of the tree finds, as long as directories stay put and no opening fails |
| `SourceUpdates.Transaction.InspectTarget` | src/source_updates.rs:562-587 | a target is reported as the regular file it is, absent, or neither |
| `SourceUpdates.Transaction.AtomicCopyAt` | src/source_updates.rs:746-802 | success replaces exactly one file; failure leaves it replaced or untouched; every other file keeps its inode |
| `SourceUpdates.Transaction.UnlinkFileAt` | src/source_updates.rs:804-809 | success removes exactly one file; failure leaves it removed or untouched; every other file keeps its inode |
| `SourceUpdates.Transaction.BackUp` | src/source_updates.rs:367-422 | a backup holds inode, contents, owner, group and nine mode bits of the file at the slot the path led to, or its absence there; a missing parent fails; no file changes |
| `SourceUpdates.Transaction.ValidateTargetAt` | src/source_updates.rs:608-627 | a validated slot still holds the very file that was backed up, or is still empty |
| `SourceUpdates.Transaction.MutateAll` | src/source_updates.rs:424-457 | after every step the history can be undone; success means every installed file is still in its own slot, which no later change went to |
| `SourceUpdates.Transaction.VerifyParents` | src/source_updates.rs:629-645 | succeeds exactly when every declared parent, opened in turn while others relink, is found to be the held one; no file changes |
| `SourceUpdates.VerificationRefindsAll` | src/source_updates.rs:629-645 | the verifying loop says yes exactly when there is such a sequence of findings |
| `SourceUpdates.Transaction.MutateAndCommit` | src/source_updates.rs:424-474 | the commit runs at most once, last, and a failed commit is never called proven; success leaves every change in place, failure what a rollback can undo |
| `SourceUpdates.Transaction.Rollback` | src/source_updates.rs:675-712 | a successful reverse rollback restores the whole file view from before the first mutation; where directories stay put and the held slots are files or empty it succeeds exactly when none of its operations fails |
| `SourceUpdates.Transaction.ApplyUpdate` | src/source_updates.rs:336-502 | success: every installed file is in its own slot, a deleted slot is empty exactly when no later change took it, all else untouched, parents found again, one commit, true evidence; proven failure: all files as before and no commit |
| `SourceUpdates.TransactionTheorem` | src/source_updates.rs:336-502 | the same of every transaction, whatever fails, whenever it is cancelled and however directories are relinked; where they stay put, an error before the commit is a proven one unless an operation of the rollback failed |
| `SourceUpdates.RollbackRestores` | src/source_updates.rs:675-712 | a rollback that succeeds, after any undoable history, its last step half done or not, gives back the first file view |
| `QuietSteps.RollbackIsExact` | src/source_updates.rs:675-712 | where directories stay put and the held slots are files or empty, a rollback succeeds exactly when none of its operations fails |
| `SourceUpdates.QuietTransactionsTurnBack` | src/source_updates.rs:424-502 | where directories stay put, an error before the commit is proven rolled back exactly when no operation failed from that error on |
| `SourceUpdates.SeparateChangesInPlace` | src/source_updates.rs:424-457 | changes that never go to an earlier installed slot leave every installed file in place, and a deletion in force exactly when its slot was not taken again |
| `UpdateWitness.DeletionCanBeUndone` | src/source_updates.rs:424-474 | a successful update with both parents verified after which the slot of its deleted file holds a file again |
| `QuietUpdates.QuietUpdatesAreExact` | src/source_updates.rs:336-502 | where task processes leave directories alone, distinct paths get distinct slots and every deletion of a successful update is in force |
| `QuietUpdates.CalmUpdatesSucceedExactly` | src/source_updates.rs:336-502 | where directories stay put, nothing fails and nobody cancels, an update succeeds if and only if every path leads to a regular file without execute bits or to a free place for a new one, and the changes go to those places |
| `SourceUpdates.RestoreUndoes` | src/source_updates.rs:675-712 | restoring a slot from its backup undoes whatever the step did there |
| `SourceUpdates.TransactionsAreAdmissible` | src/sessions.rs:1018-1036 | every transaction outcome is one the session protocol relies on |
| `SourceUpdates.OthersUntouched` | src/source_updates.rs:424-457 | slots no change names keep their files |
| `SourceUpdates.StagesTellOutcome` | src/source_updates.rs:484-501 | the reported hashes of deleted files are those of what each slot held right before |
| `SourceUpdates.Gather` | src/source_updates.rs:484-501 | evidence lists changed and deleted files in request order; no deleted target lacks a hash |
| `WorkspaceFiles.OnePathPerDirectory` | src/source_updates.rs:531-560 | in a directory tree two paths never lead to the same directory |
| `WorkspaceFiles.KeptFilesLookTheSame` | src/source_updates.rs:629-645 | relinking directories without touching regular files keeps the file view |
| `UpdateArchive.ParseChanges` | src/protocol.rs:166-199 | accepts exactly nonempty lists within the limit of valid changes with paths distinct under case folding |
| `UpdateArchive.UpdatePathRule` | src/protocol.rs:213-238 | an update path is accepted exactly when a source archive could hold it and it lies outside the daemon's directories under any case |
| `UpdateArchive.DigestsAreHex` | src/protocol.rs:184-195 | the digests accepted are exactly the lower-case hexadecimal forms of 32 bytes |
| `UpdateArchive.StageEntries` | src/source_updates.rs:190-272 | accepts exactly the entries that pass one by one, and remembers where each was staged |
| `UpdateArchive.PairUp` | src/source_updates.rs:274-290 | taking a staged file for a declared change never fails, and every change gets the entry of its name and digest |
| `UpdateArchive.PrepareArchive` | src/source_updates.rs:160-291 | succeeds if and only if archive and declarations fit, and pairs them in request order |
| `UpdateArchive.EveryDeclaredFileIsThere` | src/source_updates.rs:184-212 | by counting, an accepted archive holds exactly the declared files |
| `UpdateArchive.EntriesAreAllUsed` | src/source_updates.rs:184-290 | each entry is declared by exactly one file change |
| `ModeBits.UpdatableEntries` | src/source_updates.rs:210-222 | by octal digits: regular files without any execute bit |
| `ModeBits.ExecutableTargets` | src/source_updates.rs:367-422 | by octal digits: a target is executable by any of its three execute bits |
| `ModeBits.AcceptedKinds` | src/build.rs:1669-1696 | by octal digits: the file type is absent or the entry's own |
| `ModeBits.ExtractedPermissions` | src/build.rs:1424-1503 | by octal digits: exactly the nine permission bits are kept |
| `UpdateStaging.HonestSizesBoundStaging` | src/source_updates.rs:223-256 | staged bytes stay within the declared total where no entry yields more than it declares |
| `UpdateStaging.StagedWithinRoom` | src/source_updates.rs:223-256 | an accepted archive stages no more than the sum, over its entries, of what the sizes declared before each leave of the limit |
| `UpdateStaging.FullestFillsRoom` | src/source_updates.rs:223-256 | some archive with the given declared sizes stages exactly that much |
| `UpdateStaging.Overfull` | src/source_updates.rs:160-291 | for sizes that do not suffice, a request and an archive that are both accepted and stage more than the limit |
| `UpdateStaging.StagingIsBoundedExactly` | src/source_updates.rs:160-291 | all accepted archives with given declared sizes stay within the limit if and only if there is no entry, or the limit is below the largest 64-bit number and there is one entry, the first declares the whole limit, or the sizes are refused |
| `Revisions.ParseRevision` | src/protocol.rs:201-211 | reads exactly the written form of a 64-bit revision and gives back its number |
| `Revisions.ParseU64` | src/protocol.rs:209-209 | a digit string is read to its value, or refused on overflow |
| `Revisions.DecimalIsCanonical` | src/protocol.rs:201-211 | a written number is canonical and reads back |
| `Revisions.CanonicalIsDecimal` | src/protocol.rs:201-211 | a canonical digit string is what its value is written as |
| `SourceTree.ValidateSymlinkTarget` | src/client_source.rs:1370-1402 | the depth counter accepts exactly the targets that resolve lexically without leaving the root |
| `SourceTree.EveryPathCanBeLinked` | src/client_source.rs:1370-1402 | from any link the way up to the root and down to any path in it resolves to that path and is accepted |
| `SourceTree.NormalizedPath` | src/build.rs:1625-1667 | a name is accepted exactly when plain ASCII with plain components within the depth limit; a directory loses exactly the slashes at its end |
| `SourceTree.EndSlashIsIgnored` | src/build.rs:1632-1636 | a slash added to a directory name changes nothing |
| `SourceTree.NameWithoutSlash` | src/build.rs:1632-1636 | without one a directory name is read like a file name |
| `SourceTree.DirectorySlashes` | src/build.rs:1507-1623 | the verdict on an archive does not depend on how a directory entry is written |
| `Paths.FoldsAlike` | src/build.rs:1551-1616 | two names fold alike exactly when they agree up to ASCII case |
| `SourcePackaging.PortablePathsAreAccepted` | src/build.rs:1625-1667 | paths of letters, digits, hyphens and underscores are accepted by client and daemon, up to depth and length |
| `SourceTree.ClaimAncestors` | src/build.rs:1557-1573 | the component walk fails exactly when a folded ancestor is a file, and notes exactly the folded ancestors |
| `SourceTree.ClaimPath` | src/build.rs:1551-1616 | the six sets decide exactly whether a path fits beside the earlier ones |
| `SourceTree.Preflight` | src/build.rs:1507-1623 | accepts if and only if entries are individually valid, pairwise without collision, and within count and declared size |
| `SourceTree.PreflightIgnoresOrder` | src/build.rs:1507-1623 | the verdict does not depend on the order of entries |
| `SourceTree.FitsMeansNoCollision` | src/build.rs:1551-1616 | the set checks mean no collision with any earlier entry, in either direction |
| `SourceExtraction.Workspace.CreateDirAll` | src/build.rs:1432-1446 | directories are created exactly when nothing else is in the way |
| `SourceExtraction.Workspace.WriteEntry` | src/build.rs:1424-1503 | an accepted entry meets no existing file and no non-directory ancestor, and extends the tree by itself |
| `SourceExtraction.Workspace.Extract` | src/build.rs:1391-1505 | succeeds if and only if the archive is acceptable and actual sizes fit, and leaves exactly the described tree |
| `SourceExtraction.TreeIsUnique` | src/build.rs:1424-1503 | the described tree is unique and independent of entry order, folding or not |
| `SourceExtraction.EveryNodeCanBeArchived` | src/build.rs:1424-1503 | whatever directory, file or link a tree may hold, some accepted entry is extracted to exactly it |
| `SourceExtraction.CopyData` | src/build.rs:1478-1496 | the chunked copy is complete exactly when the running size stays within the limit |
| `SourcePackaging.ClientPathRule` | src/client_source.rs:1343-1368 | the client's path rule is the daemon's plus length and version-control names |
| `SourcePackaging.MeetAncestors` | src/client_source.rs:1315-1331 | the planner's own ancestor walk fails exactly when a folded ancestor is a file, and notes exactly the folded ancestors |
| `SourcePackaging.MeetPath` | src/client_source.rs:1307-1339 | the planner's four sets decide exactly whether a path collides with an earlier one |
| `SourcePackaging.ValidatePlan` | src/client_source.rs:1298-1341 | sorts the plan in place and accepts exactly valid plans without collisions, whatever the initial order |
| `SourcePackaging.FirstDifferenceDecides` | src/client_source.rs:1302-1302 | the order sorted by is the byte order: the first difference decides, else the shorter comes first |
| `SourcePackaging.PlanIgnoresOrder` | src/client_source.rs:1298-1341 | the planner's verdict does not depend on the order |
| `SourcePackaging.Package` | src/client_source.rs:1099-1194 | packaging succeeds exactly when link targets are valid and the total fits, and archives the plan in order |
| `SourcePackaging.OnlyLimitsReject` | src/build.rs:1507-1623 | the daemon rejects a client package only for its three limits |
| `SourcePackaging.Transfer` | src/client_source.rs:1092-1194 | plan, package, preflight and extract, each by its own loop, leave exactly the planned files, links and modes, folding or not, and fail only for what the client or the limits refuse |
| `Services.TerminateGroup` | src/services.rs:1044-1077 | succeeds exactly when the first probe that does not find the group finds it gone, within the polls that delivered signals allow |
| `Services.StopService` | src/services.rs:588-651 | unproven exactly when the monitor was not joined, did not report, or the group was not seen gone |
| `Reconciliation.Storage.AwaitShutdown` | src/sessions.rs:1974-2004 | succeeds exactly when no recorded supervisor, leader or group is live |
| `Reconciliation.Storage.Reconcile` | src/sessions.rs:1898-1972 | startup succeeds exactly when no valid record names a live process; such a record keeps its files; success leaves no removable record or workspace |
| `Reconciliation.SurvivorBlocksStartup` | src/sessions.rs:1650-2004 | a service not seen gone leaves a record that makes the next startup fail while it lives |
| `Crc32.BuildTable` | src/host_observation.rs:426-440 | each table entry is eight register steps of its index |
| `Crc32.ComputeCrc` | src/host_observation.rs:441-447 | the table-driven loop computes the bit-serial CRC-32 of RFC 2083 section 3.4 |
| `CrcDivision.CrcIsRemainder` | src/host_observation.rs:426-447 | the complemented CRC is the remainder of the preset message divided by the generator polynomial, given by its exponents |
| `CrcDivision.PolynomialIsGenerator` | src/host_observation.rs:433-433 | the constant is that generator, reflected and without its highest term |
| `Crc32.StepIsLinear` | src/host_observation.rs:433-433 | a register step is linear over exclusive or |
| `Crc32.StepIsInjective` | src/host_observation.rs:433-433 | a register step can be undone |
| `Crc32.TableStep` | src/host_observation.rs:441-447 | one look-up does the work of eight steps |
| `Crc32.BurstChangesCrc` | src/host_observation.rs:441-447 | any change confined to four consecutive bytes changes the CRC |
| `Png.CheckHeader` | src/host_observation.rs:382-407 | accepts exactly the IHDR chunks with supported depth, colour, flags and dimensions |
| `Png.NextChunk` | src/host_observation.rs:367-381 | reads exactly the complete chunks with a right CRC |
| `Png.ValidateChunks` | src/host_observation.rs:364-423 | the loop accepts exactly what chunk-by-chunk reading accepts |
| `Png.ValidatePng` | src/host_observation.rs:359-424 | accepts if and only if the bytes are the signature and the encoding of a well-formed image |
| `PngSample.SampleIsAccepted` | src/host_observation.rs:359-447 | a genuine one-pixel image, given byte by byte with its CRCs, is accepted |
| `PngSample.ImagesEndAlike` | src/host_observation.rs:359-447 | every accepted image begins with the signature and ends with the same twelve bytes, the final CRC included |
| `Png.AcceptedIsImage` | src/host_observation.rs:359-424 | accepted bytes parse to chunks that encode back to them |
| `Png.ImagesAreAccepted` | src/host_observation.rs:359-424 | the encoding of any well-formed image is accepted |
| `Png.ReadFrame` | src/host_observation.rs:367-381 | a frame is read back exactly when its CRC field is the CRC of its body |
| `Png.UntamperedIsImage` | src/host_observation.rs:359-424 | writing back a chunk's own body and CRC gives the image again |
| `Png.BodyDamageIsRejected` | src/host_observation.rs:359-447 | changing up to four consecutive bytes of a chunk's type and payload makes the image rejected |
| `Png.CrcDamageIsRejected` | src/host_observation.rs:359-447 | changing a chunk's CRC field makes the image rejected |
| `Artifacts.PatternPrefix` | src/artifacts.rs:463-484 | the literal prefix of a pattern, component by component |
| `Artifacts.MatchIsUnderPrefix` | src/artifacts.rs:463-484 | whatever a pattern matches lies under its literal prefix |
| `Artifacts.Minimal` | src/artifacts.rs:486-494 | the kept prefixes are an antichain of the given ones and cover them all |
| `Artifacts.MinimalPassesTheSame` | src/artifacts.rs:150-158 | dropping covered prefixes does not change the filter |
| `Artifacts.WalkPrefixes` | src/artifacts.rs:463-495 | every included path passes the filter with all its ancestors |
| `Artifacts.PrunedWalkSelectsTheSame` | src/artifacts.rs:145-181 | a pruned walk selects the same files in the same order as a full one |
| `Artifacts.WalkFindsLeaves` | src/artifacts.rs:145-189 | a walk finds exactly the leaves that going down name by name ends at |
| `Artifacts.IsIncluded` | src/artifacts.rs:572-578 | the nested search over patterns and ancestors decides inclusion |
| `Artifacts.IncludedThroughParent` | src/artifacts.rs:572-578 | a path is included exactly when a pattern matches it or its parent is included |
| `Artifacts.Collect` | src/artifacts.rs:145-189 | a path is returned exactly when it is a regular file of the tree, included and not excluded; the collector fails exactly when something else is |
| `Artifacts.TokenMatchingStartsLiterally` | src/artifacts.rs:572-578 | glob matching by tokens has the one property the walk relies on |
| `OutputBudget.RunKeepsSound` | src/build.rs:2037-2072 | in every interleaving, bytes forwarded and held stay within the limit and the true count, with one chunk of overshoot per stopped reader |
| `OutputBudget.ForwardedStaysWithinLimit` | src/build.rs:386-441 | forwarding stays within the limit in all runs if and only if the limit leaves room for the overshoot below 2^64 |
| `OutputBudget.CounterOvershoot` | src/build.rs:2037-2072 | the bytes counted exceed the limit by at most one chunk per reader |
| `OutputBudget.ExceededTellsTheTruth` | src/build.rs:2051-2057 | in every run the limit was passed exactly when that is flagged or a reader is about to flag it, and the flag comes with cancellation |
| `OutputBudget.WrappingRun` | src/build.rs:2051-2057 | without that room, a run that forwards more than the limit |
| `ManifestFraming.UpdateAggregate` | src/client_source.rs:1468-1483 | appends exactly the frame of one entry |
| `ManifestFraming.Aggregate` | src/client_source.rs:729-775 | the hash input is the concatenation of the frames in order |
| `ManifestFraming.FramesAreInjective` | src/client_source.rs:1468-1483 | different entry lists never produce the same hash input |
| `LogRotation.RotatingFileWriter.constructor` | src/logging/mod.rs:292-308 | an existing base file is appended to, and its size counted |
| `LogRotation.RotatingFileWriter.Rotate` | src/logging/mod.rs:310-339 | every file moves up one place, gaps included, and the base file is empty |
| `LogRotation.RotatingFileWriter.Write` | src/logging/mod.rs:349-358 | a write rotates exactly when a nonempty file would grow past the limit, then appends |
| `LogRotation.RotationDropsOldest` | src/logging/mod.rs:310-339 | a rotation loses the oldest file at most, and only when the place below was taken |
| `LogRotation.LogIsRecentHistory` | src/logging/mod.rs:310-358 | in every run the log reads as a suffix of the earlier contents plus everything written, in order |
| `LogRotation.RunSizes` | src/logging/mod.rs:310-358 | from any files: those the writer begins stay within the limit or the longest write and would not have fitted into the file before; the base file it found only grows, within the same bound; older files are as found and nothing past the last place is touched |
| `LogRotation.FreshLogSizes` | src/logging/mod.rs:310-358 | a log begun by the writer is bounded and packed as a whole, with at most the configured number of rotated files |

## Left out

- HTTP routing, multipart reading, TLS, bearer tokens and credentials; only stream, acknowledgement and permit events are modelled.
- Process spawning, privilege drop, signals and pipes: a process is what probes and workers report about it.
- ZIP, JSON and SHA-256 are libraries: an archive is a list of entries, a request its fields, a hash a function. Glob matching is a parameter with one required property, which matching by tokens is proved to have.
- Wall clocks: times are numbers given to each step, and polling loops count polls.
- Session runs: task processes write no regular files while an update is outstanding, and panics are modelled only for update workers before they close; the source does not enforce the former.
- Session runs: entry fields with locks of their own change together with the step that changes them.
- `SourceUpdates.Transaction`: task processes may relink directories and links but leave regular files alone, temporary names are fresh, and inode numbers are not reused. The staging copies made before the first mutation are not modelled.
- `SourceUpdates.Transaction.Rollback`: set-id and sticky bits of a replaced file are not restored, because backups keep nine mode bits.
- `SourceTree.ValidateSymlinkTarget`: lexical; nothing is claimed about chains of links.
- `SourceExtraction.Workspace.CreateDirAll`: a symbolic link on the way counts as an obstacle, also one to a directory, which the source would follow; an accepted archive has none there.
- `SourceExtraction.Workspace.Extract`: no I/O errors, no cancellation, and directory modes do not hinder later entries.
- `SourcePackaging.Package`: the checks that a source file did not change while it was read are not modelled; neither is the Jujutsu subprocess.
- `UpdateArchive.PrepareArchive`: does not distinguish the kinds of refusal, and leaves out the include and exclude policy.
- `Services.StopService`: the supervisor's own reaping is a report, not a process.
- `Artifacts.Collect`: traversal limits, the re-opening of matched files, restricted patterns and the archive itself.
- `LogRotation.RotatingFileWriter.Write`: no I/O errors and no 64-bit overflow of the size.
- `ManifestFraming.FramesAreInjective`: says nothing about SHA-256 beyond its input.
- Host observation beyond the PNG check, user lookup, request validation predicates and the command-line programs, which would add only easy members.
