# Filebeam: a verified model of its transactional core

Dafny models of the parts of Filebeam whose correctness depends on the order of steps: the self-updater
and its recovery, the activity gate between updates and workers, release selection, removal and archiving
of transfers, staged uploads, the credentials file for database backups, the appearance save queue, the
desktop client's export and notifications, range responses, and the command-line editor.

`dafny verify dfyconfig.toml` checks everything. One module per component; `Strings`, `Decimals` and `Options` are shared.

| modules | component |
|---|---|
| `Paths`, `InstallTree`, `Installation` | `updater/Updater.php`: safe paths, replacement and recovery of the install tree, step by step and as the source's loops |
| `UpdateProtocol`, `UpdateRuns`, `UpdateHistory` | the update as a write-ahead protocol among any number of processes that may die between any two steps, what it can bring about, and the versions it commits |
| `ActivityGate`, `GateRefinement` | `updater/ActivityLock.php` and the queue hooks: hand-over of shared lock handles, and why the update protocol may count readers instead |
| `Semver`, `Precedence`, `Releases` | version parser, precedence, and the two release selectors |
| `TransferRemoval`, `HistoryPaging`, `StageLeases` | deletion jobs, account deletion, archiving, keyset paging, copies in flight, staged uploads |
| `Passfile` | the libpq password file of `updater/PostgresBackup.php` |
| `SaveQueue` | `appearance.js` with the server that answers it |
| `ExportFiles`, `Messages` | desktop export and notifications |
| `ByteRange` | range responses over replicated chunks |
| `Editor` | the text input of the command-line client |

State machines are functions or relations over explicit states; a run is any sequence of events. Code that
changes state in place is a class whose methods are proved against those functions. Failures are parameters:
`limit` is the number of operations that succeed before one fails, and sets such as `busy` or `stuck` name what
fails. File operations and journal writes are single atomic steps.

## What the code does not do as promised

Each of these is a theorem that says exactly when the promise holds, or a concrete input on which it fails.

- Rollback restores the old package at every stopping point if and only if no path that only the new manifest
  lists exists beforehand and every unprotected path in both manifests does
  (`InstallTree.CrashThenRecoverExactly`). Recovery unlinks such a path even under a protected name such as
  `backend/.env`, which replacement itself would have skipped (`InstallTree.RecoveryUnlinksExistingFile`). The
  updater checks neither condition, and the protocol is proved without them: only what it says about recovered code
  asks for them.
- The TAG argument of the updater is promised to install that release. One that does not parse is not refused: the
  newest stable release is taken instead (`Releases.TagIsHonouredExactly`).
- A version is compared as section 11 of Semantic Versioning 2.0.0 asks, against every other version, exactly if all
  its numbers are below 2^63 - 1 and none of its pre-release words is a number to PHP
  (`Precedence.MeetsEverywhereExactly`, `Precedence.MeetsInOrderExactly`); under the same condition and no other
  a tie means the same version (`Precedence.TiesExactly`, `Precedence.DifferentVersionsTie`). Two versions within the
  integer range are compared otherwise exactly if they are out of order: the first words in which they differ are numbers to PHP, and the one that
  comes first as text is not the smaller number (`Precedence.CompareInRange`).
- The order is not even transitive (`Precedence.NumericWordsMakeACycle`). Between two versions it is, through every
  other that is in order with both, exactly if the two are in order (`Precedence.TransitiveExactly`). So updates, each
  to a newer version, can end where they began (`UpdateHistory.UpdatesCanGoInACircle` is a run that does). Over all
  runs that commit any of some given versions, and besides them versions that are in order with the rest, the committed
  versions increase exactly if no two of the given ones are out of order (`UpdateHistory.HistoriesIncreaseExactly`).
- The application and the updater do not always agree on the next release. What an update goes on with is always what
  is offered; but what is offered can be installed exactly if no entry whose package is not an array is newer, or as new
  and listed earlier, and `requirements()` accepts it (`Releases.UpdatesAgreeExactly`). Such an entry is selected in its
  place and then refused (`Releases.ScalarHidesOffer`).
- The port pattern for backups accepts a trailing newline, and a host that starts with `#` is accepted too: the
  password file reads back exactly when neither occurs (`Passfile.FileReadsBackExactly`,
  `Passfile.PortWithNewlineIsAccepted`).
- A page rendered before a save and applied after it hides the newer preference
  (`SaveQueue.StalePageExactly`, `SaveQueue.StalePageHidesSave`), and a request that was given up can still
  change the stored one (`SaveQueue.LateRequestExactly`, `SaveQueue.LateRequestUndoesSave`).
- An export whose sources share a base name reports success but keeps only the last of them
  (`ExportFiles.EveryContentExactly`, `ExportFiles.EveryFileExactly`, `ExportFiles.SecondNameReplacesFirst`).
- An error notification is lost exactly when 256 newer errors arrive before the next poll
  (`Messages.ShownExactly`, `Messages.BurstHidesMessage`).
- Section 14.2 of RFC 9110 asks that a Range header with an unknown unit be ignored. Every one is refused
  (`ByteRange.UnknownUnitsAreRefused`). And although section 14.1 makes units
  case-insensitive, only the lower-case spelling is recognised (`ByteRange.CapitalUnitsAreRefused`,
  `ByteRange.CapitalUnitExample`).
- The sweep of the staging directory reads the age of a file before it takes the lock and looks for the row. It unlinks
  only files without a stage while no upload identifier is begun twice (`StageLeases.SweepTakesOrphansOnly`,
  `StageLeases.LiveStagesKeepTheirFiles`); begun again between the two, a live stage loses its new file
  (`StageLeases.SweepTakesReusedFile`).

## Model

| member | source | states |
|---|---|---|
| Paths.SafePathsNeverAlias | updater/Updater.php:828-833 | accepted paths resolve inside the tree, outside the updater's directory, and two of them to the same file only if they are equal |
| Paths.SafePathExactly | updater/Updater.php:828-833 | a path is accepted exactly if the kernel follows each of its segments downwards, it has no NUL or backslash, and it is not in the updater's directory |
| Paths.ProtectedExactly | updater/Updater.php:823-826 | the protected paths are the environment file, the storage directory and database files, also with a final line feed |
| InstallTree.ReplaceInstalls | updater/Updater.php:346-382 | a finished replacement has installed every unprotected file of the new manifest, removed those that only the old one lists, left protected and foreign files alone, and saved exactly what it changed |
| InstallTree.CrashThenRecoverExactly | updater/Updater.php:346-382 | stopping before any operation and recovering restores every packaged file, at all stopping points, if and only if the update was undoable |
| InstallTree.RecoveryUnlinksExistingFile | updater/Updater.php:687-695 | an environment file that only the new manifest lists is gone after a recovery that had nothing to undo |
| InstallTree.AtMostOneLeftover | updater/Updater.php:370-381 | after a stop and a recovery at most one file is new, an installer temporary |
| InstallTree.RecoveryIsRestartable | updater/Updater.php:687-712 | partial recoveries in any order and number do not change what a complete one yields |
| InstallTree.RecoveryStepKeepsOutcome | updater/Updater.php:688-712 | one file operation of recovery keeps that outcome |
| Installation.Installation.ReplacePath | updater/Updater.php:348-381 | one turn of the loop performs a prefix of that path's operations, the whole of it when nothing fails |
| Installation.Installation.ReplacePaths | updater/Updater.php:348-382 | the loop performs a prefix of the whole program and succeeds exactly if operations suffice and all paths are safe |
| Installation.Installation.Replace | updater/Updater.php:346-382 | however it ends, recovery restores an undoable tree |
| Installation.Installation.Recover | updater/Updater.php:687-712 | an interrupted recovery keeps the outcome, a complete one reaches it |
| Installation.InterruptionIsUndone | updater/Updater.php:346-382 | the loop's stopping points are those of the crash theorem |
| UpdateProtocol.NextKeepsInv | updater/Updater.php:95-236 | every step of every process, deaths included, keeps the protocol's invariant, whatever the manifests of the updates |
| UpdateProtocol.RunsKeepInv | updater/Updater.php:95-236 | the invariant holds throughout every run |
| UpdateProtocol.WriteAheadSafety | updater/Updater.php:148-190 | a changed schema means the migrating phase, in which no recovery runs; and while updates are undoable, changed code means a journal that says so and from which recovery restores it |
| UpdateProtocol.UpdatesAreExclusive | updater/Updater.php:95-98 | one process past the lock, and no shared activity while files are replaced or the database migrates |
| UpdateProtocol.NoUpdateOverJournal | updater/Updater.php:106-109 | no update chooses a release while a journal exists |
| UpdateProtocol.NothingGoesBack | updater/Updater.php:255-266 | committed versions accumulate and the catalog generation never decreases |
| UpdateProtocol.EachCommitIsNewer | updater/Updater.php:272-299 | every committed version is newer than the one it replaced, and when nothing is pending the version file says the last one or, after an update that was not undoable, may be missing |
| UpdateProtocol.RecoveryLeavesOldVersion | updater/Updater.php:659-719 | a finished recovery leaves no journal, the committed schema and no other version, and the committed code if updates are undoable |
| UpdateProtocol.CommittedIsInstalled | updater/Updater.php:174-201 | over every run, a version is committed only when its schema is in place, the version file says it, every unprotected file of a well-formed package is installed, obsolete ones are gone and the journal is removed |
| UpdateRuns.UpdateCompletes | updater/Updater.php:106-208 | when nothing is under way, an update to a newer release can run to its end: every unprotected file of the package is installed, obsolete ones are gone, all others as they were, and the version is committed |
| UpdateRuns.RecoveryCompletes | updater/Updater.php:659-719 | from wherever a run has stopped before migrating, a recovery can run to its end, which leaves no journal and no lock, and the committed schema, version and, if updates are undoable, code |
| UpdateRuns.HistoriesExactly | updater/Updater.php:291-293 | the histories of all runs are exactly the sequences in which each version is newer than the one before |
| UpdateHistory.HistoryStepsUp | updater/Updater.php:291-293 | over every run, under Semver::compare itself, each committed version is greater than the one it replaced |
| UpdateHistory.CommittedVersionsIncrease | updater/Updater.php:291-293 | while no two committed versions are out of order, each is greater than every earlier one |
| UpdateHistory.HistoriesIncreaseExactly | updater/Updater.php:1307-1343 | over all runs that commit some of the given versions and others that are in order, versions increase throughout exactly if no two of the given ones are out of order |
| UpdateHistory.UpdatesCanGoInACircle | updater/Updater.php:1337-1339 | a run of three updates, each to a newer version, that returns to its first version |
| ActivityGate.WorkerHooks.Looping | backend/app/Providers/AppServiceProvider.php:116-128 | the loop goes on exactly if it has a handle, which it takes unless an update holds the lock |
| ActivityGate.WorkerHooks.Before | backend/app/Providers/AppServiceProvider.php:130-143 | a job is admitted exactly if the loop hands its handle over or none holds the lock exclusively, and then it keeps a handle; a refusal changes nothing |
| ActivityGate.WorkerHooks.Attempted | backend/app/Providers/AppServiceProvider.php:96-107 | the job's handle is released and forgotten |
| ActivityGate.WorkerHooks.ReleaseLoop | backend/app/Providers/AppServiceProvider.php:108-114 | the loop's handle is released and forgotten |
| ActivityGate.ActivityLock.AcquireShared | updater/ActivityLock.php:16-27 | a shared handle is granted unless the lock is held exclusively |
| ActivityGate.AcquireExclusive | updater/ActivityLock.php:32-52 | the first successful attempt wins; failure comes after at least one attempt and only at the deadline |
| ActivityGate.EventKeepsInv | backend/app/Providers/AppServiceProvider.php:96-161 | each hook, reader, death and updater event keeps holders and lock in agreement |
| ActivityGate.ExclusiveMeansQuiet | backend/app/Providers/AppServiceProvider.php:116-161 | while an updater is admitted no job body runs and no shared handle exists |
| ActivityGate.JobIsAdmittedExactly | backend/app/Providers/AppServiceProvider.php:130-143 | over every interleaving, a job runs exactly if the loop hands over its handle or no updater holds the lock, and then it keeps that handle |
| ActivityGate.ReaderIsAdmittedExactly | updater/ActivityLock.php:16-27 | readers and loops are let in exactly while no updater holds the lock |
| ActivityGate.LeavingExactly | backend/app/Providers/AppServiceProvider.php:96-161 | the end of a job, an idle worker, a death and a leaving reader or updater give up exactly their own handles |
| ActivityGate.UpdateWaitsForJob | updater/ActivityLock.php:32-52 | a worker with a job keeps an updater out until the job ends, and no longer |
| ActivityGate.SharedHandlesAreKept | backend/app/Providers/AppServiceProvider.php:130-143 | shared locks are exactly the handles of loops, jobs and readers, each kept once |
| ActivityGate.HandlesAreReleasedOnce | backend/app/Providers/AppServiceProvider.php:96-114 | a granted handle is closed exactly once, and only when nobody keeps it |
| ActivityGate.UpdaterIsAdmittedExactly | updater/ActivityLock.php:41-52 | the updater is admitted exactly when nobody keeps a handle |
| GateRefinement.ReadersRefine | backend/app/Providers/AppServiceProvider.php:96-161 | events of workers and readers, deaths included, are steps in which the update protocol's readers enter and leave |
| GateRefinement.GrantRefines | updater/ActivityLock.php:41-45 | the updater is granted the lock exactly under the protocol's guard, by its step |
| GateRefinement.ReleaseRefines | updater/Updater.php:224-227 | giving the lock back is what the end of a process does in the protocol |
| Semver.ParseTagMeetsPattern | updater/Updater.php:1294-1305 | the parser accepts exactly what the pattern matches and drops build metadata |
| Semver.ParseTagInvertsPrinting | updater/Updater.php:1294-1305 | printing a well-formed version and parsing it gives it back |
| Semver.ParseTagIdempotent | updater/Updater.php:1294-1305 | parsing a result changes nothing |
| Precedence.PrecedenceIsTotalOrder | updater/Updater.php:1307-1343 | section 11 of Semantic Versioning 2.0.0 is a total order on parsed versions |
| Precedence.SectionElevenExamples | updater/Updater.php:1307-1343 | that order on the examples of section 11 |
| Precedence.CompareMeetsPrecedence | updater/Updater.php:1307-1343 | compare is that order with numbers cut off at 2^63 - 1, exactly unless the first words that differ are numbers to PHP and ordered otherwise as such |
| Precedence.CompareIsTotalPreorder | updater/Updater.php:1307-1343 | compare is a total preorder on versions of which no two are out of order |
| Precedence.TransitiveExactly | updater/Updater.php:1307-1343 | newer is transitive between two versions, through any other in order with both, exactly if they are in order |
| Precedence.CompareInRange | updater/Updater.php:1307-1343 | in range two versions are compared by section 11 exactly unless they are out of order, and then 0 exactly when parseTag gives equal results |
| Precedence.MeetsInOrderExactly | updater/Updater.php:1313-1331 | apart from versions out of order with it, a version is compared by section 11 with all others exactly if its numbers are below 2^63 - 1 |
| Precedence.MeetsEverywhereExactly | updater/Updater.php:1307-1343 | against all versions without exception, exactly if moreover it has no numeric word |
| Precedence.TiesExactly | updater/Updater.php:1307-1343 | comparing 0 means parsing the same, against all versions, under exactly that condition |
| Precedence.NumericWordsMakeACycle | updater/Updater.php:1337-1339 | three versions that compare in a circle |
| Precedence.BigMajorsTie | updater/Updater.php:1313-1317 | versions that differ only in majors beyond the integer range tie |
| Precedence.DifferentVersionsTie | updater/Updater.php:1313-1317 | two such versions |
| Releases.Scheme.SelectRelease | updater/Updater.php:272-299 | the updater's loop, sort and checks compute the selection |
| Releases.Scheme.LatestRelease | backend/app/Services/ReleaseChecker.php:199-225 | the application's loop, sort and checks compute the offer |
| Releases.SelectorsAgreeExactly | backend/app/Services/ReleaseChecker.php:199-238 | over every catalog: what is selected is offered exactly if its package is an array, and what is offered is selected exactly if no other entry overtakes it |
| Releases.Requirements | updater/Updater.php:302-319 | the checks and the loop over extensions throw exactly for an invalid package, an old PHP or a missing extension, the first of these |
| Releases.Scheme.PrepareUpdate | updater/Updater.php:132-133 | selection followed by the requirements |
| Releases.UpdatesAgreeExactly | updater/Updater.php:302-319 | over every catalog and host: what passes both is offered, and what is offered passes exactly if no other entry overtakes it and the requirements are met |
| Releases.UpdateExactly | updater/Updater.php:272-319 | over every catalog and host, both ways: an update goes on with the first of the newest eligible entries, exactly if version, updater, package, PHP and extensions allow it |
| Releases.TaggedUpdateExactly | updater/Updater.php:274-319 | an update to a tag goes on with the first entry for that version, pre-release or not, exactly if they allow it |
| Releases.OfferExactly | backend/app/Services/ReleaseChecker.php:199-238 | both ways: the application offers the first of the newest eligible entries with an array, exactly if it is newer, and as upgradeable exactly if updater and version allow it |
| Releases.Scheme.SortHead | updater/Updater.php:289-290 | the head of the sorted candidates is the newest, the first listed among equals |
| Releases.SelectedIsNewestStable | updater/Updater.php:272-299 | the selected release is listed, stable, consistent, not withdrawn, newer than the installed one and maximal |
| Releases.ScalarHidesOffer | updater/Updater.php:274-306 | a catalog with an offered release that no host can install |
| Releases.TagIsHonouredExactly | updater/Updater.php:274-286 | a requested tag is what gets installed, over all catalogs, exactly if it parses |
| TransferRemoval.EventKeepsInv | backend/app/Jobs/DeleteTransfer.php:36-87 | uploads, pruning and any number of jobs keep the tables consistent |
| TransferRemoval.RemovalIsComplete | backend/app/Jobs/DeleteTransfer.php:55-87 | a removed transfer has left no stage row and no recorded copy, and one archive row exactly if it was owned, the account stands and the row is not yet purged; none is live and archived |
| TransferRemoval.NothingIsForgotten | backend/app/Http/Controllers/Api/V1/TransferChunkController.php:63-236 | every stored object is a recorded copy of an existing transfer or has an attempt row, every staged file has a row or is an orphan the sweep finds |
| TransferRemoval.FinishingArchives | backend/app/Support/TransferHistory.php:60-74 | the transaction that removes an owned transfer writes its archive row and nothing else to the archive |
| TransferRemoval.RowsVanishOnlyByFinishing | backend/app/Jobs/DeleteTransfer.php:75-87 | a transfer row disappears only in the finishing transaction and never returns; an archive row only with its account or when its time is over |
| TransferRemoval.OwnerChangesOnlyWithAccount | backend/app/Http/Controllers/NativeAccountController.php:287-310 | the creation time never changes, and the owner only to none, by the deletion of that account, which also marks the transfer |
| TransferRemoval.DeletionIsFinal | backend/app/Jobs/DeleteTransfer.php:36-87 | over every run, a transfer deleted by itself or with its account is due to go or gone ever after, and gets no further stage or recorded copy |
| TransferRemoval.AccountTakesItsOwn | backend/app/Http/Controllers/NativeAccountController.php:287-310 | with an account its transfers are marked and lose their owner and its archive rows go, and nothing of others |
| TransferRemoval.CopyIsRecorded | backend/app/Http/Controllers/Api/V1/TransferChunkController.php:97-178 | a copy that is written and recorded belongs to its transfer |
| TransferRemoval.AttemptIsUndone | backend/app/Http/Controllers/Api/V1/TransferChunkController.php:259-266 | an attempt that is given up leaves nothing behind |
| TransferRemoval.StageIsBegun | backend/app/Http/Controllers/Api/V1/TransferChunkStageController.php:72-80 | a stage is begun with row and file, and removing it takes both away |
| TransferRemoval.ArchiveNeverConflicts | backend/app/Support/TransferHistory.php:60-74 | the archive insert never meets an existing row |
| TransferRemoval.Cleaner.RemoveStage | backend/app/Support/ChunkStaging.php:129-136 | file before row, stopping anywhere |
| TransferRemoval.Cleaner.RemoveTransfer | backend/app/Support/ChunkStaging.php:120-146 | all stages are gone on success, and it succeeds when none is busy and nothing fails |
| TransferRemoval.Cleaner.DeleteCopies | backend/app/Jobs/DeleteTransfer.php:66-70 | the loop over stored copies deletes all of them or fails |
| TransferRemoval.Cleaner.Clean | backend/app/Jobs/DeleteTransfer.php:38-70 | the part before finishing touches no transfer or archive row and gets to the end when nothing is busy or fails |
| TransferRemoval.Cleaner.Handle | backend/app/Jobs/DeleteTransfer.php:36-73 | a failed job leaves rows for a retry, a successful one removes the transfer with its ciphertext and archives it under its owner |
| HistoryPaging.FirstsAreFirst | backend/app/Support/TransferHistory.php:54-54 | a page is descending and above everything it leaves out |
| HistoryPaging.WalkDescends | backend/app/Support/TransferHistory.php:54-57 | pages from successive snapshots join in strictly descending order |
| HistoryPaging.WalkFinds | backend/app/Support/TransferHistory.php:54-57 | a row present throughout is on some page |
| HistoryPaging.WalkShowsEverythingOnce | backend/app/Support/TransferHistory.php:43-57 | a finished walk shows every such row exactly once and none twice |
| HistoryPaging.ViewOnlyGrows | backend/app/Support/TransferHistory.php:43-48 | while the account stands, nothing but the end of its retention takes a row out of its owner's listing, and the two halves are disjoint |
| HistoryPaging.WalkAlongRun | backend/app/Support/TransferHistory.php:43-57 | pages fetched at any moments of a run of uploads, deletions and archivings show every row that lasts exactly once |
| StageLeases.EventKeepsInv | backend/app/Support/ChunkStaging.php:101-200 | clients whose completions succeed, fail, die or are recovered, jobs, pruners and sweepers keep locks, rows and files consistent |
| StageLeases.RowsGoForAReason | backend/app/Support/ChunkStaging.php:120-164 | a row is deleted after its file, and only if at that moment its lease has ended, its transfer is being deleted, or its client destroys it |
| StageLeases.LiveStagesKeepTheirFiles | backend/app/Http/Controllers/Api/V1/TransferChunkStageController.php:167-242 | a live stage loses its file only to its own client's completion or destruction, to a deleting transfer, or to the sweep if its identifier was begun twice, never to pruning |
| StageLeases.RenewalLasts | backend/app/Http/Controllers/Api/V1/TransferChunkStageController.php:152-154 | over every run, a part written at time n keeps its stage from pruning until n plus the term |
| StageLeases.BeginningLasts | backend/app/Http/Controllers/Api/V1/TransferChunkStageController.php:72-80 | and so does the beginning of an upload from the time its file was made |
| StageLeases.BeginningOpens | backend/app/Http/Controllers/Api/V1/TransferChunkStageController.php:72-80 | an upload that is begun can be written to for the whole term |
| StageLeases.PartIsWritten | backend/app/Http/Controllers/Api/V1/TransferChunkStageController.php:120-154 | a part renews lease and file, and changes nothing else |
| StageLeases.CompletionEnds | backend/app/Http/Controllers/Api/V1/TransferChunkStageController.php:167-222 | a completion leaves the row complete and then gives the file back |
| StageLeases.FailureChangesNothing | backend/app/Http/Controllers/Api/V1/TransferChunkStageController.php:200-206 | one that fails leaves everything as it was |
| StageLeases.DeadCompletionRecovers | backend/app/Http/Controllers/Api/V1/TransferChunkStageController.php:291-303 | one that died can be recovered by anybody, to complete if its chunk is published |
| StageLeases.DeletionCloses | backend/app/Http/Controllers/Api/V1/TransferChunkStageController.php:317-327 | from its deletion on no stage of a transfer can be written or completed, and each that is free can be removed |
| StageLeases.SweepTakesOrphansOnly | backend/app/Support/ChunkStaging.php:178-198 | the sweep unlinks only files without a row, unless an identifier was begun twice |
| StageLeases.OrphanIsSwept | backend/app/Support/ChunkStaging.php:178-198 | an old file without a row, whose lock is free, is swept |
| StageLeases.FailedBeginningLeavesNothing | backend/app/Http/Controllers/Api/V1/TransferChunkStageController.php:83-98 | a beginning that fails leaves no file |
| StageLeases.SweepTakesReusedFile | backend/app/Support/ChunkStaging.php:178-198 | a run in which it then takes the file of a live stage |
| StageLeases.ReopensForAReason | backend/app/Http/Controllers/Api/V1/TransferChunkStageController.php:200-302 | a stage returns to receiving only by its failed completion or by a recovery that found it finalizing, under its lock |
| StageLeases.RemovalIsOrdered | backend/app/Support/ChunkStaging.php:101-146 | whoever removes and wherever it stops, a file still implies its row |
| StageLeases.StagingArea.Prune | backend/app/Support/ChunkStaging.php:150-171 | the loop removes exactly the stages expired in their turn, free and removable |
| StageLeases.TurnIsEvents | backend/app/Support/ChunkStaging.php:150-171 | each turn of that loop is a removal of the state machine, or nothing |
| Passfile.TwoPassesAreOne | updater/PostgresBackup.php:321-324 | the two replacement passes equal one escape per character |
| Passfile.ReadWrittenLine | updater/PostgresBackup.php:313-315 | splitting a written line at unescaped colons gives the fields back |
| Passfile.WritePassfile | updater/PostgresBackup.php:303-319 | the loop writes one line per host name |
| Passfile.FileReadsBackExactly | updater/PostgresBackup.php:164-207 | for accepted settings libpq reads back exactly the five fields of every line, if and only if the port has no newline and the host no leading '#' |
| Passfile.PasswordIsFound | updater/PostgresBackup.php:303-319 | libpq finds the configured password under the host, and under localhost for a socket directory |
| Passfile.PortWithNewlineIsAccepted | updater/PostgresBackup.php:177-184 | accepted settings whose file holds no readable line |
| SaveQueue.Queue.Drain | backend/resources/themes/appearance.js:104-108 | a pending job is sent exactly when nothing is being saved |
| SaveQueue.Queue.Enqueue | backend/resources/themes/appearance.js:88-103 | the shown preference replaces what was pending |
| SaveQueue.Queue.Choose | backend/resources/themes/appearance.js:150-160 | a choice is shown at once and saved for an account or remembered for a guest |
| SaveQueue.Queue.Hydrate | backend/resources/themes/appearance.js:161-183 | a page replaces what is shown unless a save is under way or failed, and a change of account starts afresh |
| SaveQueue.Queue.Settle | backend/resources/themes/appearance.js:130-148 | an answer counts only for the account and choice it was sent for |
| SaveQueue.OneRequestAtATime | backend/resources/themes/appearance.js:104-149 | at most one request is under way, over all runs |
| SaveQueue.RepliesNeverUndoChoices | backend/resources/themes/appearance.js:130-137 | an answer changes what is shown only if nothing superseded the request since the page first held it |
| SaveQueue.EventKeepsStep | backend/resources/themes/appearance.js:88-179 | every orderly event keeps page, wire and server in step |
| SaveQueue.QuietMeansStored | backend/resources/themes/appearance.js:88-179 | a quiet page shows what the server holds, reports a failure, or has yet to adopt |
| SaveQueue.ChoiceIsRequested | backend/resources/themes/appearance.js:150-160 | a choice is shown and, for an account, requested, or for a guest remembered |
| SaveQueue.RetryIsRequested | backend/resources/themes/appearance.js:190-192 | a retry requests what is shown, for adoption if that had failed |
| SaveQueue.AdoptionIsRequested | backend/resources/themes/appearance.js:161-179 | a page for an account without a stored preference requests to adopt the guest's choice unless a save is under way |
| SaveQueue.ChoiceIsStored | backend/resources/themes/appearance.js:104-149 | whatever request is under way, once the server has answered it and the next, the choice is stored and shown as saved |
| SaveQueue.GuestChoiceIsAdopted | backend/app/Support/Theming/Appearance.php:65-83 | a guest who signs in to an account with nothing stored finds the guest's choice stored |
| SaveQueue.StalePageExactly | backend/resources/themes/appearance.js:161-178 | exactly when a page leaves what is shown different from what is stored |
| SaveQueue.StalePageHidesSave | backend/resources/themes/appearance.js:161-178 | a run in which it does |
| SaveQueue.LateRequestExactly | backend/app/Support/Theming/Appearance.php:65-83 | exactly when a request that was given up leaves the page out of step |
| SaveQueue.LateRequestUndoesSave | backend/resources/themes/appearance.js:138-148 | a run in which it does |
| SaveQueue.AccountsStayApart | backend/app/Http/Controllers/AppearanceController.php:16-32 | an account is only ever given a preference that was shown for it, while it is signed in |
| ExportFiles.Destination.Stage | desktop/src/client.rs:1915-1931 | the copies succeed exactly if every source is verified and its name is free |
| ExportFiles.Destination.Commit | desktop/src/client.rs:1932-1937 | whatever the listing order, the renamed files are exactly those reported as committed |
| ExportFiles.Destination.ExportVerified | desktop/src/client.rs:1901-1946 | an error leaves the destination as it was, success adds exactly the requested files, nothing is overwritten |
| ExportFiles.EveryContentExactly | desktop/src/client.rs:1924-1930 | every content arrives exactly if sources with one base name agree |
| ExportFiles.EveryFileExactly | desktop/src/client.rs:1924-1930 | there is one new file per source exactly if base names are distinct |
| ExportFiles.SecondNameReplacesFirst | desktop/src/client.rs:1924-1930 | a successful export of two files that leaves one |
| Messages.History.RecordMessage | desktop/src/client.rs:1673-1691 | one new identifier, and the oldest message leaves a full history |
| Messages.Toasts.Take | desktop/src/toast.rs:45-60 | the seen set becomes the history's identifiers and the fresh operational messages are returned in order |
| Messages.FreshSelects | desktop/src/toast.rs:50-59 | what is returned are exactly the unseen operational messages, in order |
| Messages.HistoryIsRecent | desktop/src/client.rs:1679-1690 | identifiers increase, end with the newest, and are at most 256 |
| Messages.NothingIsShownTwice | desktop/src/toast.rs:45-60 | identifiers of notifications increase over the whole run |
| Messages.PollShowsEverything | desktop/src/toast.rs:45-60 | after a poll every operational message of the history has been shown |
| Messages.ShownExactly | desktop/src/toast.rs:40-60 | a message is ever shown exactly if it is operational and fewer than 256 follow before the next poll |
| Messages.BurstHidesMessage | desktop/src/client.rs:1688-1690 | a message that is never shown |
| ByteRange.CapturesExactly | backend/app/Support/ChunkResponse.php:78-80 | the captures are those of the pattern |
| ByteRange.SelectExactly | backend/app/Support/ChunkResponse.php:82-100 | saturating casts select exactly the positions that unbounded arithmetic does |
| ByteRange.EverythingExactly | backend/app/Support/ChunkResponse.php:69-115 | the whole chunk is answered exactly without a Range header or when If-Range is too long, another tag, no date or a date before the last change |
| ByteRange.RangeMeetsStandard | backend/app/Support/ChunkResponse.php:69-100 | every header gets the range sections 14.1.2 and 14.2 of RFC 9110 give it, within bounds, or is refused, and exactly when |
| ByteRange.EmptyChunksExactly | backend/app/Support/ChunkResponse.php:85-91 | a range is within bounds except for a nonzero suffix of an empty chunk, which uploads cannot create |
| ByteRange.UnknownUnitsAreRefused | backend/app/Support/ChunkResponse.php:71-80 | headers with a unit that is not understood are refused; they would have to be ignored |
| ByteRange.CapitalUnitsAreRefused | backend/app/Support/ChunkResponse.php:78-80 | any other spelling of the unit is refused |
| ByteRange.CapitalUnitExample | backend/app/Support/ChunkResponse.php:78-80 | the unit Bytes, which the standard allows, is refused |
| ByteRange.Stream | backend/app/Support/ChunkResponse.php:48-57 | short reads in any sizes send exactly the chosen bytes, a failing read a prefix of them |
| ByteRange.Read | backend/app/Support/ChunkReader.php:18-54 | the loop returns the first valid copy |
| ByteRange.ReadIsVerified | backend/app/Support/ChunkReader.php:18-54 | a returned copy has the recorded size and checksum, and none is returned exactly if none has |
| ByteRange.ReadIsFirst | backend/app/Support/ChunkReader.php:18-54 | every copy before the one that is served was tried and was not valid |
| ByteRange.Make | backend/app/Support/ChunkResponse.php:20-67 | the status and body of every response in terms of header and copies |
| ByteRange.AskIsGranted | backend/app/Support/ChunkResponse.php:69-100 | a request that prints two positions is answered with them |
| ByteRange.PieceIsSlice | backend/app/Support/ChunkResponse.php:39-66 | the 206 response to such a request carries exactly these bytes |
| ByteRange.CoveringRanges | backend/app/Support/ChunkResponse.php:43-60 | responses to consecutive ranges join to the chunk |
| Editor.Input.constructor | crates/cli/src/input.rs:16-22 | a new input has its cursor at the end |
| Editor.Input.TryInsert | crates/cli/src/input.rs:44-57 | a paste that fits is inserted at the cursor, which goes behind it; beyond 64 KiB nothing changes |
| Editor.Input.Handle | crates/cli/src/input.rs:64-99 | every key keeps the cursor on a character boundary and does what it does to the zipper |
| Editor.Input.MoveLine | crates/cli/src/input.rs:101-122 | the byte arithmetic of vertical motion refines the zipper's |
| Editor.Input.Previous | crates/cli/src/input.rs:124-130 | the boundary before the last visible character left of the cursor |
| Editor.Input.Next | crates/cli/src/input.rs:131-137 | the boundary after the next visible character |
| Editor.DownMovesOneLine | crates/cli/src/input.rs:101-122 | exactly one line down or not at all, to the smaller of the old column and the next line's length |
| Editor.UpMovesOneLine | crates/cli/src/input.rs:101-122 | the same upwards |
| Editor.ColumnCounts | crates/cli/src/input.rs:101-103 | the column is the number of pieces from the start of the cursor's line |
| Editor.MovesKeepText | crates/cli/src/input.rs:64-99 | keys that only move leave the text alone |
| Editor.MovesByPieces | crates/cli/src/input.rs:85-88 | left and right go exactly one piece back and ahead, home and end to the ends of the text |
| Editor.ErasesOnePiece | crates/cli/src/input.rs:89-96 | backspace and delete take away exactly the piece before and after the cursor |
| Editor.TypingWrites | crates/cli/src/input.rs:44-57 | characters typed one by one within the limit stand left of the cursor in the order typed |
| Editor.PasteIsTyping | crates/cli/src/input.rs:44-57 | a paste is all its characters typed, or nothing when they do not fit |
| Editor.BackspaceUndoesTyping | crates/cli/src/input.rs:82-93 | backspace undoes a character that is a piece of its own |
| Editor.EnterBreaksLine | crates/cli/src/input.rs:80-81 | enter breaks the line at the cursor and goes to the start of the new one, tab types a tabulator |
| Editor.OtherKeys | crates/cli/src/input.rs:64-80 | control keys clear or go to either end, and no other key has an effect with control, alt, or in a single line |
| Editor.RunsKeepLimit | crates/cli/src/input.rs:44-57 | a text within 64 KiB stays within it under any keys and pastes |
| Editor.RunsStayPrintable | crates/cli/src/input.rs:44-49 | a single-line input never takes in control characters or line breaks |

## Left out

- Network, signatures, checksums, archives, the database server, `pg_dump`, `artisan` and the web probe: steps that succeed or fail, or function parameters.
- Symbolic links, permissions, directories, case-insensitive file systems and copies torn by a crash: the install tree is a flat map and each file operation is atomic. The export model does allow torn copies, which stay in its staging directory.
- `clearBootstrapCaches`: the caches it deletes are not part of the tree.
- Package extraction and manifest checks: their outcome is `InstallTree.Accepted`; `InstallTree.WellFormed` also assumes that no packaged path ends in `.filebeam-new`.
- UpdateProtocol.WriteAheadSafety: says nothing of the code once replacement has begun for an update that is not undoable, until the next commit; `InstallTree.CrashThenRecoverExactly` says that recovery may then fail to restore it. A recovery started by hand does not take the activity lock, in the code or in the model.
- Pending requests, heartbeats, status files and the maintenance switch of the updater: bookkeeping beside the protocol.
- Precedence.CompareMeetsPrecedence: numeric words are compared as exact reals, while PHP compares large ones as doubles.
- `usort` is modelled as stable insertion, which PHP has guaranteed since version 8.0.
- The application's `state`, `check`, `queue` and catalog cache around `latestRelease`.
- TransferRemoval.NothingIsForgotten: a copy is assumed not to be written after the lease of its attempt is over. The account of a deleted user, once gone, creates no transfers.
- Cached rendezvous state of WebRTC transfers, grouping of copies by file store, and a copy store that deletes some copies before failing on others in one call: deletions are modelled one copy at a time, each of which may fail.
- HistoryPaging.WalkShowsEverythingOnce: pages come from one snapshot each and filters are left out, since a filtered status changes as transfers are archived.
- Expiry computation (`maximumExpiry`) and the rendered row (`resource`): plain computations.
- StageLeases.LiveStagesKeepTheirFiles: assumes that the transaction that begins a stage takes less than an hour, the age below which the sweep ignores files, and that other transactions do not see its row before it commits, as in PostgreSQL. Lock side files and the capacity lock are not modelled.
- StageLeases.RenewalLasts: the term of a lease is one setting, the same for all events of a run.
- Passfile.FileReadsBackExactly: libpq is the reader its documentation describes; `*` fields match anything, and a literal `\*` is not told apart from it because none is ever written.
- SaveQueue.QuietMeansStored: assumes that pages arrive in order and that requests given up do not change the store later; both failures have their exact conditions. Preferences are values both sides accept, so the catalog lookup of `normalize` is the identity. Other tabs and devices of the same account, `dispose`, and the administrator's pages are left out.
- ExportFiles.Destination.ExportVerified: no other program changes the destination meanwhile; entries whose removal fails may stay behind, and only those.
- The 64-bit width of message identifiers, and the text of messages.
- ByteRange.Make: `If-Range` dates are parsed by a parameter. Multiple ranges are refused, as the code does.
- Unicode segmentation is a function parameter: its pieces are nonempty and make up the text; the theorems about columns and about single pieces also use that the first, and for the latter the last, pieces of a text are segmented alone as within it. `visible` and `clip` need width tables and are left out, as are `take` and `end`.
- Views, themes, routes, policies, migrations that create tables, and release scripts.
