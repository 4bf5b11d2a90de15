# Dockman: a verified model of its synchronisation and update engines

Dockman manages Docker Compose stacks. Its hard part is keeping a live stack folder and a Git repository in step without
losing anybody's work, and undoing what it did when something fails. This project models those engines in Dafny and proves
what they keep over every input and every run.

| module | what it covers |
|---|---|
| `Common`, `Paths`, `Catalogue` | small helpers, slash-separated paths, which stack owns a file |
| `Preview` | the three-way comparison of Git, stack and recorded baseline |
| `Transfer` | selecting, holding back, writing, moving the baseline |
| `Backup` | the archive taken before a write, and playing it back |
| `Sync` | what a whole import or export does, convergence |
| `Rollback`, `Recovery` | deployment rollback, import backup, commit rollback |
| `Unattended` | the unattended import, which sees the active stacks only |
| `FolderLinks` | the service object: import, export, unattended import, restore, both rollbacks |
| `History` | every run of those operations, complete or interrupted |
| `Policy`, `LinkOwnership` | the pruned tree walk, the memoised glob search, the directory index, disjoint Folder Links |
| `UpdateOrder`, `StackUpdate` | the multi-container update transaction |
| `Deployment`, `DeployedImport` | the staged deployment pipeline with rollback, and what a batch does to the imported files |
| `HostWatch`, `BuildJobs`, `BuildLog` | concurrent bookkeeping, as interleavings of atomic steps |
| `Retention` | registry clean-up by reachability over OCI descriptors |

A file tree is a finite map from path to hash, mode, readability, skip reason and directory flag; the hash stands for the
contents. Loops over Go maps take their elements in any order, so every result holds for every iteration order. Each method is
proved against a specification function or predicate (`Classify`, `Selection`, `BaselineAfter`, `ArchiveOf`, `Replayed`,
`RolledBack`, `CommitActionAt`, `Next`, …), and the theorems below are about those, so they hold of the methods.

`dafny verify dfyconfig.toml` checks everything.

## What the proofs found in the code

Promises of the comments or documentation that the code keeps only under a condition. The lemma named with each says
exactly when it is kept.

- A backup gives back the previous files exactly when every overwritten destination was missing or *plain* (readable, mode not
  `000`): an unreadable destination that is not `permission` or `large_directory` is overwritten without a record
  (`UnrecordedDestinationIsLost`), and a `000` file comes back as `0644` (`PlainIsFixed`, `BackupUndoesTheWrite`).
- A deployment rollback restores the baseline exactly when the import settled no conflict there, restored no local deletion,
  refreshed no stale baseline of an identical file and moved no entry of an unreadable destination it overwrote
  (`RollbackRestoresTheBaseline`; `ExcludedBaselineStays` is an input).
- A stack listed as rolled back has its earlier files exactly when, besides, none of the new imported files was among those its own
  provisioning removed: such a file is moved back after the rollback (`RolledBackStackIsBack`, `RemovedNewFileComesBack`). The rollback
  is refused although nobody touched the files exactly when provisioning took one of the recorded earlier files off the stack
  (`FilesAnswerIsExact`, `RemovedEarlierFileIsRefused`).
- A Compose file missing before the import and not part of it passes for "existed before" (`HadPreviousComposeIsRight`;
  `MissingComposePassesForEarlier` is the input).
- The unattended import undoes a local deletion, although "no file was restored" is its rule, exactly when it goes on and the file
  belongs to a paused stack inside an active one (which is then held in vain) or, found through an include rule, to no active
  stack's directory (`AutoImportAndOpenDecisions`; `NestedPausedFileComesBack` is the input).
- An unattended run that finds nothing to change replaces the baseline of the whole link by the files it saw. A file of a paused
  stack is then judged differently exactly when it was tracked and its two sides differ: its local deletion becomes a new Git file
  that any import restores (`QuietRunForgetsTheUnseen`; `PausedDeletionIsForgotten` is the input). A run that does change something
  drops the tracked provisioning manifests of paused stacks, unless set aside or owned by a held stack (`UnseenControlIsDropped`;
  `PausedControlIsDropped` is the input).
- Provisioning manifests that cannot be read stay listed for ever (`ImportConverges`, the `StuckControls` term;
  `UnreadableControlStaysListed` is the input).
- A rolled-back stack whose final record cannot be saved is listed as rolled back but not as failed
  (`UnsavedRollbackIsNoListedFailure`).
- Two accepted links into one repository select no common file unless one takes the whole tree from `.`, the default folder, in
  `all` mode (`AcceptedLinksAreDisjoint`). On a host `.` is refused, and there accepted links are always disjoint
  (`HostLinksAreDisjoint`).
- The pruned walk finds a selected file exactly when every directory above it is entered (`WalkFindsExactly`). Include rules that
  are bare file names are not searched for, on purpose (`BasenameRuleIsNotSearched`); a brace group that spans a slash selects
  files the search cannot find (`BraceGroupIsNotSearched`); with neither in the policy nothing is lost (`PrunedWalkIsComplete`).

## Model

| member | source | states |
|---|---|---|
| `Paths.ControlExactly` | core/internal/gitsync/binding.go:3194-3201 | a control manifest is a file named provision.yml or provision.yaml, in any directory and any case |
| `Paths.LessIsLexicographic` | core/internal/gitsync/binding.go:3442-3442 | the order of entries: the first difference decides, a text comes before its continuations |
| `Preview.BlockerIsNearest` | core/internal/gitsync/binding.go:3590-3599 | the climb finds a blocking ancestor whenever there is one, and the nearest |
| `Preview.BlockedTargetDirectory` | core/internal/gitsync/binding.go:3590-3599 | the loop returns that ancestor's entry, or nothing exactly when no ancestor blocks |
| `Preview.BuildPreview` | core/internal/gitsync/binding.go:3432-3588 | every path with something to report is listed exactly once, in path order, with the verdict of its own three entries, and all six counters are the sizes of the sets they name; the `Sync` rows below say what the verdicts are, in terms of contents |
| `Preview.ScanOne` | core/internal/gitsync/binding.go:3443-3520 | one turn of the source loop adds exactly the verdict of that path to entries and counters |
| `Preview.ScanLeft` | core/internal/gitsync/binding.go:3523-3570 | one turn of the loop over files that left the source, likewise |
| `Preview.ScanControls` | core/internal/gitsync/binding.go:3572-3586 | removed control manifests are reported once each and nothing else is added |
| `Preview.PreviewIsDeterministic` | core/internal/gitsync/binding.go:3432-3588 | the preview is one value whatever order the maps are walked in |
| `Preview.ChangedCoversConflicts` | core/internal/gitsync/binding.go:3432-3588 | conflicts, preserved and local deletions are parts of `Changed`, and `Changed` is 0 exactly when every entry is skipped |
| `Catalogue.ComposePathsForFile` | core/internal/gitsync/stack_status.go:860-884 | returns, in list order, exactly the manifests whose directory is the deepest one containing the file |
| `Catalogue.OwnersShareTheirDirectory` | core/internal/gitsync/stack_status.go:860-884 | all owners of a file sit in one directory |
| `Catalogue.OwnerIsNearest` | core/internal/gitsync/stack_status.go:860-884 | ownership without counting depths: no covering manifest lies in a directory inside the owner's |
| `Catalogue.CutKeepsOwners` | core/internal/gitsync/backup.go:348-355 | a catalogue cut down to the touched stacks still tells the same owners |
| `Transfer.SelectTransferFiles` | core/internal/gitsync/binding.go:3818-3884 | the approved files and the number of conflicts left, or the first of four refusals; exact for every request (see `Sync.TakesExactly` and `Sync.RequestsAnswered` for what these are) |
| `Transfer.HeldBackStacks` | core/internal/gitsync/binding.go:4048-4063 | exactly the stacks that own a file with a conflict or a local deletion |
| `Transfer.ExcludeHeldBackStacks` | core/internal/gitsync/binding.go:4070-4098 | drops exactly the files owned by a held stack, and names the stacks that caused a drop |
| `Transfer.BaselineAfterTransfer` | core/internal/gitsync/binding.go:3911-3934 | the new baseline, path by path: transferred and already equal files at the source hash, removed controls gone, the rest as before |
| `Backup.BackupChangedFiles` | core/internal/gitsync/backup.go:60-101 | one record per changed destination with its previous and its coming state, the previous contents, and the stacks touched |
| `Backup.RecordsBothSides` | core/internal/gitsync/backup.go:89-101 | a changed path is recorded unless it is closed or equal; the record names the contents before and after the change and the archive stores the former |
| `Backup.StacksOf` | core/internal/gitsync/backup.go:348-355 | exactly the stacks owning a recorded file |
| `Backup.PreviewBackupRestore` | core/internal/gitsync/backup_restore.go:74-111 | action per record and exact counts of restorable and conflicting ones |
| `Backup.ActionsExactly` | core/internal/gitsync/backup_restore.go:75-109 | a path at its recorded earlier contents needs nothing, one that stands exactly where the change left it is offered, and every other one, edited, lost or closed, conflicts |
| `Backup.RestoreSparesEdits` | core/internal/gitsync/backup_restore.go:205-247 | a restore, finished or not, changes only files that stand where the recorded change left them and gives those their recorded contents |
| `Backup.InterruptedWriteNeverClashes` | core/internal/gitsync/backup_restore.go:75-109 | wherever the write stopped, no recorded path conflicts and exactly the written ones are offered |
| `Backup.ReplayedAt` | core/internal/gitsync/backup_restore.go:205-247 | restoring any offered subset puts those paths back and leaves all others |
| `Backup.BackupUndoesTheWrite` | core/internal/gitsync/backup.go:89-101 | restoring all that is offered gives back the whole tree, if and only if every destination reached was missing or plain |
| `Backup.RestoreIsUndoable` | core/internal/gitsync/backup_restore.go:205-247 | the safety backup of a restore undoes that restore, complete or interrupted, under the same exact condition |
| `Backup.PlainIsFixed` | core/internal/gitsync/binding.go:3801-3807 | writing a file back keeps it exactly when it is plain |
| `Sync.DirectionTheorem` | core/internal/gitsync/binding.go:3484-3500 | only the side that left the baseline may be copied; the other direction, and both after two changes, conflict |
| `Sync.LocalDeletionTheorem` | core/internal/gitsync/binding.go:3501-3544 | both directions report a local deletion, and conflict exactly when Git changed the file too |
| `Sync.ChangesExactly` | core/internal/gitsync/binding.go:3461-3570 | what either direction lists as a change, from the contents of both sides, the baseline and what is kept closed |
| `Sync.ConflictsExactly` | core/internal/gitsync/binding.go:3484-3568 | when either direction asks for a decision, also on files without a baseline |
| `Sync.CountersExactly` | core/internal/gitsync/binding.go:3461-3570 | unchanged, skipped, preserved and local deletions of either direction, from the contents |
| `Sync.EntryShowsBothSides` | core/internal/gitsync/binding.go:3475-3570 | the hashes of an entry are those of source and target |
| `Sync.KindsExactly` | core/internal/gitsync/binding.go:3490-3568 | the conflict kind says how the two sides relate to the baseline |
| `Sync.StatusesExactly` | core/internal/gitsync/binding.go:3475-3570 | add, modify or deleted, when nothing conflicts |
| `Sync.SkipReasonsExactly` | core/internal/gitsync/binding.go:3461-3483 | the reason is that of the closed source, else of the closed target or the nearest closed directory above it |
| `Sync.ControlsExactly` | core/internal/gitsync/binding.go:3445-3460 | an import lists and takes exactly the control manifests whose hash is not the recorded one, an export none |
| `Sync.TakesExactly` | core/internal/gitsync/binding.go:3818-3884 | both directions: a file is taken if and only if it is readable, differs, is within the choice, lands on nothing closed, and its destination is as the baseline says (or missing, where that needs no decision) or was resolved by hand |
| `Sync.ChoiceBoundsTheTransfer` | core/internal/gitsync/binding.go:3863-3868 | a transfer limited to chosen paths leaves every other file alone on both sides; its baseline moves only where the sides agree |
| `Sync.RequestsAnswered` | core/internal/gitsync/binding.go:3818-3884 | a request is answered if and only if it is small enough, resolves conflicts only, selects transferable paths only and selects what it resolves; the rest count is that of the unresolved conflicts |
| `Sync.ImportTakes` | core/internal/gitsync/binding.go:3818-3884 | an imported file is readable in Git; its destination is missing or differs, is never protected, and unrecorded contents are replaced only on request |
| `Sync.ImportLosesNoUpdate` | core/internal/gitsync/binding.go:3443-3570 | every readable file overwritten was at its baseline or resolved by hand, and its hash is in the backup; files Git lacks are not written |
| `Sync.ExportKeepsMissingFiles` | core/internal/gitsync/binding.go:3521-3547 | an export neither changes nor removes a Git file missing locally |
| `Sync.ExportTakes` | core/internal/gitsync/binding.go:3484-3500 | an exported file comes readable from the stack and is never a control manifest; a readable Git file with other contents is replaced only at its baseline or on request |
| `Sync.ExportLosesNoUpdate` | core/internal/gitsync/binding.go:3484-3547 | a readable Git file changes only where it was at its baseline or resolved by hand, then to the stack's contents; none disappears |
| `Sync.UnpushedFilesAreRecorded` | core/internal/gitsync/binding.go:1327-1405 | after a commit whose push failed both directions call the files unchanged, and the next export records them in the baseline, with other changes or without |
| `Sync.QuietBaselines` | core/internal/gitsync/binding.go:1327-1328 | the baseline rewritten by a transfer without changes; an export keeps the recorded control manifests |
| `Sync.QuietImportsStayQuiet` | core/internal/gitsync/binding.go:1634-1635 | after it the next import preview is as quiet, except for recorded control manifests that cannot be read any more |
| `Sync.QuietExportsStayQuiet` | core/internal/gitsync/binding.go:1327-1328 | and the next export preview without exception |
| `Sync.ImportKeepsDestination` | core/internal/gitsync/binding.go:3590-3599 | a write never changes what blocks the paths it did not write |
| `Sync.ImportSettlesAt` | core/internal/gitsync/binding.go:3911-3934 | after a full import a path counts as changed exactly if it is a kept Git deletion, with the same verdict, or an unreadable control |
| `Sync.ImportConverges` | core/internal/gitsync/binding.go:3432-3588 | the next preview has `Changed` equal to the first `Preserved` plus the unreadable controls, no local deletion and no conflict outside the kept deletions |
| `Sync.UnreadableControlStaysListed` | core/internal/gitsync/binding.go:3443-3460 | the input: a control manifest the inventory could not read is listed before the full import and after it |
| `Sync.ExportConverges` | core/internal/gitsync/binding.go:3432-3588 | after a full export exactly the local deletions stay listed |
| `Sync.ImportSettlesTheExportToo` | core/internal/gitsync/binding.go:3432-3588 | after a full import both directions call every unprotected readable Git file the same |
| `Rollback.ArchiveKnowsOwners` | core/internal/gitsync/deployment_rollback.go:45-138 | ownership read from the backup manifest is ownership in the link's catalogue |
| `Rollback.RollbackActionsExactly` | core/internal/gitsync/deployment_rollback.go:80-98 | a file is put back exactly when it stands where the import left it; one that is edited, lost or closed refuses |
| `Rollback.RollbackSparesEdits` | core/internal/gitsync/deployment_rollback.go:71-136 | an accepted rollback gives every owned record its earlier contents and baseline entry, and touches no other path |
| `Rollback.UntouchedImportCanBeRolledBack` | core/internal/gitsync/deployment_rollback.go:45-138 | with no edit in between no owned file refuses; each is restored or removed as it was before |
| `Rollback.RollbackRestoresTheStack` | core/internal/gitsync/deployment_rollback.go:45-138 | the failed stack's files are back, if and only if the destinations were missing or plain; other stacks keep the import |
| `Rollback.RollbackRestoresTheBaseline` | core/internal/gitsync/deployment_rollback.go:117-136 | its baseline entries are back, if and only if no conflict was resolved, no deletion restored, no stale entry refreshed and no entry of an unreadable overwritten destination moved |
| `Rollback.ExcludedBaselineStays` | core/internal/gitsync/deployment_rollback.go:117-136 | the input: an excluded untracked destination keeps the imported hash as its baseline after the rollback |
| `Rollback.RollbackRestoresTheVerdict` | core/internal/gitsync/deployment_rollback.go:45-138 | the next preview gives each of its files the verdict it had before the import |
| `Rollback.HadPreviousComposeIsRight` | core/internal/gitsync/deployment_rollback.go:14-40 | the backup tells an update from a first deployment, if and only if the Compose file existed or was imported |
| `Rollback.MissingComposePassesForEarlier` | core/internal/gitsync/deployment_rollback.go:14-40 | the input: only another file of a new stack is imported |
| `Recovery.ImportBackupGivesTheStackBack` | core/internal/gitsync/backup_restore.go:75-109 | the backup of an import, interrupted anywhere, never conflicts, restores any part asked for, and restores all exactly when the destinations were missing or plain |
| `Recovery.UnrecordedDestinationIsLost` | core/internal/gitsync/binding.go:3475-3519 | a concrete link on which an import overwrites a destination that no record remembers |
| `Recovery.BuildCommitRollbackPreview` | core/internal/gitsync/commit_rollback.go:208-263 | every owned path listed once with its action, counters exact |
| `Recovery.CommitActionsExactly` | core/internal/gitsync/commit_rollback.go:240-258 | restore, remove, noop and skipped in terms of ownership, readability and contents |
| `Recovery.FullCommitRollbackReachesTheCommit` | core/internal/gitsync/commit_rollback.go:208-263 | after a full rollback the stack has, on every path that a chosen stack owns and both sides let be read, what the commit has and nothing else; the rebuilt preview has `Changed` 0 |
| `Recovery.CommitRollbackAt` | core/internal/gitsync/commit_rollback.go:406-499 | a picked path that a chosen stack owns, is open on both sides and differs gets the commit's file or disappears with it; no other path is touched |
| `Recovery.CommitRollbackIsUndoable` | core/internal/gitsync/commit_rollback.go:461-499 | its safety backup undoes it, complete or interrupted, if and only if the destinations reached were plain |
| `Unattended.SightIsTheWalk` | core/internal/gitsync/binding.go:2165-2285 | what an unattended run sees of the files is exactly what the pruned walk finds under the policy whose roots are the active stacks' directories |
| `Unattended.ClosedDirectoryInSight` | core/internal/gitsync/binding.go:2248-2275 | a directory that cannot be opened is seen exactly when the walk would enter it |
| `Unattended.EverythingIsSeen` | core/internal/gitsync/binding.go:2165-2169 | without narrowing the import is the plain import |
| `Unattended.SeenImportIsImport` | core/internal/gitsync/binding.go:2157-2222 | seen through the same sight, an import of narrowed inventories is the import of the link as seen, so all results on imports carry over |
| `Unattended.SeenImportIsAChange` | core/internal/gitsync/backup.go:89-101 | on the whole stack it is a change set, and its backup knows every readable file it replaces |
| `Unattended.SeenRollbackIsRollback` | core/internal/gitsync/deployment_rollback.go:45-138 | the same for the deployment rollback that follows it |
| `Unattended.UnattendedRollbackRestoresTheStack` | core/internal/gitsync/deployment_rollback.go:45-138 | after an unattended import the rollback is allowed, restores the whole stack folder there if and only if the destinations were missing or plain, moves nothing else, and gives the next unattended preview the old verdicts |
| `Unattended.OutOfSightIsUntouched` | core/internal/gitsync/binding.go:2165-2169 | a file not seen in Git is not written and, unless a control manifest, keeps its baseline |
| `Unattended.HeldBackStackIsUntouched` | core/internal/gitsync/automation.go:437-492 | a stack with one open decision keeps all its files and, unless stale, its baseline |
| `Unattended.HeldExactly` | core/internal/gitsync/binding.go:4048-4063 | a stack is held if and only if it owns a conflict or a local deletion among the active stacks |
| `Unattended.AutoTakesExactly` | core/internal/gitsync/automation.go:437-492 | a run that goes on takes every plain change except files set aside and files of stacks that own an open decision |
| `Unattended.ProceedsExactly` | core/internal/gitsync/automation.go:462-480 | with anything open the run goes on if and only if some active stack owns an open decision and another owns none |
| `Unattended.OpenDecisionKeepsTheStack` | core/internal/gitsync/binding.go:4048-4098 | the active owner of one conflict or local deletion keeps all its files |
| `Unattended.ActiveOwner` | core/internal/gitsync/stack_status.go:860-884 | an active stack owns a file if and only if one is around it and no paused stack lies inside |
| `Unattended.AutoImportAndOpenDecisions` | core/internal/gitsync/automation.go:460-492 | unattended imports settle no conflict; a local deletion is undone if and only if the run goes on and a paused stack inside the active ones owns the file, or an include rule brought it in outside them |
| `Unattended.NestedPausedFileComesBack` | core/internal/gitsync/automation.go:460-492 | the input: stacks a and z active, a/b paused, a/b/f deleted locally; the run restores it |
| `Unattended.UnseenControlIsDropped` | core/internal/gitsync/binding.go:3572-3586 | a tracked provisioning manifest out of sight leaves the baseline unless set aside or owned by a held stack, and is new for the next full preview |
| `Unattended.PausedControlIsDropped` | core/internal/gitsync/binding.go:3572-3586 | the input: one provisioning manifest outside the one active stack |
| `Unattended.QuietRunForgetsTheUnseen` | core/internal/gitsync/binding.go:1634-1636 | a run without changes drops the baseline of everything unseen; the next full preview differs if and only if the file was tracked and needs its baseline |
| `Unattended.PausedDeletionIsForgotten` | core/internal/gitsync/binding.go:1634-1636 | the input: a file of a paused stack was deleted locally, a quiet run follows, and the next full import takes the file without a decision |
| `Unattended.QuietRunSawEveryControl` | core/internal/gitsync/binding.go:3572-3586 | such a run happens only when every tracked control manifest is in sight and current |
| `FolderLinks.TokenOf` | core/internal/gitsync/binding.go:3634-3649 | the token identifies exactly the non-skipped entries |
| `FolderLinks.ConfirmsExactly` | core/internal/gitsync/binding.go:3634-3649 | two previews share a token if and only if every path either lists as a change has the same verdict in both |
| `FolderLinks.ConfirmationPinsTheTransfer` | core/internal/gitsync/binding.go:3634-3657 | while a confirmation holds, the same files are taken, with the contents and over the contents that were confirmed |
| `FolderLinks.Decide` | core/internal/gitsync/binding.go:1625-1656 | refusals, "nothing to do" and the selection, exact for every request |
| `FolderLinks.DecisionsExactly` | core/internal/gitsync/binding.go:1324-1345 | when a transfer has nothing to do and when it takes files |
| `FolderLinks.FolderLink.WriteStackFiles` | core/internal/gitsync/binding.go:3703-3744 | writes exactly the files with contents, nothing else changes; stops at the first one that cannot be written, with just the earlier ones done |
| `FolderLinks.FolderLink.WriteRepositoryFiles` | core/internal/gitsync/binding.go:3661-3701 | the same on the Git side |
| `FolderLinks.FolderLink.Import` | core/internal/gitsync/binding.go:1575-1720 | outcome and whole new state for every request, seen narrowed or whole; a backup of what is overwritten is kept first, also when the write then stops half way; nothing moves without confirmation of this very preview; it stays within selected paths and replaces readable files only at their baseline or on request |
| `FolderLinks.FolderLink.Export` | core/internal/gitsync/binding.go:1285-1410 | outcome and whole new state, a failed push included; the stack and the backups are never touched, and nothing moves without confirmation of this very preview; it stays within selected paths and replaces readable Git files only at their baseline or on request |
| `FolderLinks.PrepareUnattended` | core/internal/gitsync/automation.go:425-476 | goes on exactly when there is an active stack and every open decision leaves a stack to hold back and another to synchronise |
| `FolderLinks.FolderLink.AutoImport` | core/internal/gitsync/automation.go:425-492 | on the link as the active stacks show it: the stack afterwards is the import of the unattended files and nothing else, or a part of it when a write fails; a run that stops or is not ready changes nothing |
| `FolderLinks.FolderLink.ApplyBackupArchive` | core/internal/gitsync/backup_restore.go:327-412 | on a consistent archive ends with exactly the chosen paths played back, or with the part done before a path that cannot be written; never touches another path |
| `FolderLinks.FolderLink.RestoreBackup` | core/internal/gitsync/backup_restore.go:114-288 | accepted exactly when the backup is restorable, the preview still holds, the choice is restorable and no stack of it is being edited; safety backup kept; stack is the replay, or part of it when a write fails; no file edited since the backup changes |
| `FolderLinks.FolderLink.RollbackDeploymentFiles` | core/internal/gitsync/deployment_rollback.go:45-138 | accepted exactly for a restorable pre-import backup, a stack that is not being edited, owns a record and has no edited file; then stack and baseline are rolled back, or part of the files and not the baseline when a write or the save fails; otherwise nothing moves |
| `FolderLinks.CollectRollback` | core/internal/gitsync/deployment_rollback.go:60-110 | the owned records with their actions, or that one of them refuses |
| `FolderLinks.RestoreBaseline` | core/internal/gitsync/deployment_rollback.go:117-136 | every owned path's baseline entry is its recorded previous hash or gone, the others stay |
| `FolderLinks.FolderLink.ApplyCommitRollback` | core/internal/gitsync/commit_rollback.go:406-520 | accepted exactly when the Compose files are valid, the preview still holds, only changing paths are picked and no affected stack is being edited; safety backup kept; stack is the commit on those paths, or on part of them when a write fails; the paths are owned differences, each ends at the commit, and nothing else changes |
| `History.StepRemembers` | core/internal/gitsync/backup.go:89-101 | each operation, complete or interrupted, deployment rollbacks included: contents on the stack or stored in an archive stay so, if and only if no deployment rollback takes them off the stack unstored |
| `History.DropsOnlyWhatItBrought` | core/internal/gitsync/deployment_rollback.go:76-110 | what a rollback can drop is exactly what the import of its backup had brought to that path of that stack |
| `History.NothingIsForgotten` | core/internal/gitsync/backup.go:89-101 | over every run of imports, exports, restores, commit and deployment rollbacks, Git moves, baseline rewrites and interrupted writes, contents once on the stack are there or stored, unless a rollback of the run dropped them |
| `History.UnattendedImportIsAllowed` | core/internal/gitsync/automation.go:489-492 | an unattended import is one of these operations |
| `Policy.PrefixTestIsComponentwise` | core/internal/gitsync/binding.go:3157-3179 | the string test "prefix plus slash" is the proper-prefix test on components |
| `Policy.StarsMatchAnyNumber` | core/internal/gitsync/binding.go:3079-3105 | `**` stands for any number of components, also none |
| `Policy.PlainPatternsMatchPointwise` | core/internal/gitsync/binding.go:3173-3176 | without `**` a pattern matches component by component |
| `Policy.DirectoryRuleExactly` | core/internal/gitsync/binding.go:3160-3165 | a directory rule without metacharacters is the directory and all below it, and no file of that name |
| `Policy.PatternRuleExactly` | core/internal/gitsync/binding.go:3166-3177 | any other rule: one alternative matches the path or its last name, or the directory is the rule without its final `**` |
| `Policy.MatchIsReached` | core/internal/gitsync/binding.go:3079-3105 | whatever can match below a directory is announced, for any component globs |
| `Policy.ReachedHasMatch` | core/internal/gitsync/binding.go:3079-3105 | an announced directory has a matching path below it, when each component glob is satisfiable |
| `Policy.PrefixSearch.Matches` | core/internal/gitsync/binding.go:3084-3103 | the memoised search terminates and answers like the search without memory |
| `Policy.IncludeRuleCanMatchBelowDirectory` | core/internal/gitsync/binding.go:3079-3105 | true exactly when some non-empty list of further components matches the split pattern |
| `Policy.SearchAgreesWithMatching` | core/internal/gitsync/binding.go:3079-3105 | on rules without a slash in a brace group the search below a directory answers for the rule as matching reads it |
| `Policy.SelectsPath` | core/internal/gitsync/binding.go:2773-2807 | selected and traverse answers against the declarative policy, in which a rule matches as a whole and is searched by its pieces |
| `Policy.PrunedWalkReaches` | core/internal/gitsync/binding.go:2773-2807 | every directory above a file selected by a root, a path glob without a slash in a brace group or a literal directory is entered |
| `Policy.WalkFindsExactly` | core/internal/gitsync/binding.go:2248-2285 | for every policy and tree the walk finds a file if and only if it is selected and every directory above it is entered |
| `Policy.UnlimitedWalkFindsAll` | core/internal/gitsync/binding.go:2773-2776 | without a selection the walk finds every file |
| `Policy.PrunedWalkIsComplete` | core/internal/gitsync/binding.go:2255-2310 | with such rules only, among them plain directory names, the pruned walk finds exactly the selected files of the whole tree |
| `Policy.BasenameRuleIsNotSearched` | core/internal/gitsync/binding.go:3070-3077 | a family of policies on which a selected file lies in a directory the walk does not enter |
| `Policy.BraceGroupIsNotSearched` | core/internal/gitsync/binding.go:3079-3105 | {conf/a,conf/b}/x selects conf/a/x while conf is not entered |
| `Policy.ComposeDirectoryIndex` | core/internal/gitsync/binding.go:3046-3056 | the index is the set of all proper ancestors of the manifests |
| `Policy.IndexAnswersLikeTheScan` | core/internal/gitsync/binding.go:3032-3044 | on every directory the index answers like the linear scan |
| `LinkOwnership.BindingOwnershipsOverlap` | core/internal/gitsync/binding.go:1970-2009 | true exactly when some two ownerships overlap |
| `LinkOwnership.SelectedIsGoverned` | core/internal/gitsync/binding.go:1981-2001 | every file a link selects is governed by one of its ownerships or is the owned path itself |
| `LinkOwnership.CommonFileMeansOverlap` | core/internal/gitsync/binding.go:2003-2009 | two ownerships with a common file overlap, unless one is the whole tree |
| `LinkOwnership.AcceptedLinksAreDisjoint` | core/internal/gitsync/binding.go:1918-2009 | links that pass the check select no common file outside owned names, if and only if neither takes the whole tree from `.` while the other owns something |
| `LinkOwnership.OverlapSelectsAFile` | core/internal/gitsync/binding.go:2003-2009 | two overlapping ownerships hold a file that both links select, so no pair is refused for nothing |
| `LinkOwnership.AcceptedExactlyWhenDisjoint` | core/internal/gitsync/binding.go:1918-2009 | two links select no common file if and only if the check accepts them outside its gap |
| `LinkOwnership.GapSelectsAFile` | core/internal/gitsync/binding.go:1918-1947 | in that case there is a file both links select |
| `LinkOwnership.HostLinksAreDisjoint` | core/internal/gitsync/binding.go:1954-1968 | links on a host, whose folder is never `.`, select no common file once accepted |
| `UpdateOrder.ComposeTargetDependencies` | core/internal/docker/update_automation.go:373-382 | exactly the named services that are present, each once |
| `UpdateOrder.LabelIsCutAtCommas` | core/internal/docker/update_automation.go:375-375 | the items of a label are the texts between its commas |
| `UpdateOrder.ItemNamesItsService` | core/internal/docker/update_automation.go:376-376 | an item names the text before its first colon without the white space around it |
| `UpdateOrder.LabelExamples` | core/internal/docker/update_automation.go:376-376 | "db", " db " and "db:service_started:false" name db |
| `UpdateOrder.OrderStackUpdateTargets` | core/internal/docker/update_automation.go:327-371 | terminates with a permutation; without a dependency cycle the fallback is not taken and dependencies come first; targets that wait for nobody come in the order of their names |
| `UpdateOrder.StuckIsCyclic` | core/internal/docker/update_automation.go:341-369 | a pass without progress proves a cycle |
| `UpdateOrder.OrderedExactlyWhenAcyclic` | core/internal/docker/update_automation.go:327-371 | with unique service names the result respects the dependencies if and only if they are acyclic |
| `StackUpdate.LockTable.TryLock` | core/internal/docker/compose/stack_lock.go:17-45 | succeeds exactly when the key is free and takes only that key |
| `StackUpdate.LockTable.AcquireAll` | core/internal/docker/handler_containers.go:278-303 | all keys or none: succeeds exactly when all are free, otherwise the table is as before |
| `StackUpdate.LockTable.ReleaseAll` | core/internal/docker/handler_containers.go:303-309 | releases each taken key once, in reverse, leaving other holders alone |
| `StackUpdate.Preflight` | core/internal/docker/update_automation.go:170-203 | ready exactly when every member validated and every image was pulled |
| `StackUpdate.UpdateMembers` | core/internal/docker/update_automation.go:205-238 | final image and reported state of every member, and no other container changed |
| `StackUpdate.RollbackApplied` | core/internal/docker/update_automation.go:253-270 | members updated before the failure are put back in reverse, each to the image it started on |
| `StackUpdate.ExecuteAutomaticStackUnit` | core/internal/docker/update_automation.go:158-251 | no container changes unless locked, validated and pulled; dependency order; every lock is given back on every exit |
| `StackUpdate.StatesAgreeWithImages` | core/internal/docker/update_automation.go:205-270 | each reported state determines what the member's container runs |
| `StackUpdate.RollbackIsForAllOrNone` | core/internal/docker/update_automation.go:205-270 | members after the failing one are left alone; those updated before it are put back if every member allows it and keep the new image if one does not |
| `StackUpdate.FailedUpdateIsANoOp` | core/internal/docker/update_automation.go:205-270 | rollback enabled, failing member kept its image, restores succeed: every container is on its initial image |
| `StackUpdate.SuccessfulUpdateIsComplete` | core/internal/docker/update_automation.go:205-251 | without a failure every member is updated or current, and runs what its update call left |
| `Deployment.RunStages` | core/internal/gitsync/deployment.go:406-466 | a real deploy runs exactly when all earlier stages succeeded, and after them |
| `Deployment.RollBack` | core/internal/gitsync/deployment.go:467-533 | succeeds exactly when no step of its trace failed, each step reporting its own call; steps in order, each at most once; clean-up only for a new stack that reached Docker, redeployment only after revalidation of a previous one |
| `Deployment.DeployOne` | core/internal/gitsync/deployment.go:393-556 | final state as a function of the calls' answers and read off the trace: success if no step failed, rolled back if one stage failed and no step of the rollback; the lock is taken and released once |
| `Deployment.DeployChangedStacks` | core/internal/gitsync/deployment.go:364-611 | lists, link state and store errors exact; every deploy staged; every lock released exactly once on every exit |
| `Deployment.BatchPartitionsTargets` | core/internal/gitsync/deployment.go:566-611 | deployed, failed and deferred partition the targets, the rollback lists are disjoint parts of failed, success exactly when nothing failed or was deferred |
| `Deployment.UnsavedRollbackIsNoListedFailure` | core/internal/gitsync/deployment.go:519-552 | after a store error the rollback lists leave the failures exactly by the stack whose final record was lost |
| `DeployedImport.BatchIsPathwise` | core/internal/gitsync/deployment.go:380-556 | provisioning removals, deployments, complete, refused and half rollbacks of a whole batch move each path through three places only: imported, earlier, off the stack |
| `DeployedImport.FilesAnswerIsExact` | core/internal/gitsync/deployment_rollback.go:76-110 | at any point of the batch the files of a stack can be put back if and only if the backup has a record of its own and none of its recorded earlier files is off the stack |
| `DeployedImport.RefusedFilesAreAFailure` | core/internal/gitsync/deployment.go:467-525 | a failed stack whose files cannot be put back is listed as a failed rollback |
| `DeployedImport.BatchTakesBack` | core/internal/gitsync/deployment.go:380-556 | without removals of the path and half rollbacks, exactly the recorded files of the stacks taken back are the earlier ones at the end, in whatever order the stacks failed and also where they share files |
| `DeployedImport.ListedMeansRolledBack` | core/internal/gitsync/deployment.go:513-525 | the list holds exactly the handled stacks whose pipeline failed and whose rollback succeeded throughout |
| `DeployedImport.RolledBackStackIsBack` | core/internal/gitsync/deployment.go:467-525 | a file of a stack listed as rolled back is the pre-import one if and only if the destination was missing or plain and no removal interferes; its baseline entry is the earlier one if and only if the import settled nothing there |
| `DeployedImport.LaterStacksLeaveItAlone` | core/internal/gitsync/deployment.go:380-556 | what holds of a path after its stack holds at the end of the batch unless a later stack touches it |
| `DeployedImport.ComposeFileIsBack` | core/internal/gitsync/provision.go:545-573 | removals never reach Compose files, so that of a listed stack is back if and only if it was missing or plain |
| `DeployedImport.RemovedNewFileComesBack` | core/internal/gitsync/provision.go:675-699 | the input: a new file and a manifest that removes it; the stack counts as rolled back and has the file |
| `DeployedImport.RemovedEarlierFileIsRefused` | core/internal/gitsync/deployment_rollback.go:76-95 | the input: a changed file and a manifest that removes it; the rollback is refused |
| `HostWatch.StepKeepsInv` | core/internal/app/host_watch.go:51-105 | every atomic step keeps the registration invariant |
| `HostWatch.StepKeepsHistory` | core/internal/app/host_watch.go:51-77 | a new watcher gets a generation never used before; old ones keep theirs |
| `HostWatch.AtMostOneWatcherPerHost` | core/internal/app/host_watch.go:51-105 | over every run a live watcher is the registered one or held by a release about to cancel it |
| `HostWatch.NothingLivesAfterShutdown` | core/internal/app/host_watch.go:51-63 | over every run: after the shutdown no watcher lives and none is started; a nameless host never has one |
| `HostWatch.FinishingSparesTheSuccessor` | core/internal/app/host_watch.go:98-105 | an old watcher finishing never unregisters its successor |
| `HostWatch.QuietMapIsExact` | core/internal/app/host_watch.go:51-105 | with nothing half done the map names exactly the hosts with a live watcher |
| `HostWatch.HostWatchers.WatchHost` | core/internal/app/host_watch.go:51-77 | refines the watch step |
| `HostWatch.HostWatchers.ReleaseLocked` | core/internal/app/host_watch.go:79-92 | refines the locked half of release |
| `HostWatch.HostWatchers.FinishedLocked` | core/internal/app/host_watch.go:98-105 | refines the locked half of finish |
| `BuildLog.BuildJobLog.Write` | core/internal/docker/build_jobs.go:62-83 | the buffer is the last min(total, 1 MiB) bytes of the stream and the offsets say which |
| `BuildLog.BuildJobLog.Snapshot` | core/internal/docker/build_jobs.go:85-105 | the reply in terms of the whole stream |
| `BuildLog.RepliesExactly` | core/internal/docker/build_jobs.go:85-105 | where a reply starts, when it is marked truncated, and that it runs to the end of the stream |
| `BuildLog.PollingReassemblesTheStream` | core/internal/docker/build_jobs.go:62-105 | over every interleaving a client following `NextOffset` holds the exact stream until a reply is marked truncated |
| `BuildLog.LastPollCompletes` | core/internal/docker/build_jobs.go:85-105 | ending on a poll it holds everything written |
| `BuildLog.CutMeansTooLate` | core/internal/docker/build_jobs.go:85-105 | a reply is marked truncated if and only if more than the window went by between two polls |
| `BuildJobs.PruneLocked` | core/internal/docker/build_jobs.go:251-273 | drops no unfinished job, every expired one, then oldest first and only down to 20; more than 20 remain only if all are unfinished |
| `BuildJobs.SurplusWasUnfinished` | core/internal/docker/build_jobs.go:251-273 | over every interleaving: after a pruning at most 20 jobs remain, or every one was unfinished when it was looked at |
| `BuildJobs.OpenWasUnfinished` | core/internal/docker/build_jobs.go:251-262 | a job counts as looked at and unfinished only if it was |
| `BuildJobs.StepKeepsInv` | core/internal/docker/build_jobs.go:125-206 | every atomic step keeps the slot, limit and counting invariants, with builds changing status while a start holds the lock |
| `BuildJobs.LimitsHold` | core/internal/docker/build_jobs.go:125-206 | over every run at most 10 queued or running jobs per host and 2 running overall |
| `BuildJobs.StepRespectsStatus` | core/internal/docker/build_jobs.go:157-206 | no step changes a finished job or drops an unfinished one |
| `BuildJobs.FinishedIsFinal` | core/internal/docker/build_jobs.go:185-206 | over every run a terminal status never changes |
| `BuildJobs.BuildJobManager.StartJob` | core/internal/docker/build_jobs.go:125-155 | left alone, a run of the start steps; accepted exactly below the limit |
| `Retention.ReachableDigests` | scripts/ghcr-retention.py:167-184 | terminates on every graph with exactly the digests reachable from the roots; gives up exactly when one cannot be read |
| `Retention.RetainNewest` | scripts/ghcr-retention.py:114-126 | the newest distinct tags, at most `keep`, all of them when there are fewer |
| `Retention.SelectProtected` | scripts/ghcr-retention.py:110-150 | protected tags and roots, including signature tags of the digests they name; fails exactly when such a digest has no colon |
| `Retention.ProtectedExactly` | scripts/ghcr-retention.py:128-143 | a tag is protected if and only if it is a release tag of some version, the base tag, a retained history tag, one of their architecture tags, or the signature tag of a digest that bears one of these |
| `Retention.HistoryExactly` | scripts/ghcr-retention.py:111-118 | the history are the tags base-xxxxxxxxxxxx with twelve hexadecimal digits, with the dates of their versions |
| `Retention.BuildPlan` | scripts/ghcr-retention.py:187-198 | splits the versions without loss or duplication, each side exact |
| `Retention.PlanIsSafe` | scripts/ghcr-retention.py:187-198 | exactly the versions reachable from a protected root are kept, and no kept version refers to a deleted one |
| `Retention.Retain` | scripts/ghcr-retention.py:226-260 | the whole run: a safe plan that keeps every version with a protected tag, everything kept hanging on such versions, or a refusal exactly when a current tag is missing or a reachable manifest cannot be read |

## Left out

- Sync: hashes stand for contents (SHA-256 taken as injective); file sizes, the sensitive flag, messages, activity records and the pause and status rows of stacks.
- FolderLinks.TokenOf: the token is the set of non-skipped entries rather than a digest of them; restore and commit-rollback tokens are the maps of actions.
- FolderLinks.FolderLink.Import: the repository ahead/behind check and the Compose checks before it are one answer (`ready`); files of edited or invalid stacks arrive as the set `setAside`.
- FolderLinks.FolderLink.Export: the repository state check, the commit message check and the push are given answers; Git keeps only part of a file mode.
- FolderLinks.FolderLink.AutoImport: the commit-only fast path, newly discovered stacks and automatic exclusion of unreadable paths are not modelled; the paths include rules bring in are a given predicate, and large directories are judged as in the whole inventory.
- FolderLinks.FolderLink.RestoreBackup: waiting for the automation and repository locks is not modelled; stacks with unsaved editors are given as a set.
- FolderLinks.FolderLink.WriteStackFiles: a file is written as a whole or not at all; written paths are inventoried as readable, also where the in-place fallback keeps an old mode.
- Input cleaning: paths arrive in the cleaned relative form that the source produces before using them.
- Backup retention pruning and deletion; `History.NothingIsForgotten` therefore speaks of archives that are kept, and neither user edits nor provisioning removals are steps of a run.
- Policy: exclusion rules, profiles, size limits, symbolic links and sensitive-file detection; how one glob component matches one name, and what a text with brace groups expands to, are given.
- LinkOwnership.AcceptedLinksAreDisjoint: links with include patterns (`bindingIncludeMayReach`) are not modelled.
- Paths: lower-casing covers ASCII and the one other character (U+0130) that lowers to an ASCII letter of a control name.
- StackUpdate: Docker's answers are arbitrary scripted values; lock keys are given; grouping of targets, single-container units and removal of old images would only add easy members.
- Deployment: Compose calls are arbitrary scripted answers; the optional hooks that must be configured, logs and traces are left out.
- DeployedImport: of provisioning only the removals are followed; modes, owners and directories it sets, and its own archive of what it removes, are not.
- HostWatch: the generation counter is unbounded, not 64 bits wide.
- BuildJobs: job identifiers are assumed never to repeat; a pruning drops its jobs in one step at its end, after all its looks.
- Retention.Retain: the deletion calls and the check after them are not modelled; the release-tag expression is a parameter.
- HTTP and RPC handlers, UI, authentication, real Git, Docker, tar and database behaviour.
