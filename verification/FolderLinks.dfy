/** The synchronisation service for one Folder Link: the operations that write files, move the baseline
    and keep backups. */
module FolderLinks {
  import opened Common
  import opened Paths
  import opened Preview
  import opened Catalogue
  import opened Transfer
  import opened Backup
  import opened Sync
  import opened Rollback
  import opened Recovery
  import opened Unattended

  datatype TransferError =
    | NotReady
    | PreviewMissing
    | PreviewStale
    | BadSelection(error: SelectionError)
    | NothingSelected
    | BadMessage
    | PushFailed

  datatype TransferOutcome =
    | TransferRefused(error: TransferError)
    | UpToDate
    | OnlyGitDeletions
    | AllSetAside
    | Transferred(files: Tree, backup: Option<nat>, pending: int)
    | TransferBroken(files: Tree, backup: Option<nat>)

  datatype RestoreOutcome =
    | RestoreRefused
    | Restored(paths: set<Path>, safety: nat)
    | RestoreBroken(paths: set<Path>, safety: nat)

  datatype BackupKind = PreImport | PreRestore | PreCommitRollback | OtherBackup

  /** A stored backup. Archives of an older form, and those of provisioning, can be downloaded but not restored. */
  datatype Kept = Kept(archive: Archive, kind: BackupKind, restorable: bool)

  /** What a preview token stands for: every entry that is not skipped. */
  ghost function Confirmable(v: Path -> Verdict, within: set<Path>): set<Entry> {
    set p | p in within && IsChange(v(p)) :: v(p).entry
  }

  method TokenOf(pv: TransferPreview, ghost v: Path -> Verdict, ghost within: set<Path>) returns (token: set<Entry>)
    requires Listed(pv.entries, v, within)
    ensures token == Confirmable(v, within)
  {
    token := set e | e in pv.entries && !e.status.Skipped?;
    forall e ensures e in token <==> e in Confirmable(v, within) {
      if e in Confirmable(v, within) {
        var p :| p in within && IsChange(v(p)) && v(p).entry == e;
      }
      if e in token {
        assert v(e.path) == Emit(e);
      }
    }
  }

  datatype Decision =
    | Stop(error: TransferError)
    | NothingToDo
    | Take(files: Tree, pending: int, preserved: nat)

  ghost function Request(dir: Direction, l: Link, resolvedPaths: seq<Path>, selectedPaths: seq<Path>): SelectionResult {
    SelectionOf(View(l, dir), Scope(l), if dir.Import? then l.git else l.stack, resolvedPaths, selectedPaths)
  }

  /** `ready` says whether the repository state and, on import, the Compose files allow a transfer. The confirmation
      must name exactly the changes as they are now; only then is the request looked at. */
  ghost function DecisionOf(dir: Direction, l: Link, ready: bool, confirmed: Option<set<Entry>>,
                            resolvedPaths: seq<Path>, selectedPaths: seq<Path>): Decision
  {
    if !ready then Stop(NotReady)
    else if confirmed.None? then Stop(PreviewMissing)
    else if confirmed.value != Confirmable(View(l, dir), Scope(l)) then Stop(PreviewStale)
    else if Changes(View(l, dir), Scope(l)) == {} then NothingToDo
    else match Request(dir, l, resolvedPaths, selectedPaths)
      case Refused(error) => Stop(BadSelection(error))
      case Selected(files, pending) => Take(files, pending, |PreservedPaths(dir, View(l, dir), Scope(l))|)
  }

  /** What both directions do first: rebuild the preview, compare it with the confirmed one, select. */
  method Decide(dir: Direction, l: Link, ready: bool, confirmed: Option<set<Entry>>,
                resolvedPaths: seq<Path>, selectedPaths: seq<Path>)
    returns (d: Decision)
    ensures d == DecisionOf(dir, l, ready, confirmed, resolvedPaths, selectedPaths)
  {
    hide Verdicts, SelectionOf, Listed, Members, IsChange, Confirmable;
    if !ready { return Stop(NotReady); }
    ghost var v, within := View(l, dir), Scope(l);
    var pv;
    if dir.Import? {
      pv := BuildPreview(dir, l.git, l.stack, l.base);
    } else {
      pv := BuildPreview(dir, l.stack, l.git, l.base);
      assert within == Universe(l.stack, l.git, l.base);
    }
    if confirmed.None? { return Stop(PreviewMissing); }
    var token := TokenOf(pv, v, within);
    if confirmed.value != token { return Stop(PreviewStale); }
    if pv.changed == 0 { return NothingToDo; }
    var source := if dir.Import? then l.git else l.stack;
    var selection := SelectTransferFiles(pv, source, resolvedPaths, selectedPaths, v, within);
    if selection.Refused? { return Stop(BadSelection(selection.error)); }
    d := Take(selection.files, selection.remaining, pv.preserved);
  }

  /** What an unattended run settles before it imports: whether to go on, with which preview, around which stacks. */
  method PrepareUnattended(l: Link, active: seq<Path>) returns (proceed: bool, token: set<Entry>, held: set<Path>)
    ensures proceed <==> AutoProceeds(l, Members(active))
    ensures token == Confirmable(View(l, Direction.Import), Scope(l)) && held == HeldStacks(l, Members(active))
  {
    hide View, Confirmable, Members, Scope, HeldStacks;
    ghost var v, within := View(l, Direction.Import), Scope(l);
    var pv := BuildPreview(Direction.Import, l.git, l.stack, l.base);
    assert Reported(pv, Direction.Import, v, within) by { PreviewIsReport(pv, l); }
    token := TokenOf(pv, v, within);
    held := HeldBackStacks(pv, active, v, within);
    HeldAreActive(l, active, held);
    OpenDecisions(pv, l);
    assert Members(active) == {} <==> active == [] by { NoMembers(); if active != [] { HasMembers(active); } }
    proceed := active != []
         && !((pv.conflicts > 0 || pv.localDeletions > 0) && (held == {} || Members(active) - held == {}));
  }

  class FolderLink {
    var git: Tree
    var stack: Tree
    var baseline: Baseline
    var backups: map<nat, Kept>
    var nextBackup: nat
    /** Every Compose manifest known to the link, and those selected for it. */
    const catalogue: seq<Path>
    const selected: seq<Path>

    ghost predicate Valid()
      reads this
    {
      forall id :: id in backups ==> id < nextBackup && (backups[id].restorable ==> Consistent(backups[id].archive))
    }

    ghost function State(): Link
      reads this
    {
      Link(git, stack, baseline)
    }

    /** Backups of other kinds, and those that cannot be restored, come with the link. */
    constructor (git: Tree, stack: Tree, baseline: Baseline, catalogue: seq<Path>, selected: seq<Path>,
                 backups: map<nat, Kept>, nextBackup: nat)
      requires forall id :: id in backups ==>
                id < nextBackup && (backups[id].restorable ==> Consistent(backups[id].archive))
      ensures Valid() && State() == Link(git, stack, baseline)
      ensures this.catalogue == catalogue && this.selected == selected
      ensures this.backups == backups && this.nextBackup == nextBackup
    {
      this.git, this.stack, this.baseline, this.catalogue, this.selected := git, stack, baseline, catalogue, selected;
      this.backups, this.nextBackup := backups, nextBackup;
    }

    /** Writes in any order and stops at the first file that cannot be written, one of the `broken` ones. */
    method WriteStackFiles(files: Tree, broken: set<Path>) returns (ok: bool, ghost done: set<Path>)
      modifies this`stack
      ensures ok <==> forall p :: p in files && files[p].readable ==> p !in broken
      ensures done <= files.Keys && forall p :: p in done ==> files[p].readable
      ensures forall p :: Lookup(stack, p) == if p in done then Some(Written(files[p])) else Lookup(old(stack), p)
      ensures ok ==> stack == WriteFiles(old(stack), files) && forall p :: p in files && files[p].readable ==> p in done
    {
      hide Written;
      var todo := files.Keys;
      done := {};
      while todo != {}
        invariant todo <= files.Keys && done <= files.Keys - todo
        invariant forall p :: p in files && p !in todo && files[p].readable ==> p in done && p !in broken
        invariant forall p :: p in done ==> files[p].readable
        invariant forall p :: Lookup(stack, p) == if p in done then Some(Written(files[p])) else Lookup(old(stack), p)
      {
        var path :| path in todo;
        if !files[path].readable {
          todo := todo - {path};
          continue;
        }
        if path in broken { return false, done; }
        todo := todo - {path};
        stack := stack[path := Written(files[path])];
        done := done + {path};
      }
      SameLookups(stack, WriteFiles(old(stack), files));
      ok := true;
    }

    method WriteRepositoryFiles(files: Tree)
      modifies this`git
      ensures git == WriteFiles(old(git), files)
    {
      hide Written;
      var todo := files.Keys;
      while todo != {}
        invariant todo <= files.Keys
        invariant forall p :: Lookup(git, p) ==
                    if p in files && p !in todo && files[p].readable then Some(Written(files[p]))
                         else Lookup(old(git), p)
      {
        var path :| path in todo;
        todo := todo - {path};
        if !files[path].readable { continue; }
        git := git[path := Written(files[path])];
      }
      SameLookups(git, WriteFiles(old(git), files));
    }

    method KeepBackup(desired: ChangeSet, target: Tree, kind: BackupKind) returns (id: nat)
      requires Valid()
      modifies this`backups, this`nextBackup
      ensures Valid() && id == old(nextBackup) && id !in old(backups)
      ensures backups == old(backups)[id := Kept(ArchiveOf(desired, target, Members(catalogue)), kind, true)]
    {
      var archive := BackupChangedFiles(desired, target, catalogue);
      id := nextBackup;
      backups := backups[id := Kept(archive, kind, true)];
      nextBackup := nextBackup + 1;
    }

    /** Git onto the stack, as far as the run sees it. `setAside` holds the files of stacks that are being edited or
        whose Compose file is invalid, `heldBack` the stacks an unattended run must leave alone, `broken` the files that
        cannot be written. */
    method Import(sight: Sight, ready: bool, confirmed: Option<set<Entry>>, resolvedPaths: seq<Path>,
                  selectedPaths: seq<Path>, setAside: set<Path>, heldBack: set<Path>, broken: set<Path>)
      returns (r: TransferOutcome)
      requires Valid()
      modifies this
      ensures Valid() && git == old(git)
      // Nothing moves without the confirmation of exactly this preview.
      ensures var n := SeenLink(old(State()), sight);
              !r.TransferRefused? ==> confirmed == Some(Confirmable(View(n, Direction.Import), Scope(n)))
      ensures !r.Transferred? && !r.TransferBroken? ==>
                stack == old(stack) && backups == old(backups) && (!r.UpToDate? ==> baseline == old(baseline))
      ensures var n := SeenLink(old(State()), sight);
              match DecisionOf(Direction.Import, n, ready, confirmed, resolvedPaths, selectedPaths)
              case Stop(error) => r == TransferRefused(error)
              // Nothing to change: the baseline is replaced by what was seen of Git.
              case NothingToDo => r == UpToDate && State() == AfterQuietRun(old(State()), sight)
              case Take(files, pending, preserved) =>
                var left := Without(files - setAside, Members(selected), heldBack);
                if files == map[] then
                  r == (if preserved > 0 && pending == 0 then OnlyGitDeletions else TransferRefused(NothingSelected))
                else if left == map[] then r == AllSetAside
                else if StackFiles(left).Keys !! broken then r.Transferred? && r.files == left && r.pending == pending
                else r.TransferBroken? && r.files == left
      // The files taken are the approved ones, minus those of stacks set aside.
      ensures r.Transferred? ==>
                var n := SeenLink(old(State()), sight);
                && PartOf(r.files, Picked(n, Direction.Import, Members(resolvedPaths), Members(selectedPaths)))
                && State() == AfterSeenImport(old(State()), sight, r.files)
      // A write that stops leaves the baseline alone and part of the files written.
      ensures r.TransferBroken? ==>
                var n := SeenLink(old(State()), sight);
                && PartOf(r.files, Picked(n, Direction.Import, Members(resolvedPaths), Members(selectedPaths)))
                && baseline == old(baseline) && Partly(old(stack), stack, StackFiles(r.files))
      // What is overwritten is in the backup first.
      ensures r.Transferred? || r.TransferBroken? ==>
                if StackFiles(r.files) == map[] then r.backup == None && backups == old(backups)
                else && r.backup == Some(old(nextBackup))
                     && backups == old(backups)[old(nextBackup) :=
                          Kept(ArchiveOf(StackFiles(r.files), Seen(old(stack), sight), Members(catalogue)), PreImport,
                               true)]
      // Chosen paths bound the import, and readable contents are replaced only at their baseline or on request.
      ensures forall p :: Lookup(stack, p) != Lookup(old(stack), p) ==>
                && (selectedPaths == [] || p in selectedPaths) && p in stack
                && (p in old(stack) && old(stack)[p].readable ==>
                    Tracked(old(baseline), p) == Some(old(stack)[p].sha) || p in resolvedPaths)
    {
      hide View, WriteFiles, BaselineAfter, ArchiveOf, OwnedByAny, Picked, StackFiles, Confirmable, Members, DecisionOf;
      hide Seen, BaselineFromSource;
      var seenGit, seenStack := Seen(git, sight), Seen(stack, sight);
      var n := Link(seenGit, seenStack, baseline);
      DecisionIsPicked(Direction.Import, n, ready, confirmed, resolvedPaths, selectedPaths);
      var decision := Decide(Direction.Import, n, ready, confirmed, resolvedPaths, selectedPaths);
      if decision.Stop? { return TransferRefused(decision.error); }
      if decision.NothingToDo? {
        baseline := BaselineFromSource(seenGit);
        return UpToDate;
      }
      if decision.files == map[] {
        if decision.preserved > 0 && decision.pending == 0 { return OnlyGitDeletions; }
        return TransferRefused(NothingSelected);
      }
      var files, blocked := ExcludeHeldBackStacks(decision.files - setAside, selected, heldBack);
      if files == map[] { return AllSetAside; }
      AllReadable(n, files, Members(resolvedPaths), Members(selectedPaths));
      var ok, backup := TakeFiles(files, seenGit, seenStack, broken);
      if ok {
        SeenImportIsAChange(old(State()), sight, files, Members(resolvedPaths), Members(selectedPaths));
        assert Partly(old(stack), stack, StackFiles(files));
      }
      ImportSpares(old(State()), sight, files, resolvedPaths, selectedPaths, stack);
      r := if ok then Transferred(files, backup, decision.pending) else TransferBroken(files, backup);
    }

    /** The writing half of an import: backup, files, baseline. */
    method TakeFiles(files: Tree, seenGit: Tree, seenStack: Tree, broken: set<Path>)
      returns (ok: bool, backup: Option<nat>)
      requires Valid() && forall p :: p in StackFiles(files) ==> StackFiles(files)[p].readable
      modifies this
      ensures Valid() && git == old(git)
      ensures ok <==> StackFiles(files).Keys !! broken
      ensures ok ==> stack == WriteFiles(old(stack), StackFiles(files))
                     && baseline == BaselineAfter(old(baseline), seenGit, seenStack, files)
      ensures !ok ==> baseline == old(baseline) && Partly(old(stack), stack, StackFiles(files))
      ensures if StackFiles(files) == map[] then backup == None && backups == old(backups)
              else && backup == Some(old(nextBackup))
                   && backups == old(backups)[old(nextBackup) :=
                        Kept(ArchiveOf(StackFiles(files), seenStack, Members(catalogue)), PreImport, true)]
    {
      hide WriteFiles, BaselineAfter, ArchiveOf, StackFiles, Members;
      var stackFiles := StackFiles(files);
      backup := None;
      if stackFiles != map[] {
        var id := KeepBackup(stackFiles, seenStack, PreImport);
        backup := Some(id);
      }
      var nextBase := BaselineAfterTransfer(baseline, seenGit, seenStack, files);
      ghost var done;
      ok, done := WriteStackFiles(stackFiles, broken);
      if ok {
        baseline := nextBase;
      } else {
        WrittenPart(old(stack), stack, stackFiles, done);
      }
    }

    /** One unattended run over the `active` stacks: stops before any change, or imports around the open decisions. */
    method AutoImport(active: seq<Path>, extra: Path -> bool, ready: bool, setAside: set<Path>, broken: set<Path>)
      returns (r: Option<TransferOutcome>)
      requires Valid()
      modifies this
      ensures Valid() && git == old(git)
      ensures var n := SeenLink(old(State()), Only(Members(active), extra));
              r.Some? <==> AutoProceeds(n, Members(active))
      ensures r.None? || !ready ==> State() == old(State()) && backups == old(backups)
      ensures r.Some? && !ready ==> r.value == TransferRefused(NotReady)
      ensures ready ==>
                var sight := Only(Members(active), extra);
                var n := SeenLink(old(State()), sight);
                var files := AutoFiles(n, Members(active), Members(selected), setAside);
                && (r.Some? && r.value.TransferBroken? <==> r.Some? && !(StackFiles(files).Keys !! broken))
                && (if r.Some? && r.value.TransferBroken?
                    then baseline == old(baseline) && Partly(old(stack), stack, StackFiles(files))
                    else stack == AfterSeenImport(old(State()), sight, files).stack)
                && (r.Some? ==> !r.value.TransferRefused? || r.value.error == NothingSelected)
                && (r.Some? && r.value.UpToDate? ==> State() == AfterQuietRun(old(State()), sight))
                && (r.Some? && r.value.Transferred? ==>
                     r.value.files == files && State() == AfterSeenImport(old(State()), sight, files))
    {
      hide View, WriteFiles, BaselineAfter, ArchiveOf, Picked, Confirmable, Members, Scope, HeldStacks, OwnedByAny;
      hide AutoProceeds, DecisionOf, StackFiles, Seen, BaselineFromSource;
      var sight := Only(Members(active), extra);
      var n := Link(Seen(git, sight), Seen(stack, sight), baseline);
      UnattendedDecision(n);
      NothingWritten(State(), sight);
      var proceed, token, held := PrepareUnattended(n, active);
      if !proceed { return None; }
      var outcome := Import(sight, ready, Some(token), [], [], setAside, held, broken);
      r := Some(outcome);
    }

    /** The stack onto Git. The commit is made before it is pushed: when the push fails Git has the files and the
        baseline does not know. */
    method Export(ready: bool, confirmed: Option<set<Entry>>, resolvedPaths: seq<Path>, selectedPaths: seq<Path>,
                  messageOk: bool, pushed: bool)
      returns (r: TransferOutcome)
      requires Valid()
      modifies this
      ensures Valid() && stack == old(stack) && backups == old(backups)
      ensures State() != old(State()) ==>
                confirmed == Some(Confirmable(View(old(State()), Direction.Export), Scope(old(State()))))
      ensures match DecisionOf(Direction.Export, old(State()), ready, confirmed, resolvedPaths, selectedPaths)
              case Stop(error) => r == TransferRefused(error) && State() == old(State())
              case NothingToDo =>
                && r == UpToDate
                && State() == old(State()).(base := BaselineFromSourceKeepingControl(old(stack), old(baseline)))
              case Take(files, pending, _) =>
                if files == map[] then r == TransferRefused(NothingSelected) && State() == old(State())
                else if !messageOk then r == TransferRefused(BadMessage) && State() == old(State())
                else if !pushed then r == TransferRefused(PushFailed) && State() == AfterFailedPush(old(State()), files)
                else r == Transferred(files, None, pending) && State() == AfterExport(old(State()), files)
      ensures r.Transferred? ==>
                r.files == Picked(old(State()), Direction.Export, Members(resolvedPaths), Members(selectedPaths))
      // Chosen paths bound the export, and a readable Git file changes only where the baseline has it or on request.
      ensures forall p :: Lookup(git, p) != Lookup(old(git), p) ==>
                && (selectedPaths == [] || p in selectedPaths) && p in git
                && (p in old(git) && old(git)[p].readable ==>
                    Tracked(old(baseline), p) == Some(old(git)[p].sha) || p in resolvedPaths)
    {
      hide View, WriteFiles, BaselineAfter, Picked, Confirmable, Members, DecisionOf;
      DecisionIsPicked(Direction.Export, State(), ready, confirmed, resolvedPaths, selectedPaths);
      var decision := Decide(Direction.Export, Link(git, stack, baseline), ready, confirmed, resolvedPaths,
                             selectedPaths);
      if decision.Stop? { return TransferRefused(decision.error); }
      if decision.NothingToDo? {
        baseline := BaselineFromSourceKeepingControl(stack, baseline);
        return UpToDate;
      }
      if decision.files == map[] { return TransferRefused(NothingSelected); }
      if !messageOk { return TransferRefused(BadMessage); }
      var nextBase := BaselineAfterTransfer(baseline, stack, git, decision.files);
      WriteRepositoryFiles(decision.files);
      ExportSpares(old(State()), resolvedPaths, selectedPaths);
      if !pushed { return TransferRefused(PushFailed); }
      baseline := nextBase;
      r := Transferred(decision.files, None, decision.pending);
    }

    /** Plays the stored contents of the chosen paths back, then removes the ones that did not exist. It stops at
        contents that fail their check and at paths that cannot be written, the `broken` ones. */
    method ApplyBackupArchive(archive: Archive, chosen: set<Path>, actions: map<Path, Action>, broken: set<Path>)
      returns (ok: bool, ghost done: set<Path>)
      requires forall p :: p in chosen ==> p in archive.records && p in actions
      modifies this`stack
      ensures done <= chosen && forall p :: p !in done ==> Lookup(stack, p) == Lookup(old(stack), p)
      ensures Consistent(archive) && Faithful(archive, chosen, actions) ==>
                && (ok <==> chosen !! broken) && (ok ==> done == chosen)
                && stack == Apply(old(stack), DesiredBy(archive, chosen), done)
    {
      hide Written, SafeMode, Apply;
      var restored: set<Path>;
      ok, restored := ReplayContents(archive, chosen, actions, broken);
      done := restored;
      var todo := chosen;
      while ok && todo != {}
        invariant todo <= chosen && restored <= done <= chosen
        invariant forall p :: p in done && p !in restored ==> p !in todo && actions[p] == Remove
        invariant forall p :: Lookup(stack, p) ==
                    if p in restored && p in archive.contents then Some(RestoredFile(archive, p))
                    else if p in done then None
                    else Lookup(old(stack), p)
        invariant ok ==> forall p :: p in chosen && p !in todo && actions[p] in {Restore, Remove} ==> p in done
        invariant ok ==> done !! broken
        invariant !ok && Consistent(archive) && Faithful(archive, chosen, actions) ==> !(chosen !! broken)
        decreases ok, todo
      {
        var path :| path in todo;
        if actions[path] == Restore {
          if path !in restored { ok := false; } else { todo := todo - {path}; }
        } else if actions[path] == Remove {
          if path in broken {
            ok := false;
          } else {
            todo := todo - {path};
            stack := stack - {path};
            done := done + {path};
          }
        } else {
          todo := todo - {path};
        }
      }
      if Consistent(archive) && Faithful(archive, chosen, actions) {
        ReplayMatches(old(stack), stack, archive, chosen, actions, done);
      }
    }

    /** First pass over the archive. */
    method ReplayContents(archive: Archive, chosen: set<Path>, actions: map<Path, Action>, broken: set<Path>)
      returns (ok: bool, restored: set<Path>)
      requires forall p :: p in chosen ==> p in archive.records && p in actions
      modifies this`stack
      ensures restored <= chosen && restored !! broken
      ensures forall p :: p !in restored ==> Lookup(stack, p) == Lookup(old(stack), p)
      ensures forall p :: p in restored ==>
                p in archive.contents && actions[p] == Restore && Lookup(stack, p) == Some(RestoredFile(archive, p))
      ensures ok ==> forall p :: p in archive.contents && p in chosen && actions[p] == Restore ==> p in restored
      ensures Consistent(archive) && !ok ==> !(chosen !! broken)
    {
      hide Written, SafeMode;
      restored := {};
      var todo := archive.contents.Keys;
      while todo != {}
        invariant todo <= archive.contents.Keys
        invariant restored <= chosen && restored !! broken
        invariant forall p :: p !in restored ==> Lookup(stack, p) == Lookup(old(stack), p)
        invariant forall p :: p in restored ==>
                  p in archive.contents && actions[p] == Restore && Lookup(stack, p) == Some(RestoredFile(archive, p))
        invariant forall p :: p in archive.contents && p !in todo && p in chosen && actions[p] == Restore ==>
                  p in restored
      {
        var path :| path in todo;
        todo := todo - {path};
        if path !in chosen || actions[path] != Restore { continue; }
        if path in broken || archive.contents[path].sha != archive.records[path].beforeSha { return false, restored; }
        stack := stack[path := RestoredFile(archive, path)];
        restored := restored + {path};
      }
      ok := true;
    }

    /** Restores chosen paths of a backup, after taking a backup of what they are now. An empty choice stands for
        everything that can be restored; `editing` are the stacks with unsaved changes in the editor. */
    method RestoreBackup(id: nat, confirmed: map<Path, Action>, selectedPaths: set<Path>, editing: set<Path>,
                         broken: set<Path>)
      returns (r: RestoreOutcome)
      requires Valid()
      modifies this
      ensures Valid() && git == old(git) && baseline == old(baseline)
      ensures !r.RestoreRefused? <==>
                id in old(backups) && RestoreAccepted(old(backups)[id], old(stack), confirmed, selectedPaths, editing)
      ensures r.RestoreRefused? ==> stack == old(stack) && backups == old(backups)
      ensures !r.RestoreRefused? ==>
                var archive := old(backups)[id].archive;
                && r.paths == RestoreChoice(archive, old(stack), selectedPaths) && r.safety == old(nextBackup)
                && backups == old(backups)[r.safety :=
                     Kept(ArchiveOf(DesiredBy(archive, r.paths), old(stack), Members(catalogue)), PreRestore, true)]
                && (r.Restored? <==> r.paths !! broken)
                && (r.Restored? ==> stack == Replayed(old(stack), archive, r.paths))
                && (r.RestoreBroken? ==> Partly(old(stack), stack, DesiredBy(archive, r.paths)))
      // No stack that is being edited is touched, and no file that was edited since: only what stands where the
      // recorded change left it.
      ensures !r.RestoreRefused? ==> old(backups)[id].restorable && editing !! old(backups)[id].archive.composePaths
      ensures !r.RestoreRefused? ==> confirmed == RestoreEntries(old(backups)[id].archive, old(stack))
      ensures !r.RestoreRefused? ==>
                var records := old(backups)[id].archive.records;
                && r.paths != {} && (selectedPaths != {} ==> r.paths == selectedPaths)
                && (forall p :: p in r.paths ==>
                    p in records && Contents(old(stack), p) == Later(records[p]) && !Closed(old(stack), p))
                && (selectedPaths == {} ==>
                    forall p :: p in records && StandsAsLeft(records[p], old(stack), p) ==> p in r.paths)
                && (forall p :: Lookup(stack, p) != Lookup(old(stack), p) ==>
                    p in r.paths && Contents(stack, p) == Before(records[p]))
                && (r.Restored? ==> forall p :: p in r.paths ==> Contents(stack, p) == Before(records[p]))
    {
      hide Contents, ActionAt, SafeMode, Restorable;
      hide DesiredBy, ArchiveOf, RestoreEntries, RestorablePaths, StoredContents, Apply;
      if id !in backups || !backups[id].restorable { return RestoreRefused; }
      var archive := backups[id].archive;
      var entries, restorable, conflicts := PreviewBackupRestore(archive, stack);
      if confirmed != entries { return RestoreRefused; }
      var allowed := RestorablePaths(archive, stack);
      var chosen := if selectedPaths == {} then allowed else selectedPaths;
      if !(chosen <= allowed) || chosen == {} { return RestoreRefused; }
      if !(editing !! archive.composePaths) { return RestoreRefused; }
      OfferedActions(archive, stack, chosen);
      var current := map p | p in chosen && p in stack :: stack[p];
      CutKeepsTheArchive(DesiredBy(archive, chosen), stack, current, Members(catalogue), chosen);
      var safety := KeepBackup(DesiredBy(archive, chosen), current, PreRestore);
      var ok;
      ghost var done;
      ok, done := ApplyBackupArchive(archive, chosen, entries, broken);
      NamedByDesired(archive, chosen);
      assert Partly(old(stack), stack, DesiredBy(archive, chosen));
      RestoreSpares(archive, old(stack), chosen, done);
      OffersAll(archive, old(stack));
      r := if ok then Restored(chosen, safety) else RestoreBroken(chosen, safety);
    }

    /** Puts the files of one failed stack back, or refuses as a whole when one of them was edited since. A path that
        cannot be written stops it half way, and then, or when the baseline cannot be `saved`, the baseline stays. */
    method RollbackDeploymentFiles(id: nat, compose: Path, editing: set<Path>, broken: set<Path>, saved: bool)
      returns (ok: bool)
      requires Valid()
      modifies this
      ensures Valid() && git == old(git) && backups == old(backups)
      ensures !(id in old(backups) && RollbackAccepted(old(backups)[id], old(stack), compose, editing)) ==>
                !ok && State() == old(State())
      ensures id in old(backups) && RollbackAccepted(old(backups)[id], old(stack), compose, editing) ==>
                var archive := old(backups)[id].archive;
                var replay := ToReplay(archive, old(stack), OwnedRecords(archive, compose));
                && (ok <==> replay !! broken && saved)
                && (ok ==> State() == RolledBack(old(State()), archive, compose))
                && (!ok ==> baseline == old(baseline) && Partly(old(stack), stack, DesiredBy(archive, replay)))
      ensures State() != old(State()) ==>
                id in old(backups) && old(backups)[id].kind == PreImport && old(backups)[id].restorable
                && compose !in editing
    {
      hide RolledBackBase, Owns, RollbackAt, StoredContents, Apply, DesiredBy;
      if id !in backups || backups[id].kind != PreImport || !backups[id].restorable { return false; }
      if compose in editing { return false; }
      var archive := backups[id].archive;
      var refused, owned, actions := CollectRollback(archive, stack, compose);
      if refused || owned == {} { return false; }
      var selected := set p | p in owned && actions[p] in {Restore, Remove};
      assert selected == ToReplay(archive, stack, owned);
      ReplayedActions(archive, stack, owned);
      var applied;
      ghost var done;
      applied, done := ApplyBackupArchive(archive, selected, actions, broken);
      NamedByDesired(archive, selected);
      if !applied || !saved {
        assert Partly(old(stack), stack, DesiredBy(archive, selected));
        return false;
      }
      baseline := RestoreBaseline(archive, owned, baseline);
      ok := true;
    }

    method RemoveStackFiles(paths: set<Path>, broken: set<Path>) returns (ok: bool, ghost done: set<Path>)
      modifies this`stack
      ensures ok <==> paths !! broken
      ensures done <= paths && stack == old(stack) - done && (ok ==> done == paths)
    {
      var todo := paths;
      done := {};
      while todo != {}
        invariant done == paths - todo && todo <= paths && done !! broken
        invariant stack == old(stack) - done
      {
        var path :| path in todo;
        if path in broken { return false, done; }
        todo := todo - {path};
        stack := stack - {path};
        done := done + {path};
      }
      ok := true;
    }

    /** Rolls the picked paths of some stacks back to a commit; an empty choice stands for all of them. `composeValid`
        says whether the Compose files of the commit can be read. */
    method ApplyCommitRollback(commit: Tree, composePaths: seq<Path>, composeValid: bool,
                               confirmed: map<Path, CommitAction>, selectedPaths: set<Path>, editing: set<Path>,
                               broken: set<Path>)
      returns (r: RestoreOutcome)
      requires Valid()
      modifies this
      ensures Valid() && git == old(git) && baseline == old(baseline)
      ensures r.RestoreRefused? ==> stack == old(stack) && backups == old(backups)
      ensures !r.RestoreRefused? <==>
                && composeValid && CommitAccepted(Members(composePaths), commit, old(stack), confirmed, selectedPaths)
                && editing !! TouchedStacks(Members(composePaths),
                                            CommitChoice(Members(composePaths), commit, old(stack), selectedPaths))
      ensures !r.RestoreRefused? ==>
                var change := CommitChange(Members(composePaths), commit, old(stack), r.paths);
                && r.paths == CommitChoice(Members(composePaths), commit, old(stack), selectedPaths)
                && r.safety == old(nextBackup)
                && backups == old(backups)[r.safety :=
                     Kept(ArchiveOf(change, old(stack), Members(catalogue)), PreCommitRollback, true)]
                && (r.Restored? <==> r.paths !! broken)
                && (r.Restored? ==> stack == Apply(old(stack), change, r.paths))
                && (r.RestoreBroken? ==> Partly(old(stack), stack, change))
      // The paths are differences from the commit that a chosen stack owns, all of them unless some were listed; each
      // gets what the commit has, and nothing else changes.
      ensures !r.RestoreRefused? ==>
                && composeValid && r.paths != {} && (selectedPaths != {} ==> r.paths == selectedPaths)
                && (forall p :: DiffersFrom(Members(composePaths), commit, old(stack), p) ==>
                    p in confirmed && confirmed[p] == if p in commit then Bring else Drop)
                && (forall p :: p in confirmed && Moves(confirmed[p]) ==>
                    DiffersFrom(Members(composePaths), commit, old(stack), p))
                && (forall p :: p in r.paths ==> DiffersFrom(Members(composePaths), commit, old(stack), p))
                && (selectedPaths == {} ==>
                    forall p :: DiffersFrom(Members(composePaths), commit, old(stack), p) ==> p in r.paths)
                && (forall p, c :: p in r.paths && Owns(Members(composePaths), c, p) ==> c !in editing)
                && (forall p :: p !in r.paths ==> Lookup(stack, p) == Lookup(old(stack), p))
                && (r.Restored? ==> forall p :: p in r.paths ==> Contents(stack, p) == Contents(commit, p))
    {
      hide CommitActionAt, ArchiveOf, Apply, WriteFiles, IsCommitPreview, CommitChange, Members, CommitChoice;
      hide MovingPaths, CommitAccepted, TouchedStacks, Partly, DiffersFrom, Contents, Owns;
      ghost var chosen := Members(composePaths);
      var pv := BuildCommitRollbackPreview(composePaths, commit, stack);
      var ok, selected, desired := ChooseCommitPaths(pv, commit, stack, confirmed, selectedPaths, chosen);
      if !composeValid || !ok { return RestoreRefused; }
      var affected := StacksOf(composePaths, selected);
      if !(editing !! affected) { return RestoreRefused; }
      var current := map p | p in selected && p in stack :: stack[p];
      CutKeepsTheArchive(desired, stack, current, Members(catalogue), selected);
      var safety := KeepBackup(desired, current, PreCommitRollback);
      ghost var written, removed: set<Path> := {}, {};
      ok, written := WriteStackFiles(desired, broken);
      var dropped := set p | p in desired && !desired[p].readable;
      if ok {
        ok, removed := RemoveStackFiles(dropped, broken);
      }
      WriteThenRemove(old(stack), stack, desired, written, removed);
      assert ok ==> written + removed == selected;
      CommitPathsDiffer(chosen, commit, old(stack), confirmed, selectedPaths, editing);
      CommitReachesAll(chosen, commit, old(stack), selected, written + removed);
      r := if ok then Restored(selected, safety) else RestoreBroken(selected, safety);
    }
  }

  // ----- supporting facts -----

  /** A confirmation stands for the changes one by one: two links are confirmed by the same one exactly when every path
      that either lists as a change has the same verdict in both. */
  lemma ConfirmsExactly(l: Link, n: Link, dir: Direction)
    ensures Confirmable(View(l, dir), Scope(l)) == Confirmable(View(n, dir), Scope(n)) <==>
            forall p :: IsChange(View(l, dir)(p)) || IsChange(View(n, dir)(p)) ==> View(l, dir)(p) == View(n, dir)(p)
  {
    hide Verdicts, IsChange;
    var a, b := Confirmable(View(l, dir), Scope(l)), Confirmable(View(n, dir), Scope(n));
    forall p
      ensures IsChange(View(l, dir)(p)) <==> View(l, dir)(p).Emit? && View(l, dir)(p).entry in a
                                             && View(l, dir)(p).entry.path == p
      ensures IsChange(View(n, dir)(p)) <==> View(n, dir)(p).Emit? && View(n, dir)(p).entry in b
                                             && View(n, dir)(p).entry.path == p
    {
      ConfirmedEntry(l, dir, p);
      ConfirmedEntry(n, dir, p);
    }
    forall e ensures e in a ==> View(l, dir)(e.path) == Emit(e) && IsChange(View(l, dir)(e.path))
             ensures e in b ==> View(n, dir)(e.path) == Emit(e) && IsChange(View(n, dir)(e.path)) {
      EntryOfConfirmed(l, dir, e);
      EntryOfConfirmed(n, dir, e);
    }
  }

  lemma ConfirmedEntry(l: Link, dir: Direction, p: Path)
    ensures var v, token := View(l, dir)(p), Confirmable(View(l, dir), Scope(l));
            IsChange(v) <==> v.Emit? && v.entry in token && v.entry.path == p
  {
    hide Verdicts;
    VerdictShape(l, dir, p);
  }

  lemma EntryOfConfirmed(l: Link, dir: Direction, e: Entry)
    ensures e in Confirmable(View(l, dir), Scope(l)) ==>
              View(l, dir)(e.path) == Emit(e) && IsChange(View(l, dir)(e.path))
  {
    hide Verdicts;
    if e in Confirmable(View(l, dir), Scope(l)) {
      var p :| p in Scope(l) && IsChange(View(l, dir)(p)) && View(l, dir)(p).entry == e;
      VerdictShape(l, dir, p);
    }
  }

  /** What was confirmed is what is written: if the link has moved on but the confirmation still holds, the same files
      are taken, with the same contents, over the same contents. */
  lemma ConfirmationPinsTheTransfer(seen: Link, now: Link, dir: Direction, resolved: set<Path>, chosen: set<Path>,
                                    p: Path)
    requires Confirmable(View(seen, dir), Scope(seen)) == Confirmable(View(now, dir), Scope(now)) && !IsControl(p)
    ensures p in Picked(now, dir, resolved, chosen) <==> p in Picked(seen, dir, resolved, chosen)
    ensures p in Picked(now, dir, resolved, chosen) ==>
              && Picked(now, dir, resolved, chosen)[p].sha == Picked(seen, dir, resolved, chosen)[p].sha
              && HashOr(Contents(now.git, p), "") == HashOr(Contents(seen.git, p), "")
              && HashOr(Contents(now.stack, p), "") == HashOr(Contents(seen.stack, p), "")
  {
    hide IsControl, Verdicts, Confirmable, Picked, Shut, Contents;
    ConfirmsExactly(seen, now, dir);
    PickedIsChange(seen, dir, resolved, chosen, p);
    PickedIsChange(now, dir, resolved, chosen, p);
    EntryShowsBothSides(seen, p);
    EntryShowsBothSides(now, p);
  }

  lemma PickedIsChange(l: Link, dir: Direction, resolved: set<Path>, chosen: set<Path>, p: Path)
    requires !IsControl(p)
    ensures var v := View(l, dir)(p);
            && (p in Picked(l, dir, resolved, chosen) <==>
                IsChange(v) && v.entry.status in {Add, Modify, Conflict} && (chosen == {} || p in chosen)
                && (v.entry.status.Conflict? ==> p in resolved && v.entry.kind != SourceDeletedDestinationChanged))
            && (p in Picked(l, dir, resolved, chosen) ==>
                Picked(l, dir, resolved, chosen)[p].sha == v.entry.sourceSha)
  {
    hide IsControl, Verdicts, Picked, Scope;
    PickedAt(l, dir, resolved, chosen, p);
    VerdictShape(l, dir, p);
    SourceOfChange(l, dir, p);
    if p in Picked(l, dir, resolved, chosen) { PickedPayload(l, dir, resolved, chosen, p); }
  }

  lemma PickedPayload(l: Link, dir: Direction, resolved: set<Path>, chosen: set<Path>, p: Path)
    requires p in Picked(l, dir, resolved, chosen) && View(l, dir)(p).Emit? && View(l, dir)(p).entry.path == p
    requires !View(l, dir)(p).entry.status.RemoveControl?
    ensures var source := if dir.Import? then l.git else l.stack;
            p in source && Picked(l, dir, resolved, chosen)[p] == source[p]
  {
    hide Verdicts;
  }

  lemma SourceOfChange(l: Link, dir: Direction, p: Path)
    requires !IsControl(p)
    ensures var v, source := View(l, dir)(p), if dir.Import? then l.git else l.stack;
            v.Emit? ==>
              && !v.entry.status.RemoveControl?
              && (v.entry.status in {Add, Modify, Conflict} ==>
                  if v.entry.kind == SourceDeletedDestinationChanged then p !in source && v.entry.status.Conflict?
                  else p in source && source[p].readable && v.entry.sourceSha == source[p].sha)
  {
    hide IsControl, Blocker;
  }

  /** When a transfer has nothing to do, and when it takes files. */
  lemma DecisionsExactly(dir: Direction, l: Link, ready: bool, confirmed: Option<set<Entry>>,
                         resolvedPaths: seq<Path>, selectedPaths: seq<Path>)
    ensures var d := DecisionOf(dir, l, ready, confirmed, resolvedPaths, selectedPaths);
            var current := ready && confirmed == Some(Confirmable(View(l, dir), Scope(l)));
            && (d.NothingToDo? <==> current && forall p :: !IsChange(View(l, dir)(p)))
            && (d.Take? <==> current && (exists p :: IsChange(View(l, dir)(p)))
                             && Request(dir, l, resolvedPaths, selectedPaths).Selected?)
            && (d.Take? ==> (d.preserved > 0 <==> exists p :: IsPreserved(dir, View(l, dir)(p))))
  {
    hide Verdicts, Confirmable, IsChange, SelectionOf, IsPreserved;
    forall p ensures IsChange(View(l, dir)(p)) <==> p in Changes(View(l, dir), Scope(l))
             ensures IsPreserved(dir, View(l, dir)(p)) <==> p in PreservedPaths(dir, View(l, dir), Scope(l)) {
      VerdictShape(l, dir, p);
    }
  }

  /** However far the write of an import got. */
  lemma ImportSpares(l: Link, sight: Sight, files: Tree, resolvedPaths: seq<Path>, selectedPaths: seq<Path>,
                     after: Tree)
    requires PartOf(files, Picked(SeenLink(l, sight), Direction.Import, Members(resolvedPaths), Members(selectedPaths)))
    requires Partly(l.stack, after, StackFiles(files))
    ensures forall p :: Lookup(after, p) != Lookup(l.stack, p) ==>
              && (selectedPaths == [] || p in selectedPaths) && p in after
              && (p in l.stack && l.stack[p].readable ==>
                  Tracked(l.base, p) == Some(l.stack[p].sha) || p in resolvedPaths)
  {
    hide Picked, IsControl, InSight, Seen, SafeMode, Apply, Verdicts, StackFiles, Partly;
    var n := SeenLink(l, sight);
    var resolved, chosen := Members(resolvedPaths), Members(selectedPaths);
    var done := DoneOf(l.stack, after, StackFiles(files));
    ApplyLooksUp(l.stack, StackFiles(files), done);
    if selectedPaths != [] { HasMembers(selectedPaths); }
    forall p | Lookup(after, p) != Lookup(l.stack, p)
      ensures (selectedPaths == [] || p in selectedPaths) && p in after
      ensures p in l.stack && l.stack[p].readable ==>
                Tracked(l.base, p) == Some(l.stack[p].sha) || p in resolvedPaths
    {
      assert Lookup(after, p) == AfterApply(l.stack, StackFiles(files), done, p);
      WithinStackFiles(files, n, resolved, chosen, p);
      ImportTakes(n, resolved, chosen, p);
      TakenIsInSight(l, sight, resolved, chosen, p);
      if chosen != {} && p !in chosen {
        ChoiceBoundsTheTransfer(n, Direction.Import, files, resolved, chosen, p);
      }
      if p in l.stack && l.stack[p].readable { SeenAt(l.stack, sight, p); }
    }
  }

  lemma DoneOf(before: Tree, after: Tree, desired: ChangeSet) returns (done: set<Path>)
    requires Partly(before, after, desired)
    ensures done <= desired.Keys && after == Apply(before, desired, done)
  {
    hide Apply;
    done :| done <= desired.Keys && after == Apply(before, desired, done);
  }

  lemma WithinStackFiles(files: Tree, n: Link, resolved: set<Path>, chosen: set<Path>, p: Path)
    requires PartOf(files, Picked(n, Direction.Import, resolved, chosen)) && p in StackFiles(files)
    ensures p in files && p in StackFiles(Picked(n, Direction.Import, resolved, chosen))
    ensures StackFiles(files)[p] == Picked(n, Direction.Import, resolved, chosen)[p]
  {
    hide Picked, IsControl;
  }

  lemma ExportSpares(l: Link, resolvedPaths: seq<Path>, selectedPaths: seq<Path>)
    ensures var files := Picked(l, Direction.Export, Members(resolvedPaths), Members(selectedPaths));
            var after := AfterExport(l, files).git;
            forall p :: Lookup(after, p) != Lookup(l.git, p) ==>
              && (selectedPaths == [] || p in selectedPaths) && p in after
              && (p in l.git && l.git[p].readable ==>
                  Tracked(l.base, p) == Some(l.git[p].sha) || p in resolvedPaths)
  {
    hide Picked, WriteFiles, BaselineAfter, Verdicts;
    var resolved, chosen := Members(resolvedPaths), Members(selectedPaths);
    var files := Picked(l, Direction.Export, resolved, chosen);
    if selectedPaths != [] { HasMembers(selectedPaths); }
    forall p | Lookup(AfterExport(l, files).git, p) != Lookup(l.git, p)
      ensures (selectedPaths == [] || p in selectedPaths) && p in AfterExport(l, files).git
      ensures p in l.git && l.git[p].readable ==>
                Tracked(l.base, p) == Some(l.git[p].sha) || p in resolvedPaths
    {
      ExportLosesNoUpdate(l, resolved, chosen, p);
      if chosen != {} && p !in chosen {
        ChoiceBoundsTheTransfer(l, Direction.Export, files, resolved, chosen, p);
      }
    }
  }

  lemma DecisionIsPicked(dir: Direction, l: Link, ready: bool, confirmed: Option<set<Entry>>,
                         resolvedPaths: seq<Path>, selectedPaths: seq<Path>)
    ensures var d := DecisionOf(dir, l, ready, confirmed, resolvedPaths, selectedPaths);
            && (d.Take? ==> d.files == Picked(l, dir, Members(resolvedPaths), Members(selectedPaths)))
            && (!d.Stop? ==> confirmed == Some(Confirmable(View(l, dir), Scope(l))))
  {
    hide Verdicts, AllConflicts, AllTransferable, Selection, Members, Confirmable;
  }

  lemma PreviewIsReport(pv: TransferPreview, l: Link)
    requires IsPreview(pv, Direction.Import, l.git, l.stack, l.base)
    ensures Reported(pv, Direction.Import, View(l, Direction.Import), Scope(l))
  {
    hide Reported, Verdicts;
  }

  lemma HeldAreActive(l: Link, active: seq<Path>, held: set<Path>)
    requires forall c :: c in held <==> HeldBack(View(l, Direction.Import), Scope(l), Members(active), c)
    ensures held == HeldStacks(l, Members(active))
  {
    hide View, Scope, NeedsDecision;
    assert forall c, p :: Owns(Members(active), c, p) ==> c in Members(active);
  }

  lemma OpenDecisions(pv: TransferPreview, l: Link)
    requires Reported(pv, Direction.Import, View(l, Direction.Import), Scope(l))
    ensures pv.conflicts > 0 || pv.localDeletions > 0 <==>
            OpenConflicts(l, Direction.Import) + LocalDeletions(Direction.Import, View(l, Direction.Import),
                                                                Scope(l)) != {}
  {
    hide View, Scope, Listed, IsConflict, IsLocalDeletion;
  }

  /** The unattended request is never refused as such, and it takes every plain change. */
  lemma UnattendedDecision(l: Link)
    ensures var token := Confirmable(View(l, Direction.Import), Scope(l));
            var d := DecisionOf(Direction.Import, l, true, Some(token), [], []);
            || (d.NothingToDo? && Picked(l, Direction.Import, {}, {}) == map[])
            || (d.Take? && d.files == Picked(l, Direction.Import, {}, {}))
    ensures forall c, rs, ps :: DecisionOf(Direction.Import, l, false, c, rs, ps) == Stop(NotReady)
  {
    hide Verdicts, Confirmable, IsControl;
    NoMembers();
    forall p | p in Picked(l, Direction.Import, {}, {}) ensures p in Changes(View(l, Direction.Import), Scope(l)) {
      PickedAt(l, Direction.Import, {}, {}, p);
    }
  }

  lemma NoMembers()
    ensures Members([]) == {}
  {
  }

  lemma HasMembers(paths: seq<Path>)
    requires paths != []
    ensures Members(paths) != {}
  {
    assert paths[0] in Members(paths);
  }

  lemma NothingWritten(l: Link, sight: Sight)
    ensures AfterSeenImport(l, sight, map[]).stack == l.stack && StackFiles(map[]) == map[]
  {
    hide BaselineAfter, Seen;
  }

  function RestoredFile(archive: Archive, p: Path): File
    requires p in archive.contents
  {
    Written(File(archive.contents[p].sha, archive.contents[p].mode, true, "", false))
  }

  /** Every chosen path is played back the way its record says. */
  ghost predicate Faithful(archive: Archive, chosen: set<Path>, actions: map<Path, Action>)
    requires forall p :: p in chosen ==> p in archive.records && p in actions
  {
    forall p :: p in chosen ==> actions[p] == if archive.records[p].beforeExists then Restore else Remove
  }

  function RestoreChoice(archive: Archive, tree: Tree, selectedPaths: set<Path>): set<Path> {
    if selectedPaths == {} then RestorablePaths(archive, tree) else selectedPaths
  }

  /** The backup can be restored, the confirmed preview still holds, the choice is non-empty and restorable, and no
      stack of the backup is being edited. */
  ghost predicate RestoreAccepted(kept: Kept, tree: Tree, confirmed: map<Path, Action>, selectedPaths: set<Path>,
                                  editing: set<Path>)
  {
    && kept.restorable
    && confirmed == RestoreEntries(kept.archive, tree)
    && RestoreChoice(kept.archive, tree, selectedPaths) != {}
    && RestoreChoice(kept.archive, tree, selectedPaths) <= RestorablePaths(kept.archive, tree)
    && editing !! kept.archive.composePaths
  }

  /** The backup was taken for an import, the stack is not being edited, it owns a record and none of them clashes. */
  ghost predicate RollbackAccepted(kept: Kept, tree: Tree, compose: Path, editing: set<Path>) {
    && kept.kind == PreImport && kept.restorable && compose !in editing
    && RollbackAllowed(kept.archive, tree, OwnedRecords(kept.archive, compose))
  }

  lemma OfferedActions(archive: Archive, tree: Tree, chosen: set<Path>)
    requires chosen <= RestorablePaths(archive, tree)
    ensures forall p :: p in chosen ==> p in archive.records && p in RestoreEntries(archive, tree)
    ensures Faithful(archive, chosen, RestoreEntries(archive, tree))
    ensures DesiredBy(archive, chosen).Keys <= chosen
  {
    forall p | p in chosen
      ensures p in archive.records
      ensures ActionAt(archive, tree, p) == if archive.records[p].beforeExists then Restore else Remove
    {
      assert Restorable(archive, tree, p);
    }
  }

  lemma ReplayedActions(archive: Archive, tree: Tree, owned: set<Path>)
    requires owned <= archive.records.Keys
    ensures forall p :: p in ToReplay(archive, tree, owned) ==>
              p in archive.records && RollbackAt(archive, tree, p) == if archive.records[p].beforeExists then Restore
                   else Remove
  {
  }

  method RestoreBaseline(archive: Archive, owned: set<Path>, base: Baseline) returns (next: Baseline)
    requires owned <= archive.records.Keys
    ensures next == RolledBackBase(archive, owned, base)
  {
    next := base;
    var todo := owned;
    while todo != {}
      invariant todo <= owned
      invariant forall p :: Tracked(next, p) == if p in todo then Tracked(base, p)
                else BaseBefore(archive, owned, base, p)
    {
      var path :| path in todo;
      todo := todo - {path};
      if archive.records[path].beforeExists {
        next := next[path := archive.records[path].beforeSha];
      } else {
        next := next - {path};
      }
    }
    RolledBackBaseTracks(archive, owned, base);
    SameTracking(next, RolledBackBase(archive, owned, base));
  }

  ghost function MovingPaths(chosen: set<Path>, commit: Tree, current: Tree): set<Path> {
    set p | p in commit.Keys + current.Keys && Moves(CommitActionAt(chosen, commit, current, p))
  }

  /** The paths a commit rollback works on: the listed ones, or without a list all that change. */
  ghost function CommitChoice(chosen: set<Path>, commit: Tree, current: Tree, selectedPaths: set<Path>): set<Path> {
    if selectedPaths == {} then MovingPaths(chosen, commit, current) else selectedPaths
  }

  /** The confirmed preview still holds, and the choice is not empty and names changing paths only. */
  ghost predicate CommitAccepted(chosen: set<Path>, commit: Tree, current: Tree, confirmed: map<Path, CommitAction>,
                                 selectedPaths: set<Path>) {
    && (forall p :: p in confirmed <==> CommitActionAt(chosen, commit, current, p) != OutOfScope)
    && (forall p :: p in confirmed ==> confirmed[p] == CommitActionAt(chosen, commit, current, p))
    && CommitChoice(chosen, commit, current, selectedPaths) != {}
    && CommitChoice(chosen, commit, current, selectedPaths) <= MovingPaths(chosen, commit, current)
  }

  method ChooseCommitPaths(pv: CommitPreview, commit: Tree, current: Tree, confirmed: map<Path, CommitAction>,
                           selectedPaths: set<Path>,
                           ghost chosen: set<Path>)
    returns (ok: bool, selected: set<Path>, desired: ChangeSet)
    requires IsCommitPreview(pv, chosen, commit, current)
    ensures ok <==> CommitAccepted(chosen, commit, current, confirmed, selectedPaths)
    ensures ok ==> selected == CommitChoice(chosen, commit, current, selectedPaths)
    ensures ok ==> desired == CommitChange(chosen, commit, current, selected) && desired.Keys == selected
  {
    hide CommitActionAt, IsCommitPreview;
    PreviewedActions(pv, chosen, commit, current);
    BroughtIsInCommit(chosen, commit, current);
    desired := map[];
    var changing := set p | p in pv.entries && Moves(pv.entries[p]);
    assert changing == MovingPaths(chosen, commit, current);
    selected := if selectedPaths == {} then changing else selectedPaths;
    ok := confirmed == pv.entries && selected <= changing && selected != {};
    if ok {
      desired := map p | p in selected :: if pv.entries[p] == Bring then commit[p] else GONE;
    }
  }

  /** Files written first and removals made after them carry out the change on just those paths. */
  lemma WriteThenRemove(before: Tree, after: Tree, desired: ChangeSet, written: set<Path>, removed: set<Path>)
    requires written <= desired.Keys && removed <= desired.Keys
    requires forall p :: p in written ==> desired[p].readable
    requires forall p :: p in removed ==> !desired[p].readable
    requires forall p :: Lookup(after, p) ==
               if p in removed then None else if p in written then Some(Written(desired[p])) else Lookup(before, p)
    ensures after == Apply(before, desired, written + removed) && Partly(before, after, desired)
  {
    hide Written, Apply;
    var done := written + removed;
    ApplyLooksUp(before, desired, done);
    forall p ensures Lookup(after, p) == Lookup(Apply(before, desired, done), p) {
      assert Lookup(Apply(before, desired, done), p) == AfterApply(before, desired, done, p);
    }
    SameLookups(after, Apply(before, desired, done));
    assert done <= desired.Keys;
  }

  lemma WrittenPart(before: Tree, after: Tree, desired: ChangeSet, done: set<Path>)
    requires done <= desired.Keys && forall p :: p in done ==> desired[p].readable
    requires forall p :: Lookup(after, p) == if p in done then Some(Written(desired[p])) else Lookup(before, p)
    ensures Partly(before, after, desired)
  {
    hide Written;
    WriteThenRemove(before, after, desired, done, {});
  }

  lemma AllReadable(n: Link, files: Tree, resolved: set<Path>, chosen: set<Path>)
    requires PartOf(files, Picked(n, Direction.Import, resolved, chosen))
    ensures forall p :: p in StackFiles(files) ==> StackFiles(files)[p].readable
  {
    hide Picked, IsControl;
    forall p | p in StackFiles(files) ensures StackFiles(files)[p].readable {
      ImportTakes(n, resolved, chosen, p);
    }
  }

  lemma NamedByDesired(archive: Archive, chosen: set<Path>)
    requires chosen <= archive.records.Keys
    ensures DesiredBy(archive, chosen).Keys == chosen
  {
  }

  lemma ReplayMatches(before: Tree, after: Tree, archive: Archive, chosen: set<Path>, actions: map<Path, Action>,
                      done: set<Path>)
    requires forall p :: p in chosen ==> p in archive.records && p in actions
    requires Consistent(archive) && Faithful(archive, chosen, actions) && done <= chosen
    requires forall p :: p !in done ==> Lookup(after, p) == Lookup(before, p)
    requires forall p :: p in done && actions[p] == Restore ==>
              p in archive.contents && Lookup(after, p) == Some(RestoredFile(archive, p))
    requires forall p :: p in done && actions[p] == Remove ==> p !in after
    ensures after == Apply(before, DesiredBy(archive, chosen), done)
    ensures done <= DesiredBy(archive, chosen).Keys
  {
    hide Written, Apply;
    ApplyLooksUp(before, DesiredBy(archive, chosen), done);
    forall p ensures Lookup(after, p) == Lookup(Apply(before, DesiredBy(archive, chosen), done), p) {
      assert Lookup(Apply(before, DesiredBy(archive, chosen), done), p) ==
             AfterApply(before, DesiredBy(archive, chosen), done, p);
    }
    SameLookups(after, Apply(before, DesiredBy(archive, chosen), done));
  }

  /** Recording against the chosen part of the tree is recording against the tree. */
  lemma CutKeepsTheArchive(desired: ChangeSet, tree: Tree, cut: Tree, catalogue: set<Path>, chosen: set<Path>)
    requires desired.Keys <= chosen
    requires forall p :: p in cut <==> p in chosen && p in tree
    requires forall p :: p in cut ==> cut[p] == tree[p]
    ensures ArchiveOf(desired, cut, catalogue) == ArchiveOf(desired, tree, catalogue)
  {
    hide TouchedStacks, SafeMode;
    assert Records(desired, cut) == Records(desired, tree);
  }

  /** First half of a deployment rollback: what each owned file needs, or that one of them refuses. */
  method CollectRollback(archive: Archive, stack: Tree, compose: Path)
    returns (refused: bool, owned: set<Path>, actions: map<Path, Action>)
    ensures refused <==> exists p :: p in OwnedRecords(archive, compose) && RollbackAt(archive, stack, p) == Clash
    ensures !refused ==> owned == OwnedRecords(archive, compose) && actions.Keys == owned
    ensures !refused ==> forall p :: p in owned ==> actions[p] == RollbackAt(archive, stack, p)
  {
    hide Owns, RollbackAt;
    refused, owned, actions := false, {}, map[];
    var names := ListOf(archive.composePaths);
    assert Members(names) == archive.composePaths;
    var todo := archive.records.Keys;
    while todo != {}
      invariant todo <= archive.records.Keys
      invariant forall p :: p in owned <==> p in archive.records && p !in todo && Owns(archive.composePaths, compose, p)
      invariant forall p :: p in actions <==> p in owned
      invariant forall p :: p in owned ==> actions[p] == RollbackAt(archive, stack, p) != Clash
    {
      var path :| path in todo;
      todo := todo - {path};
      var owners := ComposePathsForFile(names, path);
      if compose !in owners { continue; }
      var action := DecideRollback(archive, stack, path);
      if action == Clash {
        assert path in OwnedRecords(archive, compose);
        return true, owned, actions;
      }
      owned := owned + {path};
      actions := actions[path := action];
    }
    assert owned == OwnedRecords(archive, compose);
  }

  method DecideRollback(archive: Archive, stack: Tree, path: Path) returns (action: Action)
    requires path in archive.records
    ensures action == RollbackAt(archive, stack, path)
  {
    var record := archive.records[path];
    match CurrentOf(stack, path) {
      case Unsupported => return Clash;
      case Present(sha) =>
        if record.beforeExists && record.afterExists && sha == record.beforeSha { return Noop; }
        if record.beforeExists && record.afterExists && sha == record.afterSha { return Restore; }
        if !record.beforeExists && record.afterExists && sha == record.afterSha { return Remove; }
      case Missing =>
        if record.beforeExists && !record.afterExists { return Restore; }
        if !record.beforeExists { return Noop; }
    }
    return Clash;
  }

  lemma OffersAll(archive: Archive, tree: Tree)
    ensures forall p :: p in archive.records && StandsAsLeft(archive.records[p], tree, p) ==>
              p in RestorablePaths(archive, tree)
  {
    hide Contents, Before, Later, ActionAt;
    forall p | p in archive.records { ActionsExactly(archive, tree, p); }
  }

  lemma RestoreSpares(archive: Archive, tree: Tree, chosen: set<Path>, done: set<Path>)
    requires chosen <= RestorablePaths(archive, tree) && done <= chosen
    ensures var after := Apply(tree, DesiredBy(archive, chosen), done);
            && (forall p :: p in chosen ==>
                p in archive.records && Contents(tree, p) == Later(archive.records[p]) && !Closed(tree, p))
            && (forall p :: p in done ==> Contents(after, p) == Before(archive.records[p]))
            && (forall p :: p !in done ==> Lookup(after, p) == Lookup(tree, p))
  {
    hide RestorablePaths, Apply, DesiredBy, Contents, Before, Later;
    forall p { RestoreSparesEdits(archive, tree, chosen, done, p); }
    forall p | p in chosen
      ensures p in archive.records && Contents(tree, p) == Later(archive.records[p]) && !Closed(tree, p)
    {
      RestoreSparesEdits(archive, tree, chosen, chosen, p);
    }
  }

  lemma CommitPathsDiffer(chosen: set<Path>, commit: Tree, current: Tree, confirmed: map<Path, CommitAction>,
                          selectedPaths: set<Path>, editing: set<Path>)
    requires CommitAccepted(chosen, commit, current, confirmed, selectedPaths)
    requires editing !! TouchedStacks(chosen, CommitChoice(chosen, commit, current, selectedPaths))
    ensures var paths := CommitChoice(chosen, commit, current, selectedPaths);
            && paths != {} && (selectedPaths != {} ==> paths == selectedPaths)
            && paths <= MovingPaths(chosen, commit, current)
            && (forall p :: DiffersFrom(chosen, commit, current, p) ==>
                p in confirmed && confirmed[p] == if p in commit then Bring else Drop)
            && (forall p :: p in confirmed && Moves(confirmed[p]) ==> DiffersFrom(chosen, commit, current, p))
            && (forall p :: p in paths ==> DiffersFrom(chosen, commit, current, p))
            && (selectedPaths == {} ==> forall p :: DiffersFrom(chosen, commit, current, p) ==> p in paths)
            && (forall p, c :: p in paths && Owns(chosen, c, p) ==> c !in editing)
  {
    hide CommitActionAt, Covers;
    forall p
      ensures p in MovingPaths(chosen, commit, current) <==> DiffersFrom(chosen, commit, current, p)
      ensures DiffersFrom(chosen, commit, current, p) ==>
                p in confirmed && confirmed[p] == if p in commit then Bring else Drop
      ensures p in confirmed && Moves(confirmed[p]) ==> DiffersFrom(chosen, commit, current, p)
    {
      CommitActionsExactly(chosen, commit, current, p);
    }
  }

  lemma CommitReaches(chosen: set<Path>, commit: Tree, current: Tree, selected: set<Path>, done: set<Path>, p: Path)
    requires selected <= MovingPaths(chosen, commit, current) && done <= selected
    ensures var after := Apply(current, CommitChange(chosen, commit, current, selected), done);
            if p in done then Contents(after, p) == Contents(commit, p) else Lookup(after, p) == Lookup(current, p)
  {
    hide CommitActionAt, Apply, SafeMode;
    var desired := CommitChange(chosen, commit, current, selected);
    ApplyLooksUp(current, desired, done);
    assert Lookup(Apply(current, desired, done), p) == AfterApply(current, desired, done, p);
    CommitActionsExactly(chosen, commit, current, p);
  }

  lemma CommitReachesAll(chosen: set<Path>, commit: Tree, current: Tree, selected: set<Path>, done: set<Path>)
    requires selected <= MovingPaths(chosen, commit, current) && done <= selected
    ensures var after := Apply(current, CommitChange(chosen, commit, current, selected), done);
            && (forall p :: p in done ==> Contents(after, p) == Contents(commit, p))
            && (forall p :: p !in done ==> Lookup(after, p) == Lookup(current, p))
  {
    hide MovingPaths, Apply, CommitChange, Contents;
    forall p { CommitReaches(chosen, commit, current, selected, done, p); }
  }

  lemma PreviewedActions(pv: CommitPreview, chosen: set<Path>, commit: Tree, current: Tree)
    requires IsCommitPreview(pv, chosen, commit, current)
    ensures forall p :: p in pv.entries <==> CommitActionAt(chosen, commit, current, p) != OutOfScope
    ensures forall p :: p in pv.entries ==> pv.entries[p] == CommitActionAt(chosen, commit, current, p)
    ensures forall p :: p in pv.entries ==> p in commit || p in current
  {
    hide Owns, PathsWith;
  }

  lemma BroughtIsInCommit(chosen: set<Path>, commit: Tree, current: Tree)
    ensures forall p :: CommitActionAt(chosen, commit, current, p) == Bring ==> p in commit && commit[p].readable
  {
    hide Owns;
  }
}
