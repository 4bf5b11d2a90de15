/** Undoing the import of one stack after its deployment failed. */
module Rollback {
  import opened Common
  import opened Paths
  import opened Preview
  import opened Catalogue
  import opened Transfer
  import opened Backup
  import opened Sync

  /** Clash means that somebody else touched the file, and the rollback is refused. */
  function RollbackAction(r: Record, current: Current): Action {
    match current
    case Unsupported => Clash
    case Present(sha) =>
      if r.beforeExists && r.afterExists && sha == r.beforeSha then Noop
      else if r.beforeExists && r.afterExists && sha == r.afterSha then Restore
      else if !r.beforeExists && r.afterExists && sha == r.afterSha then Remove
      else Clash
    case Missing =>
      if r.beforeExists && !r.afterExists then Restore
      else if !r.beforeExists then Noop
      else Clash
  }

  ghost function OwnedRecords(archive: Archive, compose: Path): set<Path> {
    set p | p in archive.records && Owns(archive.composePaths, compose, p)
  }

  function RollbackAt(archive: Archive, stack: Tree, p: Path): Action {
    if p in archive.records then RollbackAction(archive.records[p], CurrentOf(stack, p)) else Noop
  }

  ghost predicate RollbackAllowed(archive: Archive, stack: Tree, owned: set<Path>) {
    owned != {} && forall p :: p in owned ==> RollbackAt(archive, stack, p) != Clash
  }

  /** The whole table: a file that is there again needs nothing, one that stands exactly where the import left it is put
      back, and everything else refuses. */
  lemma RollbackActionsExactly(archive: Archive, stack: Tree, p: Path)
    requires p in archive.records
    ensures var r, now, a := archive.records[p], Contents(stack, p), RollbackAt(archive, stack, p);
            var foreign := Closed(stack, p) || (now.Some? && !r.afterExists);
            && (a == Clash <==> foreign || (now != Before(r) && now != Later(r)))
            && (a == Noop <==> !foreign && now == Before(r))
            && (a == Restore <==> !foreign && now == Later(r) != Before(r) && r.beforeExists)
            && (a == Remove <==> !foreign && now == Later(r) != Before(r) && !r.beforeExists)
  {
  }

  /** An accepted rollback takes back only files that stand where the import left them, and gives them their earlier
      contents and baseline; a stack with one file edited since is refused as a whole. */
  lemma RollbackSparesEdits(l: Link, archive: Archive, compose: Path, p: Path)
    requires RollbackAllowed(archive, l.stack, OwnedRecords(archive, compose))
    ensures var back := RolledBack(l, archive, compose);
            var owned := p in archive.records && Owns(archive.composePaths, compose, p);
            && (owned ==>
                && Contents(back.stack, p) == Before(archive.records[p]) && !Closed(l.stack, p)
                && Contents(l.stack, p) in {Before(archive.records[p]), Later(archive.records[p])}
                && Tracked(back.base, p) == Before(archive.records[p]))
            && (!owned || Contents(l.stack, p) == Before(archive.records[p]) ==>
                Lookup(back.stack, p) == Lookup(l.stack, p))
            && (!owned ==> Tracked(back.base, p) == Tracked(l.base, p))
  {
    hide SafeMode, Apply, RollbackAt, Owns, RolledBackBase;
    var owned := OwnedRecords(archive, compose);
    var replay := ToReplay(archive, l.stack, owned);
    RolledBackBaseTracks(archive, owned, l.base);
    ApplyLooksUp(l.stack, DesiredBy(archive, replay), replay);
    assert Lookup(RolledBack(l, archive, compose).stack, p) ==
           AfterApply(l.stack, DesiredBy(archive, replay), replay, p);
    if p in archive.records { RollbackActionsExactly(archive, l.stack, p); }
  }

  function ToReplay(archive: Archive, stack: Tree, owned: set<Path>): set<Path> {
    set p | p in owned && RollbackAt(archive, stack, p) in {Restore, Remove}
  }

  /** The baseline is put back to the recorded contents of every owned path. */
  function BaseBefore(archive: Archive, owned: set<Path>, base: Baseline, p: Path): Option<Sha> {
    if p in owned && p in archive.records
    then if archive.records[p].beforeExists then Some(archive.records[p].beforeSha) else None
    else Tracked(base, p)
  }

  function RolledBackBase(archive: Archive, owned: set<Path>, base: Baseline): Baseline {
    map p | p in base.Keys + archive.records.Keys
         && BaseBefore(archive, owned, base, p).Some? :: BaseBefore(archive, owned, base, p).value
  }

  lemma RolledBackBaseTracks(archive: Archive, owned: set<Path>, base: Baseline)
    ensures forall p :: Tracked(RolledBackBase(archive, owned, base), p) == BaseBefore(archive, owned, base, p)
  {
  }

  ghost function RolledBack(l: Link, archive: Archive, compose: Path): Link {
    var owned := OwnedRecords(archive, compose);
    Link(l.git, Replayed(l.stack, archive, ToReplay(archive, l.stack, owned)), RolledBackBase(archive, owned, l.base))
  }

  // ----- ownership read from the archive -----

  /** The archive names only the stacks of its own files, which is enough to tell whose file is whose. */
  lemma ArchiveKnowsOwners(desired: ChangeSet, tree: Tree, catalogue: set<Path>, compose: Path, p: Path)
    requires p in ArchiveOf(desired, tree, catalogue).records
    ensures Owns(ArchiveOf(desired, tree, catalogue).composePaths, compose, p) <==> Owns(catalogue, compose, p)
  {
    hide Records, StoredContents, Covers;
    var records := Records(desired, tree);
    var cut := TouchedStacks(catalogue, records.Keys);
    assert forall d :: Owns(catalogue, d, p) ==> d in cut;
    if exists d :: Owns(catalogue, d, p) {
      CutKeepsOwners(catalogue, cut, p, compose);
    } else {
      CoveredIsOwned(catalogue, p);
    }
  }

  // ----- import, then rollback -----

  /** The link after an import and the rollback of one of its stacks. */
  ghost function ImportedAndRolledBack(l: Link, files: Tree, catalogue: set<Path>, compose: Path): Link {
    RolledBack(AfterImport(l, files), ArchiveOf(StackFiles(files), l.stack, catalogue), compose)
  }

  /** Nobody touched the imported files: each owned record is put back, none refuses. */
  lemma UntouchedImportCanBeRolledBack(l: Link, files: Tree, resolved: set<Path>, chosen: set<Path>,
                                       catalogue: set<Path>, p: Path)
    requires PartOf(files, Picked(l, Import, resolved, chosen))
    requires p in ArchiveOf(StackFiles(files), l.stack, catalogue).records
    ensures RollbackAt(ArchiveOf(StackFiles(files), l.stack, catalogue), AfterImport(l, files).stack, p)
            == if p in l.stack then Restore else Remove
  {
    hide IsControl, Picked, BaselineAfter, SafeMode, TouchedStacks, WriteFiles;
    WrittenAt(l, files, p);
    ImportTakes(l, resolved, chosen, p);
  }

  lemma RolledBackAt(l: Link, files: Tree, resolved: set<Path>, chosen: set<Path>, catalogue: set<Path>, compose: Path,
                     p: Path)
    requires PartOf(files, Picked(l, Import, resolved, chosen))
    ensures var back := ImportedAndRolledBack(l, files, catalogue, compose);
            var mid := AfterImport(l, files);
            if p in ArchiveOf(StackFiles(files), l.stack, catalogue).records && Owns(catalogue, compose, p)
            then && Lookup(back.stack, p) == (if p in l.stack then Some(Written(l.stack[p])) else None)
                 && Tracked(back.base, p) == (if p in l.stack then Some(l.stack[p].sha) else None)
            else Lookup(back.stack, p) == Lookup(mid.stack, p) && Tracked(back.base, p) == Tracked(mid.base, p)
  {
    hide IsControl, Picked, AfterImport, Owns, TouchedStacks, RollbackAt, RolledBackBase, Apply;
    var archive := ArchiveOf(StackFiles(files), l.stack, catalogue);
    var mid := AfterImport(l, files);
    var owned := OwnedRecords(archive, compose);
    var replay := ToReplay(archive, mid.stack, owned);
    RolledBackBaseTracks(archive, owned, mid.base);
    ApplyLooksUp(mid.stack, DesiredBy(archive, replay), replay);
    var back := ImportedAndRolledBack(l, files, catalogue, compose);
    assert Lookup(back.stack, p) == AfterApply(mid.stack, DesiredBy(archive, replay), replay, p);
    assert Tracked(back.base, p) == BaseBefore(archive, owned, mid.base, p);
    if p in archive.records {
      ArchiveKnowsOwners(StackFiles(files), l.stack, catalogue, compose, p);
      UntouchedImportCanBeRolledBack(l, files, resolved, chosen, catalogue, p);
      if p in l.stack { SafeModeIsSafe(l.stack[p].mode); }
    }
  }

  /** The rollback of an untouched import goes through as soon as the stack owns one imported file, the
      files of that stack come back exactly when the import found them missing or plain, and every other
      stack keeps what the import gave it. */
  lemma RollbackRestoresTheStack(l: Link, files: Tree, resolved: set<Path>, chosen: set<Path>, catalogue: set<Path>,
                                 compose: Path, p: Path)
    requires PartOf(files, Picked(l, Import, resolved, chosen))
    ensures var archive := ArchiveOf(StackFiles(files), l.stack, catalogue);
            var mid, back := AfterImport(l, files), ImportedAndRolledBack(l, files, catalogue, compose);
            && (OwnedRecords(archive, compose) != {} ==>
                RollbackAllowed(archive, mid.stack, OwnedRecords(archive, compose)))
            && (Owns(catalogue, compose, p) ==>
                 (Lookup(back.stack, p) == Lookup(l.stack, p) <==>
                  (p in StackFiles(files) && p in l.stack ==> Plain(l.stack[p]))))
            && (!Owns(catalogue, compose, p) ==>
                 Lookup(back.stack, p) == Lookup(mid.stack, p) && Tracked(back.base, p) == Tracked(mid.base, p))
  {
    hide IsControl, Picked, BaselineAfter, Owns, TouchedStacks, SafeMode, ImportedAndRolledBack, RollbackAt;
    var archive := ArchiveOf(StackFiles(files), l.stack, catalogue);
    forall q | q in OwnedRecords(archive, compose)
      ensures RollbackAt(archive, AfterImport(l, files).stack, q) != Clash {
      UntouchedImportCanBeRolledBack(l, files, resolved, chosen, catalogue, q);
    }
    RolledBackAt(l, files, resolved, chosen, catalogue, compose, p);
    WrittenAt(l, files, p);
    if p in StackFiles(files) {
      ImportTakes(l, resolved, chosen, p);
      if p in l.stack { PlainIsFixed(l.stack[p]); }
    }
  }

  /** An identical file whose baseline was missing or stale: an import refreshes that baseline in passing. */
  predicate RefreshedInPassing(l: Link, p: Path) {
    && p in l.git && l.git[p].readable && l.git[p].sha != ""
    && p in l.stack && l.stack[p].readable && l.stack[p].sha == l.git[p].sha
    && Tracked(l.base, p) != Some(l.git[p].sha)
  }

  /** The baseline entry of an imported file is what the rollback leaves: a plain change onto a missing or readable
      destination, or an unrecorded destination whose entry the import did not move. */
  ghost predicate BaselineSurvives(l: Link, files: Tree, p: Path) {
    if p !in files then !RefreshedInPassing(l, p)
    else if p in l.stack && !l.stack[p].readable then
      p in l.git && (l.git[p].sha == "" || Tracked(l.base, p) == Some(l.git[p].sha))
    else View(l, Import)(p).Emit? && View(l, Import)(p).entry.kind == NoKind
  }

  /** The baseline of the stack's files is back exactly when the import settled no conflict there, restored no local
      deletion, refreshed no stale baseline, and moved no entry of an unreadable destination it overwrote. */
  lemma RollbackRestoresTheBaseline(l: Link, files: Tree, resolved: set<Path>, chosen: set<Path>, catalogue: set<Path>,
                                    compose: Path, p: Path)
    requires PartOf(files, Picked(l, Import, resolved, chosen))
    requires Owns(catalogue, compose, p) && !IsControl(p)
    ensures var back := ImportedAndRolledBack(l, files, catalogue, compose);
            Tracked(back.base, p) == Tracked(l.base, p) <==> BaselineSurvives(l, files, p)
  {
    hide IsControl, Picked, Owns, TouchedStacks, SafeMode, ImportedAndRolledBack, WriteFiles, BaselineAfter, Blocker;
    RolledBackAt(l, files, resolved, chosen, catalogue, compose, p);
    NextBaseAt(l, files, p);
    if p in files {
      ImportTakes(l, resolved, chosen, p);
    }
  }

  /** An untracked destination that an exclusion rule keeps closed is overwritten; after the rollback of the stack its
      baseline names what the import brought. */
  lemma ExcludedBaselineStays(p: Path, compose: Path, file: File)
    requires !IsControl(p) && Owns({compose}, compose, p) && file.readable && file.sha != ""
    ensures var l := Link(map[p := file], map[p := File("", 0, false, "excluded", false)], map[]);
            var files := Picked(l, Import, {}, {});
            Tracked(ImportedAndRolledBack(l, files, {compose}, compose).base, p) == Some(file.sha)
                 && Tracked(l.base, p) == None
  {
    hide IsControl, Picked, Owns, TouchedStacks, SafeMode, ImportedAndRolledBack, WriteFiles, BaselineAfter;
    var l := Link(map[p := file], map[p := File("", 0, false, "excluded", false)], map[]);
    var files := Picked(l, Import, {}, {});
    InScope(l, p);
    PickedAt(l, Import, {}, {}, p);
    ImportTakes(l, {}, {}, p);
    RolledBackAt(l, files, {}, {}, {compose}, compose, p);
    NextBaseAt(l, files, p);
  }

  lemma RollbackKeepsBlocks(l: Link, files: Tree, resolved: set<Path>, chosen: set<Path>, catalogue: set<Path>,
                            compose: Path, d: Path)
    requires PartOf(files, Picked(l, Import, resolved, chosen))
    ensures Blocks(ImportedAndRolledBack(l, files, catalogue, compose).stack, d) <==> Blocks(l.stack, d)
  {
    hide IsControl, Picked, Owns, TouchedStacks, SafeMode, ImportedAndRolledBack, BaselineAfter, WriteFiles;
    RolledBackAt(l, files, resolved, chosen, catalogue, compose, d);
    WrittenAt(l, files, d);
    if d in StackFiles(files) { ImportTakes(l, resolved, chosen, d); }
  }

  /** The rolled-back stack is back where it was: an import that settled no conflict and restored no local
      deletion there leaves the next preview with the same verdict on each of its files. */
  lemma RollbackRestoresTheVerdict(l: Link, files: Tree, resolved: set<Path>, chosen: set<Path>, catalogue: set<Path>,
                                   compose: Path, p: Path)
    requires PartOf(files, Picked(l, Import, resolved, chosen))
    requires Owns(catalogue, compose, p) && !IsControl(p)
    requires p in files ==> View(l, Import)(p).entry.kind == NoKind && (p in l.stack ==> l.stack[p].readable)
    ensures View(ImportedAndRolledBack(l, files, catalogue, compose), Import)(p) == View(l, Import)(p)
  {
    hide IsControl, Picked, Owns, TouchedStacks, SafeMode, WriteFiles, BaselineAfter, Blocker, Blocks;
    hide ImportedAndRolledBack;
    var back := ImportedAndRolledBack(l, files, catalogue, compose);
    forall d ensures Blocks(back.stack, d) <==> Blocks(l.stack, d) {
      RollbackKeepsBlocks(l, files, resolved, chosen, catalogue, compose, d);
    }
    SameBlocker(back.stack, l.stack, p);
    RolledBackAt(l, files, resolved, chosen, catalogue, compose, p);
    RollbackRestoresTheBaseline(l, files, resolved, chosen, catalogue, compose, p);
    WrittenAt(l, files, p);
    RollbackKeepsGit(l, files, catalogue, compose);
    if Blocker(l.stack, p).Some? { BlockerOnStack(l, files, resolved, chosen, catalogue, compose, p); }
    if p in files { ImportTakes(l, resolved, chosen, p); }
  }

  lemma RollbackKeepsGit(l: Link, files: Tree, catalogue: set<Path>, compose: Path)
    ensures ImportedAndRolledBack(l, files, catalogue, compose).git == l.git
  {
  }

  /** The blocking directory itself is neither written nor rolled back. */
  lemma BlockerOnStack(l: Link, files: Tree, resolved: set<Path>, chosen: set<Path>, catalogue: set<Path>,
                       compose: Path, p: Path)
    requires PartOf(files, Picked(l, Import, resolved, chosen))
    requires Blocker(l.stack, p).Some?
    ensures Lookup(ImportedAndRolledBack(l, files, catalogue, compose).stack, Blocker(l.stack, p).value) ==
              Lookup(l.stack, Blocker(l.stack, p).value)
  {
    hide IsControl, Picked, Owns, TouchedStacks, SafeMode, ImportedAndRolledBack, WriteFiles, BaselineAfter;
    var d := Blocker(l.stack, p).value;
    BlockerIsNearest(l.stack, p);
    RolledBackAt(l, files, resolved, chosen, catalogue, compose, d);
    WrittenAt(l, files, d);
    if d in StackFiles(files) { ImportTakes(l, resolved, chosen, d); }
  }

  // ----- update or first deployment -----

  /** Read from the archive: a Compose file without a record is taken to have existed before. */
  predicate HadPreviousCompose(archive: Archive, compose: Path) {
    compose in archive.records ==> archive.records[compose].beforeExists
  }

  /** The archive tells an update from a first deployment, except for a stack whose Compose file was missing before and
      was not part of the import: that one passes for an update. */
  lemma HadPreviousComposeIsRight(l: Link, files: Tree, resolved: set<Path>, chosen: set<Path>, catalogue: set<Path>,
                                  compose: Path)
    requires PartOf(files, Picked(l, Import, resolved, chosen))
    ensures (HadPreviousCompose(ArchiveOf(StackFiles(files), l.stack, catalogue), compose) <==> compose in l.stack)
            <==> compose in l.stack || compose in StackFiles(files)
  {
    hide IsControl, Picked, SafeMode, TouchedStacks;
    if compose in StackFiles(files) {
      ImportTakes(l, resolved, chosen, compose);
    }
  }

  /** Git has a new stack, only its other file is imported: the archive answers that the stack existed before. */
  lemma MissingComposePassesForEarlier(compose: Path, q: Path, manifest: File, file: File, catalogue: set<Path>)
    requires compose != q && !IsControl(q) && manifest.readable && file.readable
    ensures var l := Link(map[compose := manifest, q := file], map[], map[]);
            var files := map[q := file];
            && PartOf(files, Picked(l, Import, {}, {q})) && compose !in l.stack
            && HadPreviousCompose(ArchiveOf(StackFiles(files), l.stack, catalogue), compose)
  {
    hide IsControl, Picked, SafeMode, TouchedStacks;
    var l := Link(map[compose := manifest, q := file], map[], map[]);
    BlockerIsNearest(l.stack, q);
    InScope(l, q);
    PickedAt(l, Import, {}, {q}, q);
    ImportTakes(l, {}, {q}, q);
  }
}
