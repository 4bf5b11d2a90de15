/** Whole runs of a Folder Link: any sequence of imports, exports, restores and rollbacks. Each one that writes stack
    files may be interrupted in the middle of its write. */
module History {
  import opened Common
  import opened Paths
  import opened Preview
  import opened Catalogue
  import opened Transfer
  import opened Backup
  import opened Sync
  import opened Rollback
  import opened Recovery
  import opened Unattended

  /** The link and every archive taken so far. */
  datatype World = World(link: Link, archives: seq<Archive>)

  datatype Op =
    | DoImport(sight: Sight, files: Tree, resolved: set<Path>, chosen: set<Path>)
    | DoExport(resolved: set<Path>, chosen: set<Path>)
    | DoRestore(archive: nat, paths: set<Path>)
    | DoCommitRollback(commit: Tree, stacks: set<Path>, picked: set<Path>)
    | DoDeploymentRollback(archive: nat, compose: Path)
    | GitMoved(git: Tree)
    | BaselineRewritten(base: Baseline)
    | Interrupted(op: Op, done: set<Path>)

  /** The operations that change stack files behind a backup of their own. */
  predicate ChangesStack(op: Op) { op.DoImport? || op.DoRestore? || op.DoCommitRollback? }

  predicate StoppedRollback(op: Op) { op.Interrupted? && op.op.DoDeploymentRollback? }

  /** Contents always have a hash. */
  ghost predicate Hashed(tree: Tree) {
    forall p :: p in tree && tree[p].readable ==> tree[p].sha != ""
  }

  ghost predicate SoundArchive(a: Archive) {
    Consistent(a) && forall p :: p in a.records && a.records[p].beforeExists ==> a.records[p].beforeSha != ""
  }

  ghost predicate Sound(w: World) {
    Hashed(w.link.git) && Hashed(w.link.stack) && forall a :: a in w.archives ==> SoundArchive(a)
  }

  ghost predicate Allowed(w: World, op: Op) {
    match op
    case DoImport(sight, files, resolved, chosen) =>
      PartOf(files, Picked(SeenLink(w.link, sight), Import, resolved, chosen))
    case DoExport(_, _) => true
    case DoRestore(i, paths) => i < |w.archives| && paths <= RestorablePaths(w.archives[i], w.link.stack)
    case DoCommitRollback(commit, _, _) => Hashed(commit)
    case DoDeploymentRollback(i, compose) =>
      i < |w.archives| && RollbackAllowed(w.archives[i], w.link.stack, OwnedRecords(w.archives[i], compose))
    case GitMoved(git) => Hashed(git)
    case BaselineRewritten(_) => true
    case Interrupted(inner, _) => (ChangesStack(inner) || inner.DoDeploymentRollback?) && Allowed(w, inner)
  }

  /** The files a deployment rollback plays back. */
  ghost function Replay(w: World, archive: Archive, compose: Path): set<Path> {
    ToReplay(archive, w.link.stack, OwnedRecords(archive, compose))
  }

  /** Import, restore and commit rollback are all a change set with a backup of what it replaces; a deployment rollback
      is one without a backup of its own. */
  ghost function ChangeOf(w: World, op: Op): ChangeSet {
    match op
    case DoImport(_, files, _, _) => StackFiles(files)
    case DoRestore(i, paths) => if i < |w.archives| then DesiredBy(w.archives[i], paths) else map[]
    case DoCommitRollback(commit, stacks, picked) => CommitChange(stacks, commit, w.link.stack, picked)
    case DoDeploymentRollback(i, compose) =>
      if i < |w.archives| then DesiredBy(w.archives[i], Replay(w, w.archives[i], compose)) else map[]
    case Interrupted(inner, _) => ChangeOf(w, inner)
    case _ => map[]
  }

  /** The files the backup of the operation is taken of. */
  ghost function TargetOf(w: World, op: Op): Tree {
    match op
    case DoImport(sight, _, _, _) => Seen(w.link.stack, sight)
    case Interrupted(inner, _) => TargetOf(w, inner)
    case _ => w.link.stack
  }

  ghost function Perform(w: World, op: Op, catalogue: set<Path>): World
    requires Allowed(w, op)
  {
    var l := w.link;
    var change := ChangeOf(w, op);
    var archives := w.archives + [ArchiveOf(change, TargetOf(w, op), catalogue)];
    match op
    case DoImport(sight, files, _, _) => World(AfterSeenImport(l, sight, files), archives)
    case DoExport(resolved, chosen) => World(AfterExport(l, Picked(l, Export, resolved, chosen)), w.archives)
    case DoRestore(i, paths) => World(l.(stack := Replayed(l.stack, w.archives[i], paths)), archives)
    case DoCommitRollback(_, _, _) => World(l.(stack := Apply(l.stack, change, change.Keys)), archives)
    case DoDeploymentRollback(i, compose) => World(RolledBack(l, w.archives[i], compose), w.archives)
    case GitMoved(git) => World(l.(git := git), w.archives)
    case BaselineRewritten(base) => World(l.(base := base), w.archives)
    // The backup, if there is one, is complete; the write stopped somewhere, the baseline was not reached.
    case Interrupted(inner, done) =>
      World(l.(stack := Apply(l.stack, change, done)), if inner.DoDeploymentRollback? then w.archives else archives)
  }

  /** How far the write of a changing operation gets. */
  ghost function Reached(w: World, op: Op): set<Path> {
    match op
    case DoRestore(_, paths) => paths
    case Interrupted(_, done) => done
    case _ => ChangeOf(w, op).Keys
  }

  /** A run is a list of operations each of which is allowed where it happens. */
  ghost predicate IsRun(w: World, ops: seq<Op>, catalogue: set<Path>)
    decreases |ops|
  {
    ops == [] || (Allowed(w, ops[0]) && IsRun(Perform(w, ops[0], catalogue), ops[1..], catalogue))
  }

  ghost function After(w: World, ops: seq<Op>, catalogue: set<Path>): World
    requires IsRun(w, ops, catalogue)
    decreases |ops|
  {
    if ops == [] then w else After(Perform(w, ops[0], catalogue), ops[1..], catalogue)
  }

  predicate Holds(tree: Tree, p: Path, sha: Sha) {
    p in tree && tree[p].readable && tree[p].sha == sha
  }

  /** The archive has these contents of the path. */
  predicate Stores(a: Archive, p: Path, sha: Sha) {
    p in a.contents && a.contents[p].sha == sha
  }

  ghost predicate Stored(w: World, p: Path, sha: Sha) {
    exists a :: a in w.archives && Stores(a, p, sha)
  }

  /** The contents are on the stack, or an archive has them. */
  ghost predicate Recoverable(w: World, p: Path, sha: Sha) {
    Holds(w.link.stack, p, sha) || Stored(w, p, sha)
  }

  // ----- one change set -----

  /** The backup sees every readable file that is replaced. */
  ghost predicate Covered(tree: Tree, target: Tree, desired: ChangeSet) {
    && (forall p :: p in desired && p in tree && tree[p].readable ==> p in target && target[p] == tree[p])
    && forall p :: p in target ==> p in tree && target[p] == tree[p]
  }

  lemma ChangeRemembers(tree: Tree, target: Tree, desired: ChangeSet, done: set<Path>, catalogue: set<Path>, p: Path,
                        sha: Sha)
    requires Alters(desired, tree) && Covered(tree, target, desired) && Holds(tree, p, sha)
    ensures Holds(Apply(tree, desired, done), p, sha) || Stores(ArchiveOf(desired, target, catalogue), p, sha)
  {
    hide TouchedStacks, SafeMode;
    ApplyLooksUp(tree, desired, done);
    assert Lookup(Apply(tree, desired, done), p) == AfterApply(tree, desired, done, p);
  }

  lemma ChangeKeepsHashes(tree: Tree, target: Tree, desired: ChangeSet, done: set<Path>, catalogue: set<Path>)
    requires Hashed(tree) && Hashed(desired) && Covered(tree, target, desired)
    ensures Hashed(Apply(tree, desired, done)) && SoundArchive(ArchiveOf(desired, target, catalogue))
  {
    hide TouchedStacks, SafeMode, Apply;
    var after := Apply(tree, desired, done);
    ApplyLooksUp(tree, desired, done);
    forall p | p in after && after[p].readable ensures after[p].sha != "" {
      assert Lookup(after, p) == AfterApply(tree, desired, done, p);
    }
  }

  /** The changing operations, complete or interrupted, in the common form. */
  lemma ChangeForm(w: World, op: Op, catalogue: set<Path>)
    requires Sound(w) && Allowed(w, op)
    requires ChangesStack(op) || (op.Interrupted? && !StoppedRollback(op))
    ensures var change := ChangeOf(w, op);
            && Alters(change, w.link.stack) && Hashed(change) && Covered(w.link.stack, TargetOf(w, op), change)
            && Perform(w, op, catalogue).link.stack == Apply(w.link.stack, change, Reached(w, op))
            && Perform(w, op, catalogue).archives == w.archives + [ArchiveOf(change, TargetOf(w, op), catalogue)]
            && Perform(w, op, catalogue).link.git == w.link.git
  {
    hide IsControl, Picked, WriteFiles, BaselineAfter, Apply, Owns, ArchiveOf, CommitActionAt, InSight;
    match op {
      case DoImport(sight, files, resolved, chosen) =>
        SeenImportIsAChange(w.link, sight, files, resolved, chosen);
      case DoRestore(i, paths) =>
        assert SoundArchive(w.archives[i]);
        RestoreAlters(w.link.stack, w.archives[i], paths);
      case DoCommitRollback(commit, stacks, picked) =>
        CommitAlters(stacks, commit, w.link.stack, picked);
      case Interrupted(inner, _) =>
        ChangeForm(w, inner, catalogue);
    }
  }

  lemma CommitAlters(stacks: set<Path>, commit: Tree, current: Tree, picked: set<Path>)
    requires Hashed(commit) && Hashed(current)
    ensures Alters(CommitChange(stacks, commit, current, picked), current)
    ensures Hashed(CommitChange(stacks, commit, current, picked))
  {
    hide Owns;
  }

  // ----- every step -----

  lemma ExportStep(w: World, op: Op, catalogue: set<Path>)
    requires Sound(w) && op.DoExport?
    ensures Sound(Perform(w, op, catalogue)) && Perform(w, op, catalogue).link.stack == w.link.stack
    ensures Perform(w, op, catalogue).archives == w.archives
  {
    hide IsControl, BaselineAfter, Blocker, WriteFiles;
    var files := Picked(w.link, Export, op.resolved, op.chosen);
    var git := AfterExport(w.link, files).git;
    forall p | p in git && git[p].readable ensures git[p].sha != "" {
      WrittenAt(w.link, files, p);
      assert Lookup(git, p) == Some(git[p]);
    }
  }

  lemma QuietStep(w: World, op: Op, catalogue: set<Path>)
    requires Sound(w) && Allowed(w, op) && (op.GitMoved? || op.BaselineRewritten?)
    ensures Sound(Perform(w, op, catalogue)) && Perform(w, op, catalogue).link.stack == w.link.stack
    ensures Perform(w, op, catalogue).archives == w.archives
  {
  }

  predicate RollsBack(op: Op) { op.DoDeploymentRollback? || StoppedRollback(op) }

  /** The rollback of the operation, and the files it really plays back. */
  function RollbackIn(op: Op): Op
    requires RollsBack(op)
  {
    if op.Interrupted? then op.op else op
  }

  ghost function PlayedBack(w: World, op: Op): set<Path>
    requires RollsBack(op) && RollbackIn(op).archive < |w.archives|
  {
    var inner := RollbackIn(op);
    var replay := Replay(w, w.archives[inner.archive], inner.compose);
    if op.Interrupted? then replay * op.done else replay
  }

  /** The one way to lose contents: a deployment rollback takes them off the stack and no archive has them. */
  ghost predicate Drops(w: World, op: Op, p: Path, sha: Sha) {
    && RollsBack(op) && RollbackIn(op).archive < |w.archives| && p in PlayedBack(w, op)
    && Holds(w.link.stack, p, sha) && !Stored(w, p, sha)
  }

  /** Only what the import of that archive had itself brought to that path can be dropped. */
  lemma DropsOnlyWhatItBrought(w: World, op: Op, p: Path, sha: Sha)
    requires Drops(w, op, p, sha)
    ensures var archive := w.archives[RollbackIn(op).archive];
            && Owns(archive.composePaths, RollbackIn(op).compose, p)
            && p in archive.records && archive.records[p].afterExists && archive.records[p].afterSha == sha
  {
    hide Owns;
    assert RollbackAt(w.archives[RollbackIn(op).archive], w.link.stack, p) in {Restore, Remove};
  }

  /** Whether it runs to its end or stops, a rollback is the played-back part of its change set. */
  lemma RollbackForm(w: World, op: Op, catalogue: set<Path>)
    requires Allowed(w, op) && RollsBack(op)
    ensures var inner := RollbackIn(op);
            var w' := Perform(w, op, catalogue);
            && inner.archive < |w.archives| && w'.archives == w.archives && w'.link.git == w.link.git
            && PlayedBack(w, op) <= Replay(w, w.archives[inner.archive], inner.compose)
            && forall p :: Lookup(w'.link.stack, p) ==
                 AfterApply(w.link.stack, DesiredBy(w.archives[inner.archive], PlayedBack(w, op)), PlayedBack(w, op), p)
  {
    hide Owns, RolledBackBase, SafeMode, RollbackAt, OwnedRecords, Apply, ArchiveOf;
    var inner := RollbackIn(op);
    var archive := w.archives[inner.archive];
    var replay := Replay(w, archive, inner.compose);
    ApplyLooksUp(w.link.stack, DesiredBy(archive, replay), if op.Interrupted? then op.done else replay);
  }

  lemma RollbackStep(w: World, op: Op, catalogue: set<Path>, p: Path, sha: Sha)
    requires Sound(w) && Allowed(w, op) && RollsBack(op) && Recoverable(w, p, sha)
    ensures Sound(Perform(w, op, catalogue))
    ensures Recoverable(Perform(w, op, catalogue), p, sha) <==> !Drops(w, op, p, sha)
  {
    hide Owns, Perform, SafeMode, RollbackAt, Stored, OwnedRecords, Allowed, PlayedBack;
    var inner := RollbackIn(op);
    RollbackForm(w, op, catalogue);
    var archive, played := w.archives[inner.archive], PlayedBack(w, op);
    OwnedIsRecorded(archive, inner.compose);
    assert SoundArchive(archive);
    var w' := Perform(w, op, catalogue);
    forall q | q in w'.link.stack && w'.link.stack[q].readable ensures w'.link.stack[q].sha != "" {
      assert Lookup(w'.link.stack, q) == AfterApply(w.link.stack, DesiredBy(archive, played), played, q);
    }
    assert Lookup(w'.link.stack, p) == AfterApply(w.link.stack, DesiredBy(archive, played), played, p);
    SameArchives(w, w', p, sha);
    if p in played && archive.records[p].beforeExists {
      StoredBefore(w, archive, p);
    }
  }

  lemma SameArchives(w: World, w': World, p: Path, sha: Sha)
    requires w'.archives == w.archives
    ensures Stored(w', p, sha) <==> Stored(w, p, sha)
  {
  }

  lemma StoredBefore(w: World, a: Archive, p: Path)
    requires a in w.archives && Consistent(a) && p in a.records && a.records[p].beforeExists
    ensures Stored(w, p, a.records[p].beforeSha)
  {
    assert Stores(a, p, a.records[p].beforeSha);
  }

  /** Each operation, complete or interrupted: recoverable contents stay so, unless a deployment rollback drops them. */
  lemma StepRemembers(w: World, op: Op, catalogue: set<Path>, p: Path, sha: Sha)
    requires Sound(w) && Allowed(w, op) && Recoverable(w, p, sha)
    ensures Sound(Perform(w, op, catalogue))
    ensures Recoverable(Perform(w, op, catalogue), p, sha) <==> !Drops(w, op, p, sha)
  {
    hide Perform, Allowed, Stores, Holds, Hashed, SoundArchive, ChangeOf, Reached, TargetOf, PlayedBack, Covered;
    var w' := Perform(w, op, catalogue);
    GrowsArchives(w, op, catalogue);
    if RollsBack(op) {
      RollbackStep(w, op, catalogue, p, sha);
    } else if ChangesStack(op) || op.Interrupted? {
      var change, done := ChangeOf(w, op), Reached(w, op);
      ChangeForm(w, op, catalogue);
      ChangeKeepsHashes(w.link.stack, TargetOf(w, op), change, done, catalogue);
      if Holds(w.link.stack, p, sha) {
        ChangeRemembers(w.link.stack, TargetOf(w, op), change, done, catalogue, p, sha);
        assert ArchiveOf(change, TargetOf(w, op), catalogue) in w'.archives;
      }
    } else if op.DoExport? {
      ExportStep(w, op, catalogue);
    } else {
      QuietStep(w, op, catalogue);
    }
  }

  lemma GrowsArchives(w: World, op: Op, catalogue: set<Path>)
    requires Allowed(w, op)
    ensures w.archives <= Perform(w, op, catalogue).archives
  {
  }

  /** No deployment rollback of the run drops the contents. */
  ghost predicate NeverDropped(w: World, ops: seq<Op>, catalogue: set<Path>, p: Path, sha: Sha)
    requires IsRun(w, ops, catalogue)
    decreases |ops|
  {
    ops == [] || (!Drops(w, ops[0], p, sha) && NeverDropped(Perform(w, ops[0], catalogue), ops[1..], catalogue, p, sha))
  }

  /** Nothing is forgotten: over every run, contents that were once readable on the stack are still there or stored in
      an archive, unless a deployment rollback of the run took them back. */
  lemma {:induction false} NothingIsForgotten(w: World, ops: seq<Op>, catalogue: set<Path>, p: Path, sha: Sha)
    requires Sound(w) && IsRun(w, ops, catalogue) && Recoverable(w, p, sha) && NeverDropped(w, ops, catalogue, p, sha)
    ensures Sound(After(w, ops, catalogue)) && Recoverable(After(w, ops, catalogue), p, sha)
    decreases |ops|
  {
    hide Perform, Allowed, Recoverable, Sound, Drops;
    if ops == [] {
    } else {
      StepRemembers(w, ops[0], catalogue, p, sha);
      NothingIsForgotten(Perform(w, ops[0], catalogue), ops[1..], catalogue, p, sha);
    }
  }

  /** An unattended import is one of these operations. */
  lemma UnattendedImportIsAllowed(w: World, active: set<Path>, extra: Path -> bool, selected: set<Path>,
                                  setAside: set<Path>)
    ensures var sight := Only(active, extra);
            var files := AutoFiles(SeenLink(w.link, sight), active, selected, setAside);
            Allowed(w, DoImport(sight, files, {}, {}))
  {
    hide Picked, AutoFiles, Seen;
    AutoIsPart(SeenLink(w.link, Only(active, extra)), active, selected, setAside);
  }
}
