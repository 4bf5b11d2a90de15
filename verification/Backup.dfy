/** Safety archives taken before a write, and how they are played back. */
module Backup {
  import opened Common
  import opened Paths
  import opened Preview
  import opened Catalogue
  import opened Transfer

  /** What one path was before a change and what the change makes of it. */
  datatype Record = Record(beforeExists: bool, beforeSha: Sha, beforeMode: nat, afterExists: bool, afterSha: Sha)

  datatype Content = Content(sha: Sha, mode: nat)

  /** The manifest, the stored contents and the stacks the manifest touches. */
  datatype Archive = Archive(records: map<Path, Record>, contents: map<Path, Content>, composePaths: set<Path>)

  /** A change set: readable files are written, unreadable ones stand for removals. */
  type ChangeSet = Tree

  // ----- taking a backup -----

  /** Identical and unreadable destinations are not recorded. */
  predicate IsRecorded(desired: ChangeSet, target: Tree, p: Path) {
    p in desired && (p in target ==> target[p].readable && desired[p].sha != target[p].sha)
  }

  function RecordFor(desired: ChangeSet, target: Tree, p: Path): Record
    requires p in desired
  {
    if p in target
    then Record(true, target[p].sha, SafeMode(target[p].mode), desired[p].readable, desired[p].sha)
    else Record(false, "", 0, desired[p].readable, desired[p].sha)
  }

  function Records(desired: ChangeSet, target: Tree): map<Path, Record> {
    map p | p in desired && IsRecorded(desired, target, p) :: RecordFor(desired, target, p)
  }

  function StoredContents(records: map<Path, Record>): map<Path, Content> {
    map p | p in records && records[p].beforeExists :: Content(records[p].beforeSha, records[p].beforeMode)
  }

  /** The contents stored are those of the files that existed. */
  ghost predicate Consistent(archive: Archive) {
    archive.contents == StoredContents(archive.records)
  }

  ghost function TouchedStacks(catalogue: set<Path>, paths: set<Path>): set<Path> {
    set c | c in catalogue && exists p :: p in paths && Owns(catalogue, c, p)
  }

  ghost function ArchiveOf(desired: ChangeSet, target: Tree, catalogue: set<Path>): Archive {
    var records := Records(desired, target);
    Archive(records, StoredContents(records), TouchedStacks(catalogue, records.Keys))
  }

  method BackupChangedFiles(desired: ChangeSet, target: Tree, catalogue: seq<Path>) returns (archive: Archive)
    ensures archive == ArchiveOf(desired, target, Members(catalogue))
  {
    hide Owns;
    var records := CollectRecords(desired, target);
    var composePaths := StacksOf(catalogue, records.Keys);
    archive := Archive(records, StoredContents(records), composePaths);
  }

  method CollectRecords(desired: ChangeSet, target: Tree) returns (records: map<Path, Record>)
    ensures records == Records(desired, target)
  {
    hide SafeMode;
    records := map[];
    var todo := desired.Keys;
    while todo != {}
      invariant todo <= desired.Keys
      invariant forall p :: p in records <==> p !in todo && p in desired && IsRecorded(desired, target, p)
      invariant forall p :: p in records ==> records[p] == RecordFor(desired, target, p)
    {
      var path :| path in todo;
      todo := todo - {path};
      var file := desired[path];
      var record := Record(false, "", 0, file.readable, file.sha);
      if path in target {
        if !target[path].readable || file.sha == target[path].sha { continue; }
        record := record.(beforeExists := true, beforeSha := target[path].sha,
                          beforeMode := SafeMode(target[path].mode));
      }
      records := records[path := record];
    }
  }

  method StacksOf(catalogue: seq<Path>, paths: set<Path>) returns (stacks: set<Path>)
    ensures stacks == TouchedStacks(Members(catalogue), paths)
  {
    hide Owns;
    stacks := {};
    var todo := paths;
    ghost var seen: set<Path> := {};
    while todo != {}
      invariant todo + seen == paths && todo !! seen
      invariant stacks == TouchedStacks(Members(catalogue), seen)
    {
      var path :| path in todo;
      todo := todo - {path};
      var owners := ComposePathsForFile(catalogue, path);
      OneMorePath(Members(catalogue), seen, path, Members(owners));
      stacks := stacks + Members(owners);
      seen := seen + {path};
    }
    assert seen == paths;
  }

  lemma OneMorePath(catalogue: set<Path>, paths: set<Path>, p: Path, owners: set<Path>)
    requires forall c :: c in owners <==> Owns(catalogue, c, p)
    ensures TouchedStacks(catalogue, paths + {p}) == TouchedStacks(catalogue, paths) + owners
  {
    assert forall c :: Owns(catalogue, c, p) ==> c in catalogue;
  }

  /** The two states a record names. */
  function Before(r: Record): Option<Sha> {
    if r.beforeExists then Some(r.beforeSha) else None
  }

  function Later(r: Record): Option<Sha> {
    if r.afterExists then Some(r.afterSha) else None
  }

  predicate Closed(tree: Tree, p: Path) {
    p in tree && !tree[p].readable
  }

  /** A changed path is recorded unless it cannot be read or has those contents already; the record names the contents
      before the change and after it, and the archive stores the ones before. */
  lemma RecordsBothSides(desired: ChangeSet, tree: Tree, catalogue: set<Path>, p: Path)
    requires p in desired
    ensures var archive := ArchiveOf(desired, tree, catalogue);
            && (p in archive.records <==> !Closed(tree, p) && (p in tree ==> tree[p].sha != desired[p].sha))
            && (p in archive.records ==>
                && Before(archive.records[p]) == Contents(tree, p)
                && Later(archive.records[p]) == Contents(Apply(tree, desired, desired.Keys), p)
                && (p in archive.contents <==> p in tree)
                && (p in tree ==> archive.contents[p] == Content(tree[p].sha, SafeMode(tree[p].mode))))
  {
    hide TouchedStacks, SafeMode, Apply;
    ApplyLooksUp(tree, desired, desired.Keys);
    assert Lookup(Apply(tree, desired, desired.Keys), p) == AfterApply(tree, desired, desired.Keys, p);
  }

  // ----- making a change -----

  function Changed(tree: Tree, desired: ChangeSet, p: Path): Option<File> {
    if p in desired then if desired[p].readable then Some(Written(desired[p])) else None
    else Lookup(tree, p)
  }

  function Lookup(tree: Tree, p: Path): Option<File> {
    if p in tree then Some(tree[p]) else None
  }

  /** The change set carried out on the paths in `done` only: an interrupted write stops anywhere. */
  function Apply(tree: Tree, desired: ChangeSet, done: set<Path>): Tree {
    map p | p in tree.Keys + desired.Keys
         && AfterApply(tree, desired, done, p).Some? :: AfterApply(tree, desired, done, p).value
  }

  function AfterApply(tree: Tree, desired: ChangeSet, done: set<Path>, p: Path): Option<File> {
    if p in done then Changed(tree, desired, p) else Lookup(tree, p)
  }

  /** The change was carried out on some of its paths. */
  ghost predicate Partly(before: Tree, after: Tree, desired: ChangeSet) {
    exists done :: done <= desired.Keys && after == Apply(before, desired, done)
  }

  lemma ApplyLooksUp(tree: Tree, desired: ChangeSet, done: set<Path>)
    ensures forall p :: Lookup(Apply(tree, desired, done), p) == AfterApply(tree, desired, done, p)
  {
  }

  lemma SameLookups(a: Tree, b: Tree)
    requires forall p :: Lookup(a, p) == Lookup(b, p)
    ensures a == b
  {
    assert forall p :: p in a <==> Lookup(a, p).Some?;
    assert forall p :: p in b <==> Lookup(b, p).Some?;
  }

  // ----- playing a backup back -----

  datatype Current = Missing | Present(sha: Sha) | Unsupported

  function CurrentOf(tree: Tree, p: Path): Current {
    if p !in tree then Missing else if tree[p].readable then Present(tree[p].sha) else Unsupported
  }

  datatype Action = Noop | Restore | Remove | Clash

  function RestoreAction(r: Record, current: Current): Action {
    match current
    case Unsupported => Clash
    case Present(sha) =>
      if r.beforeExists && sha == r.beforeSha then Noop
      else if r.afterExists && sha == r.afterSha then (if r.beforeExists then Restore else Remove)
      else Clash
    case Missing =>
      if r.beforeExists && !r.afterExists then Restore
      else if r.beforeExists then Clash
      else Noop
  }

  function ActionAt(archive: Archive, tree: Tree, p: Path): Action {
    if p in archive.records then RestoreAction(archive.records[p], CurrentOf(tree, p)) else Noop
  }

  predicate Restorable(archive: Archive, tree: Tree, p: Path) {
    ActionAt(archive, tree, p) in {Restore, Remove}
  }

  /** The whole table: a path that is as it was needs nothing, one that stands exactly where the change left it is
      offered, and anything else, in particular a file that was edited, lost or cannot be read, is a conflict. */
  lemma ActionsExactly(archive: Archive, tree: Tree, p: Path)
    requires p in archive.records
    ensures var r, now, a := archive.records[p], Contents(tree, p), ActionAt(archive, tree, p);
            && (a == Clash <==> Closed(tree, p) || (now != Before(r) && now != Later(r)))
            && (a == Noop <==> !Closed(tree, p) && now == Before(r))
            && (a == Restore <==> !Closed(tree, p) && now == Later(r) != Before(r) && r.beforeExists)
            && (a == Remove <==> !Closed(tree, p) && now == Later(r) != Before(r) && !r.beforeExists)
  {
  }

  /** The path stands where the recorded change left it, and that is not where it was before. */
  predicate StandsAsLeft(r: Record, tree: Tree, p: Path) {
    !Closed(tree, p) && Contents(tree, p) == Later(r) != Before(r)
  }

  /** A restore of offered paths, finished or not, changes only files that stand where the recorded change left them,
      and gives each one it reaches its recorded contents. */
  lemma RestoreSparesEdits(archive: Archive, tree: Tree, chosen: set<Path>, done: set<Path>, p: Path)
    requires chosen <= RestorablePaths(archive, tree) && done <= chosen
    ensures var after := Apply(tree, DesiredBy(archive, chosen), done);
            if p in done
            then && p in archive.records && !Closed(tree, p)
                 && Contents(tree, p) == Later(archive.records[p])
                 && Contents(after, p) == Before(archive.records[p])
                 && (p in after <==> archive.records[p].beforeExists)
            else Lookup(after, p) == Lookup(tree, p)
  {
    hide SafeMode, Apply, ActionAt;
    ApplyLooksUp(tree, DesiredBy(archive, chosen), done);
    assert Lookup(Apply(tree, DesiredBy(archive, chosen), done), p) ==
           AfterApply(tree, DesiredBy(archive, chosen), done, p);
    if p in done {
      assert p in RestorablePaths(archive, tree);
      ActionsExactly(archive, tree, p);
    }
  }

  function RestorablePaths(archive: Archive, tree: Tree): set<Path> {
    set p | p in archive.records && Restorable(archive, tree, p)
  }

  ghost function Clashes(archive: Archive, tree: Tree): set<Path> {
    set p | p in archive.records && ActionAt(archive, tree, p) == Clash
  }

  function RestoreEntries(archive: Archive, tree: Tree): map<Path, Action> {
    map p | p in archive.records :: ActionAt(archive, tree, p)
  }

  method PreviewBackupRestore(archive: Archive, tree: Tree)
    returns (entries: map<Path, Action>, restorable: nat, conflicts: nat)
    ensures entries == RestoreEntries(archive, tree)
    ensures restorable == |RestorablePaths(archive, tree)|
    ensures conflicts == |Clashes(archive, tree)|
  {
    hide ActionAt, Restorable;
    entries, restorable, conflicts := map[], 0, 0;
    ghost var offered: set<Path>, clashing: set<Path> := {}, {};
    var todo := archive.records.Keys;
    while todo != {}
      invariant forall p :: p in archive.records <==> p in todo || p in entries
      invariant forall p :: p in todo ==> p !in entries
      invariant forall p :: p in entries ==> entries[p] == ActionAt(archive, tree, p)
      invariant forall p :: p in offered <==> p in entries && Restorable(archive, tree, p)
      invariant forall p :: p in clashing <==> p in entries && ActionAt(archive, tree, p) == Clash
      invariant restorable == |offered| && conflicts == |clashing|
    {
      var path :| path in todo;
      todo := todo - {path};
      var action := DecideRestore(archive, tree, path);
      if action == Restore || action == Remove {
        assert path !in offered;
        restorable := restorable + 1;
        offered := offered + {path};
      }
      if action == Clash {
        assert path !in clashing;
        conflicts := conflicts + 1;
        clashing := clashing + {path};
      }
      entries := entries[path := action];
    }
    assert offered == RestorablePaths(archive, tree);
    assert clashing == Clashes(archive, tree);
  }

  /** One turn of the preview loop. */
  method DecideRestore(archive: Archive, tree: Tree, path: Path) returns (action: Action)
    requires path in archive.records
    ensures action == ActionAt(archive, tree, path)
    ensures Restorable(archive, tree, path) <==> action == Restore || action == Remove
  {
    var record := archive.records[path];
    action := Noop;
    match CurrentOf(tree, path) {
      case Unsupported =>
        action := Clash;
      case Present(sha) =>
        if record.beforeExists && sha == record.beforeSha {
          action := Noop;
        } else if record.afterExists && sha == record.afterSha && record.beforeExists {
          action := Restore;
        } else if record.afterExists && sha == record.afterSha && !record.beforeExists {
          action := Remove;
        } else {
          action := Clash;
        }
      case Missing =>
        if record.beforeExists && !record.afterExists {
          action := Restore;
        } else if record.beforeExists && record.afterExists {
          action := Clash;
        }
    }
  }

  /** The change a restore of these paths carries out. */
  function DesiredBy(archive: Archive, chosen: set<Path>): ChangeSet {
    map p | p in chosen && p in archive.records ::
      if archive.records[p].beforeExists
      then File(archive.records[p].beforeSha, archive.records[p].beforeMode, true, "", false)
      else GONE
  }

  /** The chosen paths played back onto the tree. */
  function Replayed(tree: Tree, archive: Archive, chosen: set<Path>): Tree {
    Apply(tree, DesiredBy(archive, chosen), chosen)
  }

  // ----- a backup undoes the change it was taken for -----

  /** The inventory's own form of a readable file; writing it back changes nothing. */
  predicate Plain(f: File) {
    f.readable && 0 < f.mode < 0x200 && f.skipReason == "" && !f.directory
  }

  lemma SafeModeIsSafe(m: nat)
    ensures 0 < SafeMode(m) < 0x200 && SafeMode(SafeMode(m)) == SafeMode(m)
    ensures SafeMode(m) == m <==> 0 < m < 0x200
    ensures SafeMode(0) == 0x1A4 && (m % 0x200 != 0 ==> SafeMode(m) == m % 0x200)
  {
  }

  lemma PlainIsFixed(f: File)
    ensures Written(f) == f <==> Plain(f)
  {
    SafeModeIsSafe(f.mode);
  }

  /** A change set that alters every readable file it names. */
  ghost predicate Alters(desired: ChangeSet, tree: Tree) {
    forall p :: p in desired && p in tree && tree[p].readable ==> desired[p].sha != tree[p].sha
  }

  /** However far the write got, every recorded path is at its old or its new state: none clashes,
      and exactly the written ones are offered for restoration. */
  lemma InterruptedWriteNeverClashes(tree: Tree, desired: ChangeSet, done: set<Path>, catalogue: set<Path>, p: Path)
    requires Alters(desired, tree)
    requires p in ArchiveOf(desired, tree, catalogue).records
    ensures var r := ArchiveOf(desired, tree, catalogue).records[p];
            var a := RestoreAction(r, CurrentOf(Apply(tree, desired, done), p));
            && a != Clash
            && (a == Noop <==> p !in done || (p !in tree && !desired[p].readable))
            && (a == Restore ==> r.beforeExists) && (a == Remove ==> !r.beforeExists)
  {
    ApplyLooksUp(tree, desired, done);
    assert Lookup(Apply(tree, desired, done), p) == AfterApply(tree, desired, done, p);
  }

  /** What p is after restoring `chosen` on top of the interrupted write. */
  lemma ReplayedAt(tree: Tree, desired: ChangeSet, done: set<Path>, catalogue: set<Path>, chosen: set<Path>, p: Path)
    requires Alters(desired, tree)
    requires var archive := ArchiveOf(desired, tree, catalogue);
             chosen <= RestorablePaths(archive, Apply(tree, desired, done))
    ensures var archive := ArchiveOf(desired, tree, catalogue);
            Lookup(Replayed(Apply(tree, desired, done), archive, chosen), p) ==
            if p in chosen then (if p in tree then Some(Written(tree[p])) else None)
            else AfterApply(tree, desired, done, p)
  {
    var archive := ArchiveOf(desired, tree, catalogue);
    var half := Apply(tree, desired, done);
    ApplyLooksUp(tree, desired, done);
    ApplyLooksUp(half, DesiredBy(archive, chosen), chosen);
    assert Lookup(half, p) == AfterApply(tree, desired, done, p);
    assert Lookup(Replayed(half, archive, chosen), p) == AfterApply(half, DesiredBy(archive, chosen), chosen, p);
    if p in chosen {
      assert Restorable(archive, half, p);
      InterruptedWriteNeverClashes(tree, desired, done, catalogue, p);
      if p in tree { SafeModeIsSafe(tree[p].mode); }
    }
  }

  /** Restoring everything that is offered gives back the tree as it was, exactly when every
      destination the write reached was absent or a plain readable file. */
  lemma BackupUndoesTheWrite(tree: Tree, desired: ChangeSet, done: set<Path>, catalogue: set<Path>)
    requires Alters(desired, tree)
    ensures var archive := ArchiveOf(desired, tree, catalogue);
            var half := Apply(tree, desired, done);
            Replayed(half, archive, RestorablePaths(archive, half)) == tree
            <==> forall p :: p in done && p in desired && p in tree ==> Plain(tree[p])
  {
    var archive := ArchiveOf(desired, tree, catalogue);
    var half := Apply(tree, desired, done);
    var chosen := RestorablePaths(archive, half);
    var back := Replayed(half, archive, chosen);
    forall p ensures Lookup(back, p) == Lookup(tree, p) <==>
         (p in done && p in desired && p in tree ==> Plain(tree[p])) {
      ReplayedAt(tree, desired, done, catalogue, chosen, p);
      if p in archive.records { InterruptedWriteNeverClashes(tree, desired, done, catalogue, p); }
      if p in tree { PlainIsFixed(tree[p]); }
    }
    if forall p :: p in done && p in desired && p in tree ==> Plain(tree[p]) {
      SameLookups(back, tree);
    } else {
      var p :| p in done && p in desired && p in tree && !Plain(tree[p]);
      assert Lookup(back, p) != Lookup(tree, p);
    }
  }

  /** A restore is itself such a change, so its own safety backup undoes it in turn. */
  lemma RestoreAlters(tree: Tree, archive: Archive, chosen: set<Path>)
    requires chosen <= RestorablePaths(archive, tree)
    requires forall p :: p in tree && tree[p].readable ==> tree[p].sha != ""
    ensures Alters(DesiredBy(archive, chosen), tree)
  {
    forall p | p in DesiredBy(archive, chosen) && p in tree && tree[p].readable
      ensures DesiredBy(archive, chosen)[p].sha != tree[p].sha
    {
      assert Restorable(archive, tree, p);
    }
  }

  lemma RestoreIsUndoable(tree: Tree, archive: Archive, chosen: set<Path>, done: set<Path>, catalogue: set<Path>)
    requires chosen <= RestorablePaths(archive, tree)
    requires forall p :: p in tree && tree[p].readable ==> tree[p].sha != ""
    ensures var desired := DesiredBy(archive, chosen);
            var safety := ArchiveOf(desired, tree, catalogue);
            var half := Apply(tree, desired, done);
            Replayed(half, safety, RestorablePaths(safety, half)) == tree
            <==> forall p :: p in done && p in desired && p in tree ==> Plain(tree[p])
  {
    RestoreAlters(tree, archive, chosen);
    BackupUndoesTheWrite(tree, DesiredBy(archive, chosen), done, catalogue);
  }
}
