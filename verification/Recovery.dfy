/** The other undo paths of a Folder Link: restoring an import's backup and rolling stacks back to a commit. */
module Recovery {
  import opened Common
  import opened Paths
  import opened Preview
  import opened Catalogue
  import opened Transfer
  import opened Backup
  import opened Sync
  import opened Rollback

  // ----- the backup of an import -----

  lemma ImportIsAChange(l: Link, files: Tree, resolved: set<Path>, chosen: set<Path>)
    requires PartOf(files, Picked(l, Import, resolved, chosen))
    ensures Alters(StackFiles(files), l.stack)
    ensures AfterImport(l, files).stack == Apply(l.stack, StackFiles(files), StackFiles(files).Keys)
  {
    hide IsControl, Picked, BaselineAfter, SafeMode, WriteFiles, Apply;
    var desired := StackFiles(files);
    forall p | p in desired ensures desired[p].readable
         && (p in l.stack && l.stack[p].readable ==> desired[p].sha != l.stack[p].sha) {
      ImportTakes(l, resolved, chosen, p);
    }
    ApplyLooksUp(l.stack, desired, desired.Keys);
    forall p ensures Lookup(AfterImport(l, files).stack, p) == Lookup(Apply(l.stack, desired, desired.Keys), p) {
      WrittenAt(l, files, p);
    }
    SameLookups(AfterImport(l, files).stack, Apply(l.stack, desired, desired.Keys));
  }

  /** However far the write of an import got, restoring what its backup offers gives the stack back exactly
      when every destination it reached was missing or plain, and any smaller choice gives back that part. */
  lemma ImportBackupGivesTheStackBack(l: Link, files: Tree, resolved: set<Path>, chosen: set<Path>,
                                      catalogue: set<Path>,
                                      done: set<Path>, part: set<Path>, p: Path)
    requires PartOf(files, Picked(l, Import, resolved, chosen))
    requires var half := Apply(l.stack, StackFiles(files), done);
             part <= RestorablePaths(ArchiveOf(StackFiles(files), l.stack, catalogue), half)
    ensures var archive := ArchiveOf(StackFiles(files), l.stack, catalogue);
            var half := Apply(l.stack, StackFiles(files), done);
            && Clashes(archive, half) == {}
            && (Replayed(half, archive, RestorablePaths(archive, half)) == l.stack
                <==> forall q :: q in done && q in StackFiles(files) && q in l.stack ==> Plain(l.stack[q]))
            && Lookup(Replayed(half, archive, part), p) ==
               if p in part then (if p in l.stack then Some(Written(l.stack[p])) else None) else Lookup(half, p)
  {
    hide IsControl, Picked, SafeMode, Apply, StackFiles, Records, TouchedStacks, Replayed;
    ImportIsAChange(l, files, resolved, chosen);
    var archive := ArchiveOf(StackFiles(files), l.stack, catalogue);
    var half := Apply(l.stack, StackFiles(files), done);
    BackupUndoesTheWrite(l.stack, StackFiles(files), done, catalogue);
    ReplayedAt(l.stack, StackFiles(files), done, catalogue, part, p);
    ApplyLooksUp(l.stack, StackFiles(files), done);
    forall q | q in archive.records ensures ActionAt(archive, half, q) != Clash {
      InterruptedWriteNeverClashes(l.stack, StackFiles(files), done, catalogue, q);
    }
  }

  /** A destination the inventory could not open, for a reason that does not protect it, is overwritten
      without being recorded: no restore brings it back. */
  lemma UnrecordedDestinationIsLost(p: Path, l: Link)
    requires !IsControl(p)
    requires l.git == map[p := File("new", 0x1A4, true, "", false)]
    requires l.stack == map[p := File("", 0, false, "sensitive", false)] && l.base == map[]
    ensures var files := Picked(l, Import, {}, {});
            && p !in Records(StackFiles(files), l.stack)
            && Lookup(AfterImport(l, files).stack, p) == Some(Written(l.git[p]))
  {
    hide WriteFiles, BaselineAfter, Picked, SafeMode, IsControl;
    var files := Picked(l, Import, {}, {});
    PickedAt(l, Import, {}, {}, p);
    WrittenAt(l, files, p);
    ImportTakes(l, {}, {}, p);
  }

  // ----- rolling stacks back to a commit -----

  datatype CommitAction = OutOfScope | Untouchable | Same | Bring | Drop

  ghost function CommitActionAt(chosen: set<Path>, commit: Tree, current: Tree, p: Path): CommitAction {
    if (p !in commit && p !in current) || !exists c :: Owns(chosen, c, p) then OutOfScope
    else if p in commit && !commit[p].readable then Untouchable
    else if p in current && !current[p].readable then Untouchable
    else if p in commit && p in current && commit[p].sha == current[p].sha then Same
    else if p in commit then Bring
    else Drop
  }

  predicate Moves(a: CommitAction) { a == Bring || a == Drop }

  datatype CommitPreview = CommitPreview(entries: map<Path, CommitAction>, changed: nat, restores: nat, removals: nat,
                                         skipped: nat)

  ghost function CommitActions(chosen: set<Path>, commit: Tree, current: Tree): Path -> CommitAction {
    p => CommitActionAt(chosen, commit, current, p)
  }

  ghost function PathsWith(action: CommitAction, act: Path -> CommitAction, within: set<Path>): set<Path> {
    set p | p in within && act(p) == action
  }

  /** Every path in range that has an action is listed with it, and the counters count them. */
  ghost predicate Tallied(pv: CommitPreview, act: Path -> CommitAction, within: set<Path>) {
    && (forall p :: p in pv.entries <==> p in within && act(p) != OutOfScope)
    && (forall p :: p in pv.entries ==> pv.entries[p] == act(p))
    && pv.restores == |PathsWith(Bring, act, within)|
    && pv.removals == |PathsWith(Drop, act, within)|
    && pv.skipped == |PathsWith(Untouchable, act, within)|
    && pv.changed == pv.restores + pv.removals
  }

  function Tick(pv: CommitPreview, p: Path, a: CommitAction): CommitPreview {
    CommitPreview(if a == OutOfScope then pv.entries else pv.entries[p := a],
                  pv.changed + One(a in {Bring, Drop}), pv.restores + One(a == Bring), pv.removals + One(a ==
                       Drop), pv.skipped + One(a == Untouchable))
  }

  lemma PathsWithStep(action: CommitAction, act: Path -> CommitAction, within: set<Path>, p: Path)
    requires p !in within
    ensures |PathsWith(action, act, within + {p})| == |PathsWith(action, act, within)| + One(act(p) == action)
  {
    CardinalityStep(PathsWith(action, act, within), PathsWith(action, act, within + {p}), p, act(p) == action);
  }

  lemma TallyStep(pv: CommitPreview, act: Path -> CommitAction, within: set<Path>, p: Path)
    requires Tallied(pv, act, within) && p !in within
    ensures Tallied(Tick(pv, p, act(p)), act, within + {p})
  {
    hide PathsWith;
    PathsWithStep(Bring, act, within, p);
    PathsWithStep(Drop, act, within, p);
    PathsWithStep(Untouchable, act, within, p);
  }

  ghost predicate IsCommitPreview(pv: CommitPreview, chosen: set<Path>, commit: Tree, current: Tree) {
    Tallied(pv, CommitActions(chosen, commit, current), commit.Keys + current.Keys)
  }

  lemma EmptyTally(act: Path -> CommitAction)
    ensures Tallied(CommitPreview(map[], 0, 0, 0, 0), act, {})
  {
  }

  method BuildCommitRollbackPreview(composePaths: seq<Path>, commit: Tree, current: Tree) returns (pv: CommitPreview)
    ensures IsCommitPreview(pv, Members(composePaths), commit, current)
  {
    hide CommitActions, Owns, Tallied, Tick;
    ghost var act := CommitActions(Members(composePaths), commit, current);
    pv := CommitPreview(map[], 0, 0, 0, 0);
    EmptyTally(act);
    var all := commit.Keys + current.Keys;
    var todo := all;
    ghost var seen: set<Path> := {};
    while todo != {}
      invariant seen == all - todo && todo <= all
      invariant Tallied(pv, act, seen)
    {
      var path :| path in todo;
      todo := todo - {path};
      TallyStep(pv, act, seen, path);
      var action := DecideCommitAction(composePaths, commit, current, path);
      pv := ListAction(pv, path, action);
      seen := seen + {path};
    }
    assert seen == all;
  }

  method ListAction(pv: CommitPreview, path: Path, action: CommitAction) returns (r: CommitPreview)
    ensures r == Tick(pv, path, action)
  {
    r := pv;
    if action == OutOfScope { return; }
    if action == Bring {
      r := r.(changed := r.changed + 1, restores := r.restores + 1);
    } else if action == Drop {
      r := r.(changed := r.changed + 1, removals := r.removals + 1);
    } else if action == Untouchable {
      r := r.(skipped := r.skipped + 1);
    }
    r := r.(entries := r.entries[path := action]);
  }

  method DecideCommitAction(composePaths: seq<Path>, commit: Tree, current: Tree, path: Path)
    returns (action: CommitAction)
    requires path in commit || path in current
    ensures action == CommitActions(Members(composePaths), commit, current)(path)
  {
    hide Owns, Keep;
    var owners := ComposePathsForFile(composePaths, path);
    EmptyOrInhabited(owners);
    if |owners| == 0 { return OutOfScope; }
    if path in commit && !commit[path].readable { return Untouchable; }
    if path in current && !current[path].readable { return Untouchable; }
    if path in commit && path in current && commit[path].sha == current[path].sha { return Same; }
    if path in commit { return Bring; }
    action := Drop;
  }

  ghost function CommitChange(chosen: set<Path>, commit: Tree, current: Tree, picked: set<Path>): ChangeSet {
    map p | p in picked && Moves(CommitActionAt(chosen, commit, current, p)) ::
      if CommitActionAt(chosen, commit, current, p) == Bring && p in commit then commit[p] else GONE
  }

  /** Some chosen stack owns the path. */
  ghost predicate InScopeOf(chosen: set<Path>, p: Path) {
    exists c :: Owns(chosen, c, p)
  }

  /** A chosen stack owns the path, both sides can be read, and they differ. */
  ghost predicate DiffersFrom(chosen: set<Path>, commit: Tree, current: Tree, p: Path) {
    && InScopeOf(chosen, p) && !Closed(commit, p) && !Closed(current, p)
    && Contents(commit, p) != Contents(current, p)
  }

  /** What is listed as what: every difference moves, files the commit does not have are removed, and what cannot be
      read on one side is skipped. */
  lemma CommitActionsExactly(chosen: set<Path>, commit: Tree, current: Tree, p: Path)
    ensures var a, scope := CommitActionAt(chosen, commit, current, p), InScopeOf(chosen, p);
            && (a == Bring <==> DiffersFrom(chosen, commit, current, p) && p in commit)
            && (a == Drop <==> DiffersFrom(chosen, commit, current, p) && p !in commit)
            && (a == Untouchable <==> scope && (Closed(commit, p) || Closed(current, p)))
            && (a == Same <==> scope && Contents(commit, p) == Contents(current, p) != None)
  {
    hide Owns;
  }

  /** What a commit rollback of some paths does to one path, whatever else they are: a picked difference becomes the
      commit's file, or disappears with it, and every other path is left alone. */
  lemma CommitRollbackAt(chosen: set<Path>, commit: Tree, current: Tree, picked: set<Path>, p: Path)
    ensures var desired := CommitChange(chosen, commit, current, picked);
            var after := Apply(current, desired, desired.Keys);
            Lookup(after, p) ==
            if p in picked && DiffersFrom(chosen, commit, current, p)
            then (if p in commit then Some(Written(commit[p])) else None)
            else Lookup(current, p)
  {
    hide Owns, Apply, SafeMode, CommitActionAt, InScopeOf;
    var desired := CommitChange(chosen, commit, current, picked);
    ApplyLooksUp(current, desired, desired.Keys);
    assert Lookup(Apply(current, desired, desired.Keys), p) == AfterApply(current, desired, desired.Keys, p);
    CommitActionsExactly(chosen, commit, current, p);
  }

  /** Rolling back every listed path reaches the commit: on every path that a chosen stack owns and both sides let be
      read the stack has what the commit has and nothing else, and rebuilding the preview counts no change. */
  lemma FullCommitRollbackReachesTheCommit(chosen: set<Path>, commit: Tree, current: Tree, second: CommitPreview)
    requires var desired := CommitChange(chosen, commit, current, commit.Keys + current.Keys);
             IsCommitPreview(second, chosen, commit, Apply(current, desired, desired.Keys))
    ensures var desired := CommitChange(chosen, commit, current, commit.Keys + current.Keys);
            var after := Apply(current, desired, desired.Keys);
            forall p :: InScopeOf(chosen, p) && !Closed(commit, p) && !Closed(current, p) ==>
              (p in after <==> p in commit) && Contents(after, p) == Contents(commit, p)
    ensures second.changed == 0
  {
    hide Owns, Apply, IsCommitPreview, CommitActionAt, InScopeOf, Written, CommitChange;
    var desired := CommitChange(chosen, commit, current, commit.Keys + current.Keys);
    var after := Apply(current, desired, desired.Keys);
    forall p
      ensures !Moves(CommitActionAt(chosen, commit, after, p))
      ensures InScopeOf(chosen, p) && !Closed(commit, p) && !Closed(current, p) ==>
                (p in after <==> p in commit) && Contents(after, p) == Contents(commit, p)
    {
      CommitRollbackAt(chosen, commit, current, commit.Keys + current.Keys, p);
      CommitActionsExactly(chosen, commit, after, p);
      if p in commit { WrittenContents(commit[p]); }
    }
    CommitCounts(second, chosen, commit, after);
    var act, all := CommitActions(chosen, commit, after), commit.Keys + after.Keys;
    assert PathsWith(Bring, act, all) == {};
    assert PathsWith(Drop, act, all) == {};
  }

  lemma WrittenContents(f: File)
    ensures Written(f).readable && Written(f).sha == f.sha
  {
  }

  lemma CommitCounts(pv: CommitPreview, chosen: set<Path>, commit: Tree, current: Tree)
    requires IsCommitPreview(pv, chosen, commit, current)
    ensures var act, all := CommitActions(chosen, commit, current), commit.Keys + current.Keys;
            pv.changed == |PathsWith(Bring, act, all)| + |PathsWith(Drop, act, all)|
  {
  }

  /** The safety backup of a commit rollback undoes it, complete or interrupted. */
  lemma CommitRollbackIsUndoable(chosen: set<Path>, commit: Tree, current: Tree, picked: set<Path>, done: set<Path>,
                                 catalogue: set<Path>)
    requires forall p :: p in current && current[p].readable ==> current[p].sha != ""
    ensures var desired := CommitChange(chosen, commit, current, picked);
            var safety := ArchiveOf(desired, current, catalogue);
            var half := Apply(current, desired, done);
            Replayed(half, safety, RestorablePaths(safety, half)) == current
            <==> forall p :: p in done && p in desired && p in current ==> Plain(current[p])
  {
    hide Owns;
    var desired := CommitChange(chosen, commit, current, picked);
    assert Alters(desired, current);
    BackupUndoesTheWrite(current, desired, done, catalogue);
  }
}
