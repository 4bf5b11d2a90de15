/** The unattended import: it looks at the active stacks only, and imports around every open decision. */
module Unattended {
  import opened Common
  import opened Paths
  import opened Preview
  import opened Catalogue
  import opened Transfer
  import opened Backup
  import opened Sync
  import opened Rollback
  import Policy

  // ----- what a run looks at -----

  /** A manual transfer sees the whole link. An unattended one sees what lies under the directories of its active
      stacks, and the `extra` paths that include rules bring in. */
  datatype Sight = Everything | Only(active: set<Path>, extra: Path -> bool)

  predicate NoSlash(p: Path) {
    forall i :: 0 <= i < |p| ==> p[i] != '/'
  }

  /** A stack at the root of the link takes root files only, any other one its whole directory; directories on the
      way to it are opened as well. */
  predicate UnderRoot(root: Path, p: Path, directory: bool) {
    if root == "." then !directory && NoSlash(p)
    else p == root || Below(p, root) || (directory && Below(root, p))
  }

  predicate InSight(sight: Sight, p: Path, f: File) {
    || sight.Everything?
    || sight.extra(p)
    || exists c :: c in sight.active && UnderRoot(Dir(c), p, f.directory && !f.readable)
  }

  function Seen(tree: Tree, sight: Sight): Tree {
    map p | p in tree && InSight(sight, p, tree[p]) :: tree[p]
  }

  /** Both inventories are narrowed, the baseline is not. */
  function SeenLink(l: Link, sight: Sight): Link {
    Link(Seen(l.git, sight), Seen(l.stack, sight), l.base)
  }

  /** Compared with what was seen, written onto the whole stack. */
  function AfterSeenImport(l: Link, sight: Sight, files: Tree): Link {
    var n := SeenLink(l, sight);
    Link(l.git, WriteFiles(l.stack, StackFiles(files)), BaselineAfter(l.base, n.git, n.stack, files))
  }

  lemma EverythingIsSeen(l: Link, files: Tree)
    ensures SeenLink(l, Everything) == l && AfterSeenImport(l, Everything, files) == AfterImport(l, files)
  {
    assert Seen(l.git, Everything) == l.git && Seen(l.stack, Everything) == l.stack;
  }

  /** Joined names determine the list. */
  lemma JoinIsInjective(a: Policy.Names, b: Policy.Names)
    requires Policy.Plain(a) && Policy.Plain(b)
    ensures Policy.Join(a) == Policy.Join(b) <==> a == b
  {
    if Policy.Join(a) == Policy.Join(b) {
      assert Policy.NoSlash("x");
      Policy.PrefixTestIsComponentwise(a, a + ["x"]);
      Policy.PrefixTestIsComponentwise(b, a + ["x"]);
      Policy.PrefixTestIsComponentwise(b, b + ["x"]);
      Policy.PrefixTestIsComponentwise(a, b + ["x"]);
      assert b < a + ["x"] && a < b + ["x"];
      assert b == (a + ["x"])[..|b|] && a == (b + ["x"])[..|a|];
    }
  }

  lemma {:induction false} SlashMeansTwoNames(rel: Policy.Names)
    requires Policy.Plain(rel)
    ensures NoSlash(Policy.Join(rel)) <==> |rel| == 1
  {
    Policy.FirstSlash(rel);
  }

  function RootPath(root: Policy.Names): Path {
    if root == [] then "." else Policy.Join(root)
  }

  lemma RootTest(root: Policy.Names, rel: Policy.Names, directory: bool)
    requires Policy.Plain(rel) && (root == [] || (Policy.Plain(root) && Policy.Join(root) != "."))
    ensures UnderRoot(RootPath(root), Policy.Join(rel), directory) <==>
            if root == [] then !directory && |rel| == 1 else root <= rel || (directory && rel < root)
  {
    SlashMeansTwoNames(rel);
    if root != [] {
      JoinIsInjective(root, rel);
      Policy.PrefixTestIsComponentwise(root, rel);
      Policy.PrefixTestIsComponentwise(rel, root);
    }
  }

  /** The policy of an unattended run: its roots are the directories of the active stacks. */
  ghost predicate Narrows(policy: Policy.SyncPolicy, active: set<Path>) {
    && policy.selectionEnabled
    && (forall root :: root in policy.selectedRoots ==> root == [] || (Policy.Plain(root) && Policy.Join(root) != "."))
    && (forall root :: root in policy.selectedRoots ==> exists c :: c in active && Dir(c) == RootPath(root))
    && (forall c :: c in active ==> exists root :: root in policy.selectedRoots && Dir(c) == RootPath(root))
  }

  /** The include rules bring the file in, and the walk gets there. */
  ghost predicate Included(m: Policy.Glob, policy: Policy.SyncPolicy, f: Policy.Names)
    requires f != []
  {
    Policy.ExplicitlyIncludes(m, policy, f, false) && Policy.WayIsOpen(m, policy, [], f)
  }

  lemma ActiveIsRoot(policy: Policy.SyncPolicy, active: set<Path>, c: Path, rel: Policy.Names, directory: bool)
    requires Narrows(policy, active) && Policy.Plain(rel) && c in active
              && UnderRoot(Dir(c), Policy.Join(rel), directory)
    ensures || Policy.RootSelects(policy, rel, directory)
            || (directory && exists root :: root in policy.selectedRoots && rel < root)
  {
    hide UnderRoot, Policy.Join, Policy.NoSlash, Dir, RootPath;
    var root :| root in policy.selectedRoots && Dir(c) == RootPath(root);
    RootTest(root, rel, directory);
  }

  lemma RootIsActive(policy: Policy.SyncPolicy, active: set<Path>, root: Policy.Names, rel: Policy.Names,
                     directory: bool)
    requires Narrows(policy, active) && Policy.Plain(rel) && root in policy.selectedRoots
    requires if root == [] then !directory && |rel| == 1 else root <= rel || (directory && rel < root)
    ensures exists c :: c in active && UnderRoot(Dir(c), Policy.Join(rel), directory)
  {
    hide UnderRoot, Policy.Join, Policy.NoSlash, Dir, RootPath;
    RootTest(root, rel, directory);
    var c :| c in active && Dir(c) == RootPath(root);
  }

  lemma RootsInSight(policy: Policy.SyncPolicy, active: set<Path>, rel: Policy.Names, directory: bool)
    requires Narrows(policy, active) && Policy.Plain(rel)
    ensures (exists c :: c in active && UnderRoot(Dir(c), Policy.Join(rel), directory)) <==>
            || Policy.RootSelects(policy, rel, directory)
            || (directory && exists root :: root in policy.selectedRoots && rel < root)
  {
    hide UnderRoot, Policy.Join, Policy.NoSlash, Dir, RootPath, Narrows;
    if c :| c in active && UnderRoot(Dir(c), Policy.Join(rel), directory) {
      ActiveIsRoot(policy, active, c, rel, directory);
    }
    if Policy.RootSelects(policy, rel, directory) {
      var root :| root in policy.selectedRoots && (if root == [] then !directory && |rel| == 1 else root <= rel);
      RootIsActive(policy, active, root, rel, directory);
    }
    if root :| directory && root in policy.selectedRoots && rel < root {
      RootIsActive(policy, active, root, rel, directory);
    }
  }

  /** What a run sees of the files is exactly what the pruned walk finds under that policy. */
  lemma SightIsTheWalk(m: Policy.Glob, policy: Policy.SyncPolicy, active: set<Path>, extra: Path -> bool,
                       kids: seq<Policy.Node>, f: Policy.Names, file: File)
    requires Narrows(policy, active) && Policy.Plain(f) && (file.readable || !file.directory)
    requires extra(Policy.Join(f)) <==> Included(m, policy, f)
    ensures f in Policy.Walk(m, policy, kids, []) <==>
            f in Policy.AllFiles(kids, []) && InSight(Only(active, extra), Policy.Join(f), file)
  {
    hide UnderRoot, Policy.Walk, Policy.AllFiles, Policy.ExplicitlyIncludes, Policy.RootSelects, Policy.WayIsOpen;
    hide Policy.Join, Policy.NoSlash, Dir;
    Policy.WalkFindsExactly(m, policy, kids, [], f);
    RootsInSight(policy, active, f, false);
    if Policy.RootSelects(policy, f, false) { RootOpensTheWay(m, policy, f); }
  }

  lemma RootOpensTheWay(m: Policy.Glob, policy: Policy.SyncPolicy, f: Policy.Names)
    requires Policy.RootSelects(policy, f, false)
    ensures Policy.WayIsOpen(m, policy, [], f)
  {
    hide Policy.Entered, Policy.RootSelects;
    forall d: Policy.Names | 0 < |d| && d < f ensures Policy.Entered(m, policy, d) {
      Policy.PrunedWalkReaches(m, policy, f, d);
    }
  }

  /** And a directory that cannot be opened is seen exactly when the walk would enter it. */
  lemma ClosedDirectoryInSight(m: Policy.Glob, policy: Policy.SyncPolicy, active: set<Path>, extra: Path -> bool,
                               d: Policy.Names, entry: File)
    requires Narrows(policy, active) && Policy.Plain(d) && entry.directory && !entry.readable
    requires extra(Policy.Join(d)) <==>
             Policy.ExplicitlyIncludes(m, policy, d, true) || Policy.IncludeCanMatchBelow(m, policy, d)
    ensures InSight(Only(active, extra), Policy.Join(d), entry) <==> Policy.Entered(m, policy, d)
  {
    hide UnderRoot, Policy.Join, Policy.NoSlash, Policy.ExplicitlyIncludes, Policy.IncludeCanMatchBelow, Dir;
    RootsInSight(policy, active, d, true);
  }

  lemma SeenAt(tree: Tree, sight: Sight, p: Path)
    ensures Lookup(Seen(tree, sight), p) == if p in tree && InSight(sight, p, tree[p]) then Some(tree[p]) else None
  {
  }

  /** A readable file of the stack is seen whenever Git's readable file of that path is. */
  lemma SeenOnBothSides(l: Link, sight: Sight, p: Path)
    requires p in Seen(l.git, sight) && l.git[p].readable && p in l.stack && l.stack[p].readable
    ensures p in Seen(l.stack, sight) && Seen(l.stack, sight)[p] == l.stack[p]
  {
    hide UnderRoot;
  }

  lemma SeenWrittenAt(l: Link, sight: Sight, files: Tree, p: Path)
    ensures Lookup(AfterSeenImport(l, sight, files).stack, p) ==
            if p in files && !IsControl(p) && files[p].readable then Some(Written(files[p])) else Lookup(l.stack, p)
    ensures Tracked(AfterSeenImport(l, sight, files).base, p) ==
            NextBase(l.base, Seen(l.git, sight), Seen(l.stack, sight), files, p)
  {
    hide BaselineAfter, NextBase, IsControl, InSight, Seen;
    WrittenAt(l, files, p);
    BaselineAfterTracks(l.base, Seen(l.git, sight), Seen(l.stack, sight), files);
  }

  // ----- an import of what is seen is an import -----

  /** A path that is taken can be seen, whatever readable file stands there. */
  lemma TakenIsInSight(l: Link, sight: Sight, resolved: set<Path>, chosen: set<Path>, p: Path)
    requires p in StackFiles(Picked(SeenLink(l, sight), Import, resolved, chosen))
    ensures forall f: File :: f.readable ==> InSight(sight, p, f)
    ensures p in l.git && l.git[p].readable && Picked(SeenLink(l, sight), Import, resolved, chosen)[p] == l.git[p]
    ensures p in l.stack && l.stack[p].readable ==> l.git[p].sha != l.stack[p].sha
  {
    hide Picked, IsControl, UnderRoot;
    ImportTakes(SeenLink(l, sight), resolved, chosen, p);
    if p in l.stack && l.stack[p].readable { SeenOnBothSides(l, sight, p); }
  }

  /** Seen through the same sight, an import is the import of the link as seen: what holds of imports holds of it. */
  lemma SeenImportIsImport(l: Link, sight: Sight, files: Tree, resolved: set<Path>, chosen: set<Path>)
    requires PartOf(files, Picked(SeenLink(l, sight), Import, resolved, chosen))
    ensures SeenLink(AfterSeenImport(l, sight, files), sight) == AfterImport(SeenLink(l, sight), files)
  {
    hide Picked, IsControl, BaselineAfter, InSight, Seen, WriteFiles;
    var n := SeenLink(l, sight);
    var after := AfterSeenImport(l, sight, files);
    forall p ensures Lookup(Seen(after.stack, sight), p) == Lookup(AfterImport(n, files).stack, p) {
      SeenAt(after.stack, sight, p);
      SeenAt(l.stack, sight, p);
      SeenWrittenAt(l, sight, files, p);
      WrittenAt(n, files, p);
      if p in StackFiles(files) { TakenIsInSight(l, sight, resolved, chosen, p); }
    }
    SameLookups(Seen(after.stack, sight), AfterImport(n, files).stack);
  }

  /** On the whole stack it is a change set of its own, and the backup knows every readable file it replaces. */
  lemma SeenImportIsAChange(l: Link, sight: Sight, files: Tree, resolved: set<Path>, chosen: set<Path>)
    requires PartOf(files, Picked(SeenLink(l, sight), Import, resolved, chosen))
    ensures Alters(StackFiles(files), l.stack)
    ensures AfterSeenImport(l, sight, files).stack == Apply(l.stack, StackFiles(files), StackFiles(files).Keys)
    ensures forall p :: p in StackFiles(files) ==> p in l.git && StackFiles(files)[p] == l.git[p] && l.git[p].readable
    ensures forall p :: p in StackFiles(files) && p in l.stack && l.stack[p].readable ==>
              p in Seen(l.stack, sight) && Seen(l.stack, sight)[p] == l.stack[p]
  {
    hide Picked, IsControl, BaselineAfter, InSight, Seen, WriteFiles, Apply;
    var desired := StackFiles(files);
    forall p | p in desired
      ensures p in l.git && desired[p] == l.git[p] && l.git[p].readable
      ensures p in l.stack && l.stack[p].readable ==>
                desired[p].sha != l.stack[p].sha && p in Seen(l.stack, sight) && Seen(l.stack, sight)[p] == l.stack[p]
    {
      TakenIsInSight(l, sight, resolved, chosen, p);
      SeenAt(l.stack, sight, p);
    }
    ApplyLooksUp(l.stack, desired, desired.Keys);
    forall p ensures Lookup(AfterSeenImport(l, sight, files).stack, p) ==
         Lookup(Apply(l.stack, desired, desired.Keys), p) {
      SeenWrittenAt(l, sight, files, p);
    }
    SameLookups(AfterSeenImport(l, sight, files).stack, Apply(l.stack, desired, desired.Keys));
  }

  /** The whole link after an import of what was seen and the rollback of one stack. */
  ghost function SeenAndRolledBack(l: Link, sight: Sight, files: Tree, catalogue: set<Path>, compose: Path): Link {
    RolledBack(AfterSeenImport(l, sight, files), ArchiveOf(StackFiles(files), Seen(l.stack, sight), catalogue), compose)
  }

  /** One path after a rollback: played back, or as it was. */
  lemma RolledBackLooksUp(l: Link, archive: Archive, compose: Path, p: Path)
    ensures var owned := OwnedRecords(archive, compose);
            var replay := ToReplay(archive, l.stack, owned);
            && Lookup(RolledBack(l, archive, compose).stack, p) ==
                 AfterApply(l.stack, DesiredBy(archive, replay), replay, p)
            && Tracked(RolledBack(l, archive, compose).base, p) == BaseBefore(archive, owned, l.base, p)
            && RolledBack(l, archive, compose).git == l.git
  {
    hide Owns, RollbackAt, RolledBackBase, Apply;
    var owned := OwnedRecords(archive, compose);
    var replay := ToReplay(archive, l.stack, owned);
    RolledBackBaseTracks(archive, owned, l.base);
    ApplyLooksUp(l.stack, DesiredBy(archive, replay), replay);
  }

  /** On recorded paths the rollback depends on the stack there only; elsewhere it does nothing. */
  lemma RolledBackAlike(l: Link, n: Link, archive: Archive, compose: Path, p: Path)
    requires l.base == n.base && (p in archive.records ==> Lookup(l.stack, p) == Lookup(n.stack, p))
    ensures Lookup(RolledBack(l, archive, compose).stack, p) ==
            if p in archive.records then Lookup(RolledBack(n, archive, compose).stack, p) else Lookup(l.stack, p)
    ensures Tracked(RolledBack(l, archive, compose).base, p) == Tracked(RolledBack(n, archive, compose).base, p)
  {
    hide Owns, RolledBack, SafeMode, OwnedRecords;
    OwnedIsRecorded(archive, compose);
    RolledBackLooksUp(l, archive, compose, p);
    RolledBackLooksUp(n, archive, compose, p);
    assert CurrentOf(l.stack, p) == CurrentOf(n.stack, p) || p !in archive.records;
  }

  lemma OwnedIsRecorded(archive: Archive, compose: Path)
    ensures OwnedRecords(archive, compose) <= archive.records.Keys
  {
    hide Owns;
  }

  /** A recorded path holds the imported file before the rollback and a readable file or nothing after it. */
  lemma RecordedAfterRollback(l: Link, sight: Sight, files: Tree, resolved: set<Path>, chosen: set<Path>,
                              catalogue: set<Path>, compose: Path, p: Path)
    requires PartOf(files, Picked(SeenLink(l, sight), Import, resolved, chosen))
    requires p in ArchiveOf(StackFiles(files), Seen(l.stack, sight), catalogue).records
    ensures var w, m := AfterSeenImport(l, sight, files), AfterImport(SeenLink(l, sight), files);
            var back := Lookup(SeenAndRolledBack(l, sight, files, catalogue, compose).stack, p);
            && p in StackFiles(files) && Lookup(w.stack, p) == Lookup(m.stack, p)
            && (back.Some? ==> back.value.readable && InSight(sight, p, back.value))
  {
    hide Picked, IsControl, BaselineAfter, InSight, Seen, TouchedStacks, SafeMode, RolledBack, Owns, WriteFiles;
    hide RollbackAt;
    TakenIsInSight(l, sight, resolved, chosen, p);
    SeenWrittenAt(l, sight, files, p);
    WrittenAt(SeenLink(l, sight), files, p);
    RolledBackLooksUp(AfterSeenImport(l, sight, files), ArchiveOf(StackFiles(files), Seen(l.stack, sight), catalogue),
                      compose, p);
  }

  /** Seen through the same sight, the rollback is the rollback of the link as seen. */
  lemma SeenRollbackIsRollback(l: Link, sight: Sight, files: Tree, resolved: set<Path>, chosen: set<Path>,
                               catalogue: set<Path>, compose: Path)
    requires PartOf(files, Picked(SeenLink(l, sight), Import, resolved, chosen))
    ensures SeenLink(SeenAndRolledBack(l, sight, files, catalogue, compose), sight) ==
            ImportedAndRolledBack(SeenLink(l, sight), files, catalogue, compose)
  {
    hide Picked, IsControl, BaselineAfter, InSight, Seen, ArchiveOf, RolledBack, Owns, WriteFiles;
    var n := SeenLink(l, sight);
    var w, m := AfterSeenImport(l, sight, files), AfterImport(n, files);
    var archive := ArchiveOf(StackFiles(files), n.stack, catalogue);
    var back, seen := SeenAndRolledBack(l, sight, files, catalogue, compose),
         ImportedAndRolledBack(n, files, catalogue, compose);
    SeenImportIsImport(l, sight, files, resolved, chosen);
    forall p
      ensures Lookup(Seen(back.stack, sight), p) == Lookup(seen.stack, p)
      ensures Tracked(back.base, p) == Tracked(seen.base, p)
    {
      if p in archive.records { RecordedAfterRollback(l, sight, files, resolved, chosen, catalogue, compose, p); }
      RolledBackAlike(w, m, archive, compose, p);
      RolledBackAlike(m, m, archive, compose, p);
      SeenAt(back.stack, sight, p);
      SeenAt(w.stack, sight, p);
    }
    SameLookups(Seen(back.stack, sight), seen.stack);
    SameTracking(back.base, seen.base);
    RolledBackLooksUp(w, archive, compose, "");
    RolledBackLooksUp(m, archive, compose, "");
  }

  lemma RollbackStaysAllowed(l: Link, sight: Sight, files: Tree, resolved: set<Path>, chosen: set<Path>,
                             catalogue: set<Path>, compose: Path)
    requires PartOf(files, Picked(SeenLink(l, sight), Import, resolved, chosen))
    ensures var archive := ArchiveOf(StackFiles(files), Seen(l.stack, sight), catalogue);
            var owned := OwnedRecords(archive, compose);
            owned != {} ==> RollbackAllowed(archive, AfterSeenImport(l, sight, files).stack, owned)
  {
    hide Picked, IsControl, BaselineAfter, InSight, Seen, ArchiveOf, RolledBack, OwnedRecords, WriteFiles;
    var n := SeenLink(l, sight);
    var archive := ArchiveOf(StackFiles(files), n.stack, catalogue);
    OwnedIsRecorded(archive, compose);
    forall p | p in OwnedRecords(archive, compose)
      ensures RollbackAt(archive, AfterSeenImport(l, sight, files).stack, p) != Clash
    {
      RecordedAfterRollback(l, sight, files, resolved, chosen, catalogue, compose, p);
      UntouchedImportCanBeRolledBack(n, files, resolved, chosen, catalogue, p);
      assert CurrentOf(AfterSeenImport(l, sight, files).stack, p) == CurrentOf(AfterImport(n, files).stack, p);
    }
  }

  /** What the rollback makes of one path of the whole stack. */
  lemma SeenRolledBackAt(l: Link, sight: Sight, files: Tree, resolved: set<Path>, chosen: set<Path>,
                         catalogue: set<Path>, compose: Path, p: Path)
    requires PartOf(files, Picked(SeenLink(l, sight), Import, resolved, chosen))
    ensures var n := SeenLink(l, sight);
            var w, back := AfterSeenImport(l, sight, files), SeenAndRolledBack(l, sight, files, catalogue, compose);
            if p in ArchiveOf(StackFiles(files), n.stack, catalogue).records && Owns(catalogue, compose, p)
            then && Lookup(back.stack, p) == (if p in n.stack then Some(Written(n.stack[p])) else None)
                 && Tracked(back.base, p) == (if p in n.stack then Some(n.stack[p].sha) else None)
            else Lookup(back.stack, p) == Lookup(w.stack, p) && Tracked(back.base, p) == Tracked(w.base, p)
  {
    hide Picked, IsControl, BaselineAfter, InSight, Seen, ArchiveOf, RolledBack, Owns, WriteFiles, Written;
    var n := SeenLink(l, sight);
    var w, m := AfterSeenImport(l, sight, files), AfterImport(n, files);
    var archive := ArchiveOf(StackFiles(files), n.stack, catalogue);
    if p in archive.records { RecordedAfterRollback(l, sight, files, resolved, chosen, catalogue, compose, p); }
    RolledBackAlike(w, m, archive, compose, p);
    RolledBackAt(n, files, resolved, chosen, catalogue, compose, p);
  }

  lemma RollbackCarriesOver(l: Link, sight: Sight, files: Tree, resolved: set<Path>, chosen: set<Path>,
                            catalogue: set<Path>, compose: Path, p: Path)
    requires PartOf(files, Picked(SeenLink(l, sight), Import, resolved, chosen))
    ensures var w, back := AfterSeenImport(l, sight, files), SeenAndRolledBack(l, sight, files, catalogue, compose);
            && (Owns(catalogue, compose, p) ==>
                 (Lookup(back.stack, p) == Lookup(l.stack, p) <==>
                  (p in StackFiles(files) && p in l.stack ==> Plain(l.stack[p]))))
            && (!Owns(catalogue, compose, p) ==>
                 Lookup(back.stack, p) == Lookup(w.stack, p) && Tracked(back.base, p) == Tracked(w.base, p))
  {
    hide Picked, IsControl, BaselineAfter, InSight, Seen, TouchedStacks, RolledBack, Owns, WriteFiles, SafeMode;
    SeenRolledBackAt(l, sight, files, resolved, chosen, catalogue, compose, p);
    SeenWrittenAt(l, sight, files, p);
    SeenAt(l.stack, sight, p);
    if p in StackFiles(files) {
      TakenIsInSight(l, sight, resolved, chosen, p);
      if p in l.stack { PlainIsFixed(l.stack[p]); }
    }
  }

  /** The import took the file, if at all, as a plain change onto a readable destination: no conflict was settled and no
      local deletion undone. */
  ghost predicate NothingSettled(n: Link, files: Tree, p: Path) {
    p in files ==>
      var v := View(n, Import)(p);
      v.Emit? && v.entry.kind == NoKind && (p in n.stack ==> n.stack[p].readable)
  }

  /** The rollback of a stack after an unattended import: it goes through as soon as the stack owns an imported file,
      the whole stack folder is back there exactly when the destinations were missing or plain, nothing else moves, and
      the next unattended preview gives the files the verdicts they had. */
  lemma UnattendedRollbackRestoresTheStack(l: Link, sight: Sight, files: Tree, resolved: set<Path>, chosen: set<Path>,
                                           catalogue: set<Path>, compose: Path, p: Path)
    requires PartOf(files, Picked(SeenLink(l, sight), Import, resolved, chosen))
    ensures var n := SeenLink(l, sight);
            var archive := ArchiveOf(StackFiles(files), n.stack, catalogue);
            var w, back := AfterSeenImport(l, sight, files), SeenAndRolledBack(l, sight, files, catalogue, compose);
            && (OwnedRecords(archive, compose) != {} ==>
                RollbackAllowed(archive, w.stack, OwnedRecords(archive, compose)))
            && (Owns(catalogue, compose, p) ==>
                 (Lookup(back.stack, p) == Lookup(l.stack, p) <==>
                  (p in StackFiles(files) && p in l.stack ==> Plain(l.stack[p]))))
            && (!Owns(catalogue, compose, p) ==>
                 Lookup(back.stack, p) == Lookup(w.stack, p) && Tracked(back.base, p) == Tracked(w.base, p))
            && (Owns(catalogue, compose, p) && !IsControl(p) && NothingSettled(n, files, p) ==>
                 View(SeenLink(back, sight), Import)(p) == View(n, Import)(p))
  {
    hide Picked, IsControl, BaselineAfter, InSight, Seen, ArchiveOf, RolledBack, Owns, WriteFiles, View, Plain;
    hide OwnedRecords;
    var n := SeenLink(l, sight);
    SeenRollbackIsRollback(l, sight, files, resolved, chosen, catalogue, compose);
    RollbackStaysAllowed(l, sight, files, resolved, chosen, catalogue, compose);
    RollbackCarriesOver(l, sight, files, resolved, chosen, catalogue, compose, p);
    if Owns(catalogue, compose, p) && !IsControl(p) && NothingSettled(n, files, p) {
      RollbackRestoresTheVerdict(n, files, resolved, chosen, catalogue, compose, p);
    }
  }

  // ----- what a run takes -----

  /** The active stacks with an open decision among the files seen. */
  ghost function HeldStacks(n: Link, active: set<Path>): set<Path> {
    set c | c in active && HeldBack(View(n, Import), Scope(n), active, c)
  }

  /** With an open decision anywhere, the run goes on only if some stack can be named for it and another one is left. */
  ghost predicate AutoProceeds(n: Link, active: set<Path>) {
    && active != {}
    && (OpenConflicts(n, Import) + LocalDeletions(Import, View(n, Import), Scope(n)) != {} ==>
          HeldStacks(n, active) != {} && active - HeldStacks(n, active) != {})
  }

  /** No conflict resolved, nothing chosen by hand, every stack with an open decision set aside. Decisions are
      attributed among the `active` stacks, files among all `selected` ones. `n` is the link as seen. */
  ghost function AutoFiles(n: Link, active: set<Path>, selected: set<Path>, setAside: set<Path>): Tree {
    if AutoProceeds(n, active) then Without(Picked(n, Import, {}, {}) - setAside, selected, HeldStacks(n, active))
    else map[]
  }

  lemma AutoIsPart(n: Link, active: set<Path>, selected: set<Path>, setAside: set<Path>)
    ensures PartOf(AutoFiles(n, active, selected, setAside), Picked(n, Import, {}, {}))
  {
    hide Picked, OwnedByAny, AutoProceeds;
  }

  /** A conflict, or a file that was deleted locally. */
  ghost predicate IsOpen(n: Link, q: Path) {
    IsConflict(View(n, Import)(q)) || IsLocalDeletion(Import, View(n, Import)(q))
  }

  /** A stack is held exactly when it owns a path with an open decision among the active ones. */
  lemma HeldExactly(n: Link, active: set<Path>, c: Path)
    ensures c in HeldStacks(n, active) <==> exists q :: IsOpen(n, q) && Owns(active, c, q)
  {
    hide View, Scope, Covers, Depth, NeedsDecision, IsConflict, IsLocalDeletion;
    forall q ensures IsOpen(n, q) <==> q in Scope(n) && NeedsDecision(View(n, Import)(q)) { OpenNeedsDecision(n, q); }
  }

  lemma OpenNeedsDecision(n: Link, q: Path)
    ensures IsOpen(n, q) <==> q in Scope(n) && NeedsDecision(View(n, Import)(q))
  {
    hide Verdicts, Scope;
    VerdictShape(n, Import, q);
    DecisionShape(n, q);
  }

  lemma DecisionShape(n: Link, q: Path)
    ensures var v := View(n, Import)(q);
            v.Emit? ==>
              && (v.entry.directory ==> v.entry.status.Skipped? && v.entry.kind == NoKind)
              && v.entry.status != DeletedLocally
              && (v.entry.kind == DestinationDeletedSourceChanged ==> v.entry.status.Conflict?)
  {
    hide IsControl, Blocker;
  }

  /** A run goes on exactly when there is a stack to run for and, if anything is open at all, some active stack owns an
      open decision and some other one owns none. */
  lemma ProceedsExactly(n: Link, active: set<Path>)
    ensures AutoProceeds(n, active) <==>
            && active != {}
            && ((exists q :: IsOpen(n, q)) ==>
                && (exists c, q :: IsOpen(n, q) && Owns(active, c, q))
                && (exists c :: c in active && forall q :: IsOpen(n, q) ==> !Owns(active, c, q)))
  {
    hide View, Scope, IsConflict, IsLocalDeletion, HeldStacks, Covers, Depth, NeedsDecision;
    var open := OpenConflicts(n, Import) + LocalDeletions(Import, View(n, Import), Scope(n));
    forall q ensures IsOpen(n, q) <==> q in open {
      OpenNeedsDecision(n, q);
    }
    forall c ensures c in HeldStacks(n, active) <==> exists q :: IsOpen(n, q) && Owns(active, c, q) {
      HeldExactly(n, active, c);
    }
    if c, q :| IsOpen(n, q) && Owns(active, c, q) { assert c in HeldStacks(n, active); }
    if c :| c in active && forall q :: IsOpen(n, q) ==> !Owns(active, c, q) {
      assert c in active - HeldStacks(n, active);
    }
  }

  /** A run that goes on takes every plain change, except files set aside and files of a stack that owns an open
      decision. */
  lemma AutoTakesExactly(n: Link, active: set<Path>, selected: set<Path>, setAside: set<Path>, p: Path)
    ensures p in AutoFiles(n, active, selected, setAside) <==>
            && AutoProceeds(n, active) && p in Picked(n, Import, {}, {}) && p !in setAside
            && forall c, q :: Owns(selected, c, p) && IsOpen(n, q) ==> !Owns(active, c, q)
  {
    hide Picked, Owns, IsOpen, HeldStacks, AutoProceeds;
    forall c ensures c in HeldStacks(n, active) <==> exists q :: IsOpen(n, q) && Owns(active, c, q) {
      HeldExactly(n, active, c);
    }
  }

  // ----- what a run leaves alone -----

  /** A file that is not seen in Git is not written, and keeps its baseline unless it is a control manifest. */
  lemma OutOfSightIsUntouched(l: Link, active: set<Path>, extra: Path -> bool, selected: set<Path>, setAside: set<Path>,
                              p: Path)
    requires p !in Seen(l.git, Only(active, extra))
    ensures var sight := Only(active, extra);
            var after := AfterSeenImport(l, sight, AutoFiles(SeenLink(l, sight), active, selected, setAside));
            && Lookup(after.stack, p) == Lookup(l.stack, p)
            && (!IsControl(p) ==> Tracked(after.base, p) == Tracked(l.base, p))
  {
    hide IsControl, Picked, AutoProceeds, HeldStacks, AutoFiles;
    var sight := Only(active, extra);
    var n := SeenLink(l, sight);
    var files := AutoFiles(n, active, selected, setAside);
    AutoIsPart(n, active, selected, setAside);
    SeenWrittenAt(l, sight, files, p);
    if p in StackFiles(files) { ImportTakes(n, {}, {}, p); }
  }

  /** A stack with one open decision keeps all its files, whatever Git has for them. */
  lemma HeldBackStackIsUntouched(l: Link, active: set<Path>, extra: Path -> bool, selected: set<Path>,
                                 setAside: set<Path>,
                                 compose: Path, p: Path)
    requires compose in HeldStacks(SeenLink(l, Only(active, extra)), active) && Owns(selected, compose, p)
    ensures var sight := Only(active, extra);
            var n := SeenLink(l, sight);
            var after := AfterSeenImport(l, sight, AutoFiles(n, active, selected, setAside));
            && Lookup(after.stack, p) == Lookup(l.stack, p)
            && (!IsControl(p) ==> (Tracked(after.base, p) == Tracked(l.base, p) <==> !RefreshedInPassing(n, p)))
  {
    hide IsControl, Picked, Seen, HeldBack, Owns, AutoProceeds, HeldStacks;
    var sight := Only(active, extra);
    var n := SeenLink(l, sight);
    assert OwnedByAny(selected, HeldStacks(n, active), p);
    var files := AutoFiles(n, active, selected, setAside);
    assert p !in files;
    SeenWrittenAt(l, sight, files, p);
  }

  /** The active owner of one conflict or one local deletion keeps all its files. */
  lemma OpenDecisionKeepsTheStack(l: Link, active: set<Path>, extra: Path -> bool, selected: set<Path>,
                                  setAside: set<Path>, compose: Path, q: Path, p: Path)
    requires IsOpen(SeenLink(l, Only(active, extra)), q) && Owns(active, compose, q) && Owns(selected, compose, p)
    ensures var sight := Only(active, extra);
            var files := AutoFiles(SeenLink(l, sight), active, selected, setAside);
            p !in files && Lookup(AfterSeenImport(l, sight, files).stack, p) == Lookup(l.stack, p)
  {
    hide IsOpen, Owns, HeldStacks, Seen, Picked, AutoProceeds;
    var n := SeenLink(l, Only(active, extra));
    HeldExactly(n, active, compose);
    HeldBackStackIsUntouched(l, active, extra, selected, setAside, compose, p);
    assert OwnedByAny(selected, HeldStacks(n, active), p);
  }

  // ----- open decisions -----

  /** Some active stack has the file in its directory. */
  ghost predicate Around(active: set<Path>, p: Path) {
    exists c :: c in active && Covers(Root(c), p)
  }

  /** The stack has the file in its directory, below every active stack that has it too. */
  ghost predicate Deeper(active: set<Path>, e: Path, p: Path) {
    Covers(Root(e), p) && forall c :: c in active && Covers(Root(c), p) ==> Depth(Root(c)) < Depth(Root(e))
  }

  /** Inside the active stacks around the file there is a selected one that is not active, because it is paused or left
      out of unattended synchronisation: it owns the file. */
  ghost predicate PausedInside(active: set<Path>, selected: set<Path>, p: Path) {
    Around(active, p) && exists e :: e in selected && Deeper(active, e, p)
  }

  /** A stack that owns a file in the whole catalogue owns it among fewer stacks too. */
  lemma OwnsAmongFewer(few: set<Path>, all: set<Path>, c: Path, p: Path)
    requires few <= all && c in few && Owns(all, c, p)
    ensures Owns(few, c, p)
  {
  }

  lemma DeeperHidesActive(active: set<Path>, selected: set<Path>, e: Path, c: Path, p: Path)
    requires e in selected && Deeper(active, e, p) && c in active
    ensures !Owns(selected, c, p)
  {
    hide Covers, Depth;
  }

  lemma NothingDeeper(active: set<Path>, selected: set<Path>, c: Path, p: Path)
    requires active <= selected && Owns(active, c, p) && forall e :: e in selected ==> !Deeper(active, e, p)
    ensures Owns(selected, c, p)
  {
    hide Covers, Depth;
    forall e | e in selected && Covers(Root(e), p) ensures Depth(Root(e)) <= Depth(Root(c)) {
      assert !Deeper(active, e, p);
    }
  }

  lemma ActiveOwner(active: set<Path>, selected: set<Path>, p: Path)
    requires active <= selected
    ensures (exists c :: c in active && Owns(selected, c, p)) <==>
              Around(active, p) && !PausedInside(active, selected, p)
    ensures PausedInside(active, selected, p) ==> Around(active, p)
  {
    hide Owns, Covers, Deeper;
    if c :| c in active && Owns(selected, c, p) {
      OwnsAmongFewer(active, selected, c, p);
      if e :| e in selected && Deeper(active, e, p) { DeeperHidesActive(active, selected, e, c, p); }
    }
    CoveredIsOwned(active, p);
    if Around(active, p) && !PausedInside(active, selected, p) {
      var c :| Owns(active, c, p);
      NothingDeeper(active, selected, c, p);
      OwnerCovers(active, c, p);
    }
  }

  lemma OwnerCovers(active: set<Path>, c: Path, p: Path)
    requires Owns(active, c, p)
    ensures c in active && Covers(Root(c), p)
  {
  }

  /** A file seen without the help of an include rule has an active stack around it. */
  lemma SeenIsAround(l: Link, active: set<Path>, extra: Path -> bool, p: Path)
    requires p in Seen(l.git, Only(active, extra)) && l.git[p].readable && !extra(p)
    ensures Around(active, p)
  {
    var c :| c in active && UnderRoot(Dir(c), p, false);
    assert Covers(Root(c), p);
  }

  /** The owner of an open decision among the active stacks is held. */
  lemma DecisionHolds(n: Link, active: set<Path>, p: Path)
    requires p in Scope(n) && NeedsDecision(View(n, Import)(p)) && Around(active, p)
    ensures exists c :: c in HeldStacks(n, active) && Covers(Root(c), p)
  {
    hide View, Scope, Covers, Depth, NeedsDecision;
    CoveredIsOwned(active, p);
    var c :| Owns(active, c, p);
    assert HeldBack(View(n, Import), Scope(n), active, c);
    assert c in HeldStacks(n, active);
  }

  lemma HeldOwner(n: Link, active: set<Path>, selected: set<Path>, p: Path)
    requires active <= selected && p in Scope(n) && NeedsDecision(View(n, Import)(p))
    ensures OwnedByAny(selected, HeldStacks(n, active), p) <==> exists c :: c in active && Owns(selected, c, p)
  {
    hide View, Scope, Owns, NeedsDecision;
    if c :| c in active && Owns(selected, c, p) {
      OwnsAmongFewer(active, selected, c, p);
      assert HeldBack(View(n, Import), Scope(n), active, c);
      assert c in HeldStacks(n, active);
    }
  }

  lemma DeletionIsTaken(n: Link, p: Path)
    requires View(n, Import)(p).Emit? && View(n, Import)(p).entry.kind == DestinationDeleted
    ensures p in Scope(n) && p in Picked(n, Import, {}, {}) && NeedsDecision(View(n, Import)(p))
    ensures p in n.git && n.git[p].readable
  {
    hide IsControl, Blocker, Picked;
    PickedAt(n, Import, {}, {}, p);
    InScope(n, p);
  }

  lemma ConflictIsNotTaken(n: Link, p: Path)
    requires IsConflict(View(n, Import)(p))
    ensures p !in Picked(n, Import, {}, {})
  {
    hide Verdicts, Picked;
    PickedAt(n, Import, {}, {}, p);
  }

  /** The unattended import settles no conflict. A file that was deleted locally comes back exactly when the run goes
      on, the file is not set aside, and a paused stack inside the active ones owns it or no active stack is around it
      at all. The second can only be a file of an include rule; in the first case the stack around it is held, in
      vain. */
  lemma AutoImportAndOpenDecisions(l: Link, active: set<Path>, extra: Path -> bool, selected: set<Path>,
                                   setAside: set<Path>, p: Path)
    requires active <= selected
    ensures var n := SeenLink(l, Only(active, extra));
            var v := View(n, Import)(p);
            var files := AutoFiles(n, active, selected, setAside);
            && (IsConflict(v) ==> p !in files)
            && (v.Emit? && v.entry.kind == DestinationDeleted ==>
                 && (p in files <==> AutoProceeds(n, active) && p !in setAside
                                     && (PausedInside(active, selected, p) || !Around(active, p)))
                 && (!extra(p) ==> Around(active, p))
                 && (PausedInside(active, selected, p) ==>
                     exists c :: c in HeldStacks(n, active) && Covers(Root(c), p)))
  {
    hide View, Seen, Picked, Owns, AutoProceeds, HeldStacks, Covers, PausedInside, Scope;
    var n := SeenLink(l, Only(active, extra));
    var v := View(n, Import)(p);
    if IsConflict(v) { ConflictIsNotTaken(n, p); }
    if v.Emit? && v.entry.kind == DestinationDeleted {
      DeletionIsTaken(n, p);
      HeldOwner(n, active, selected, p);
      ActiveOwner(active, selected, p);
      if !extra(p) { SeenGitFile(l, Only(active, extra), p); SeenIsAround(l, active, extra, p); }
      if Around(active, p) { DecisionHolds(n, active, p); }
    }
  }

  lemma SeenGitFile(l: Link, sight: Sight, p: Path)
    requires p in SeenLink(l, sight).git
    ensures p in Seen(l.git, sight) && p in l.git && SeenLink(l, sight).git[p] == l.git[p]
  {
    hide InSight;
  }

  // ----- a file of a paused stack that comes back -----

  predicate IsName(n: string) {
    n != "" && n != "." && NoSlash(n)
  }

  lemma {:induction false} LastSlashAt(p: Path, k: nat)
    requires k < |p| && p[k] == '/' && forall i :: k < i < |p| ==> p[i] != '/'
    ensures LastSlash(p) == k
  {
    LastSlashIsLast(p);
  }

  lemma DirOfJoined(d: Path, n: string)
    requires d != "" && NoSlash(n)
    ensures Dir(d + "/" + n) == d && (d != "." ==> Root(d + "/" + n) == d)
  {
    LastSlashAt(d + "/" + n, |d|);
    assert (d + "/" + n)[..|d|] == d;
  }

  /** Stacks a and z take part, the stack a/b inside a is paused. The file f of a/b was deleted locally, Git has not
      changed: the decision is attributed to a, the file belongs to a/b, and the run restores it. */
  lemma NestedPausedFileComesBack(a: string, b: string, z: string, c: string, f: string, file: File,
                                  extra: Path -> bool)
    requires IsName(a) && IsName(b) && IsName(z) && IsName(c) && IsName(f) && a != z
    requires file.readable && !IsControl(a + "/" + b + "/" + f)
    ensures var p := a + "/" + b + "/" + f;
            var l := Link(map[p := file], map[], map[p := file.sha]);
            var active := {a + "/" + c, z + "/" + c};
            var n := SeenLink(l, Only(active, extra));
            var files := AutoFiles(n, active, active + {a + "/" + b + "/" + c}, {});
            p in files && files[p] == file
  {
    hide IsControl, Root, Covers, Depth, AutoFiles;
    var d := a + "/" + b;
    NestedRoots(a, b, z, c, f);
    LonePausedFile(d + "/" + f, file, a + "/" + c, z + "/" + c, d + "/" + c, extra);
  }

  /** The same for any paths that lie that way. */
  lemma LonePausedFile(p: Path, file: File, near: Path, far: Path, paused: Path, extra: Path -> bool)
    requires file.readable && !IsControl(p) && UnderRoot(Dir(near), p, false)
    requires Covers(Root(near), p) && !Covers(Root(far), p)
    requires Covers(Root(paused), p) && Depth(Root(near)) < Depth(Root(paused))
    ensures var l := Link(map[p := file], map[], map[p := file.sha]);
            var active := {near, far};
            var n := SeenLink(l, Only(active, extra));
            var files := AutoFiles(n, active, active + {paused}, {});
            p in files && files[p] == file
  {
    hide IsControl, Picked, AutoFiles, Owns, Scope, View, Root, Covers, Depth, UnderRoot;
    var l := Link(map[p := file], map[], map[p := file.sha]);
    var active := {near, far};
    var n := SeenLink(l, Only(active, extra));
    assert Seen(l.git, Only(active, extra)) == l.git && Seen(l.stack, Only(active, extra)) == l.stack;
    assert n == l;
    LoneDeletion(l, p, file);
    LoneDecision(n, active, p, near, far);
    assert Deeper(active, paused, p);
    AutoImportAndOpenDecisions(l, active, extra, active + {paused}, {}, p);
    AutoIsPart(n, active, active + {paused}, {});
    DeletionIsTaken(n, p);
    ImportTakes(n, {}, {}, p);
  }

  lemma NestedRoots(a: string, b: string, z: string, c: string, f: string)
    requires IsName(a) && IsName(b) && IsName(z) && IsName(c) && IsName(f) && a != z
    ensures var d := a + "/" + b;
            var p := d + "/" + f;
            && Dir(a + "/" + c) == a == Root(a + "/" + c) && Root(z + "/" + c) == z && Root(d + "/" + c) == d
            && Below(p, a) && Covers(a, p) && !Covers(z, p) && Covers(d, p) && Depth(a) < Depth(d)
  {
    var d := a + "/" + b;
    var p := d + "/" + f;
    DirOfJoined(a, c);
    DirOfJoined(z, c);
    assert d != "." by { assert |d| >= 2; }
    DirOfJoined(d, c);
    assert p == (a + "/") + (b + "/" + f);
    BelowIsIndexed(p, z);
    BelowIsIndexed(p, a);
    assert Below(p, z) ==> |z| == |a|;
    assert p != z by { assert p[|a|] == '/'; }
    DeeperHasMoreSlashes(a, d);
  }

  /** The one tracked file of the link is gone from the stack and unchanged in Git. */
  lemma LoneDeletion(l: Link, p: Path, file: File)
    requires l == Link(map[p := file], map[], map[p := file.sha]) && file.readable && !IsControl(p)
    ensures View(l, Import)(p) == Emit(Entry(p, Add, DestinationDeleted, file.sha, "", false))
    ensures Scope(l) == {p}
  {
    hide IsControl;
    BlockerIsNearest(l.stack, p);
  }

  lemma LoneDecision(n: Link, active: set<Path>, p: Path, near: Path, far: Path)
    requires Scope(n) == {p} && NeedsDecision(View(n, Import)(p)) && active == {near, far}
    requires Covers(Root(near), p) && !Covers(Root(far), p)
    ensures AutoProceeds(n, active) && Around(active, p)
  {
    hide View, Scope, NeedsDecision, Depth, Covers, OpenConflicts, LocalDeletions;
    DecisionHolds(n, active, p);
    assert near in active;
    assert far in active - HeldStacks(n, active);
  }

  // ----- what narrowing does to the stacks that do not take part -----

  /** A tracked control manifest whose Git file is not seen passes for removed: it is taken unless set aside or owned by
      a held stack, and then its baseline is dropped, so that the next full preview takes it for new. */
  lemma UnseenControlIsDropped(l: Link, active: set<Path>, extra: Path -> bool, selected: set<Path>,
                               setAside: set<Path>, p: Path)
    requires IsControl(p) && p in l.base && p in l.git && l.base[p] == l.git[p].sha
              && p !in Seen(l.git, Only(active, extra))
    ensures var sight := Only(active, extra);
            var n := SeenLink(l, sight);
            var files := AutoFiles(n, active, selected, setAside);
            var after := AfterSeenImport(l, sight, files);
            && View(l, Import)(p).Unchanged?
            && (p in files <==>
                AutoProceeds(n, active) && p !in setAside && !OwnedByAny(selected, HeldStacks(n, active), p))
            && Tracked(after.base, p) == (if p in files then None else Some(l.base[p]))
            && (p in files ==> View(after, Import)(p) == Emit(Entry(p, Add, NoKind, l.git[p].sha, "", false)))
  {
    hide IsControl, Seen, Picked, AutoProceeds, HeldStacks, OwnedByAny;
    var sight := Only(active, extra);
    var n := SeenLink(l, sight);
    var files := AutoFiles(n, active, selected, setAside);
    RemovedControlIsTaken(n, p);
    SeenWrittenAt(l, sight, files, p);
  }

  lemma RemovedControlIsTaken(n: Link, p: Path)
    requires IsControl(p) && p in n.base && p !in n.git
    ensures p in Picked(n, Import, {}, {}) && Picked(n, Import, {}, {})[p] == GONE
  {
    hide IsControl, Blocker;
    InScope(n, p);
    PickedAt(n, Import, {}, {}, p);
  }

  /** The link after a run that found nothing to change among the files it saw. */
  function AfterQuietRun(l: Link, sight: Sight): Link {
    l.(base := BaselineFromSource(Seen(l.git, sight)))
  }

  /** The import preview of the whole link needs the baseline to judge the file. */
  predicate NeedsBaseline(l: Link, p: Path) {
    if p in l.git then
      var dst := Destination(Import, l.stack, p);
      l.git[p].readable && !(dst.Some? && Protected(dst.value))
           && !(dst.Some? && dst.value.readable && dst.value.sha == l.git[p].sha)
    else p in l.stack && l.stack[p].readable
  }

  /** Such a run forgets every file it did not see in Git. The next preview of the whole link judges one of them
      differently exactly when it was tracked and its two sides differ: a local deletion becomes a new file of Git
      that any import restores, a change of one side becomes a conflict, a Git deletion is no longer reported. */
  lemma QuietRunForgetsTheUnseen(l: Link, sight: Sight, p: Path)
    requires p !in Seen(l.git, sight) && !IsControl(p)
    ensures var after := AfterQuietRun(l, sight);
            var v, v' := View(l, Import)(p), View(after, Import)(p);
            && after.stack == l.stack && Tracked(after.base, p) == None
            && (v' == v <==> !(p in l.base && NeedsBaseline(l, p)))
            && (p in l.base && IsLocalDeletion(Import, v) ==>
                v' == Emit(Entry(p, Add, NoKind, l.git[p].sha, "", false)))
            && (p in l.base && p in l.git && v.Emit? && v.entry.status == Modify ==>
                IsConflict(v') && v'.entry.kind == NoBaseline)
            && (IsPreserved(Import, v) ==> v'.Silent?)
  {
    hide IsControl, Blocker, InSight;
  }

  /** A run is that quiet only when every tracked control manifest is seen in Git. */
  lemma QuietRunSawEveryControl(l: Link, sight: Sight, p: Path)
    requires Changes(View(SeenLink(l, sight), Import), Scope(SeenLink(l, sight))) == {}
    requires IsControl(p) && p in l.base
    ensures p in Seen(l.git, sight) && l.git[p].sha == l.base[p]
  {
    hide IsControl, Blocker, InSight;
    InScope(SeenLink(l, sight), p);
    assert p !in Changes(View(SeenLink(l, sight), Import), Scope(SeenLink(l, sight)));
  }

  /** A tracked file of a stack that does not take part, and an active stack with nothing to do. */
  ghost function LoneUnseen(p: Path, file: File, before: Tree): Link {
    Link(map[p := file], before, map[p := file.sha])
  }

  lemma NothingIsSeen(p: Path, file: File, c: Path, extra: Path -> bool)
    requires file.readable && !extra(p) && !UnderRoot(Dir(c), p, false)
    ensures SeenLink(LoneUnseen(p, file, map[]), Only({c}, extra)) == Link(map[], map[], map[p := file.sha])
  {
    var sight := Only({c}, extra);
    assert Seen(map[p := file], sight) == map[] && Seen(map[], sight) == map[];
  }

  /** The provisioning manifest of a paused stack: the run drops its baseline entry. */
  lemma PausedControlIsDropped(p: Path, file: File, c: Path, extra: Path -> bool, selected: set<Path>)
    requires IsControl(p) && file.readable && !extra(p) && !UnderRoot(Dir(c), p, false)
    ensures var l, sight := LoneUnseen(p, file, map[]), Only({c}, extra);
            var files := AutoFiles(SeenLink(l, sight), {c}, selected, {});
            Tracked(AfterSeenImport(l, sight, files).base, p) == None && Tracked(l.base, p) == Some(file.sha)
  {
    hide IsControl, Picked, Seen, AutoFiles, UnderRoot, AutoProceeds, HeldStacks, OwnedByAny;
    var l, sight := LoneUnseen(p, file, map[]), Only({c}, extra);
    NothingIsSeen(p, file, c, extra);
    assert p !in Seen(l.git, sight) by { assert SeenLink(l, sight).git == map[]; }
    NoDecisionOpen(SeenLink(l, sight), p, c);
    UnseenControlIsDropped(l, {c}, extra, selected, {}, p);
  }

  /** Nothing of the link is seen but a tracked path: there is no decision to take. */
  lemma NoDecisionOpen(n: Link, p: Path, c: Path)
    requires n.git == map[] && n.stack == map[] && n.base.Keys == {p}
    ensures AutoProceeds(n, {c}) && forall selected, q :: !OwnedByAny(selected, HeldStacks(n, {c}), q)
  {
    hide IsControl, Owns;
    forall q ensures !IsConflict(View(n, Import)(q)) && !IsLocalDeletion(Import, View(n, Import)(q))
         && !NeedsDecision(View(n, Import)(q)) {
    }
    assert OpenConflicts(n, Import) + LocalDeletions(Import, View(n, Import), Scope(n)) == {};
    assert HeldStacks(n, {c}) == {};
  }

  /** A file of a paused stack was deleted locally; a quiet run forgets that it was ever tracked, and the next import of
      the whole link restores it without asking. */
  lemma PausedDeletionIsForgotten(p: Path, file: File, c: Path, extra: Path -> bool)
    requires !IsControl(p) && file.readable && !extra(p) && !UnderRoot(Dir(c), p, false)
    ensures var l, sight := LoneUnseen(p, file, map[]), Only({c}, extra);
            var n, after := SeenLink(l, sight), AfterQuietRun(l, sight);
            && Changes(View(n, Import), Scope(n)) == {}
            && IsLocalDeletion(Import, View(l, Import)(p)) && !IsLocalDeletion(Import, View(after, Import)(p))
            && p in Picked(after, Import, {}, {}) && !NeedsDecision(View(after, Import)(p))
  {
    hide IsControl, Picked, Seen, UnderRoot;
    var l, sight := LoneUnseen(p, file, map[]), Only({c}, extra);
    NothingIsSeen(p, file, c, extra);
    var n, after := SeenLink(l, sight), AfterQuietRun(l, sight);
    assert p !in Seen(l.git, sight) by { assert n.git == map[]; }
    forall q | q in Scope(n) ensures !IsChange(View(n, Import)(q)) { InScope(n, q); }
    LoneDeletion(l, p, file);
    QuietRunForgetsTheUnseen(l, sight, p);
    InScope(after, p);
    PickedAt(after, Import, {}, {}, p);
  }
}
