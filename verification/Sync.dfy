/** What a whole import or export does, and what holds across previews, writes and baselines. */
module Sync {
  import opened Common
  import opened Paths
  import opened Preview
  import opened Catalogue
  import opened Transfer
  import opened Backup

  /** The three things a Folder Link compares. */
  datatype Link = Link(git: Tree, stack: Tree, base: Baseline)

  ghost function View(l: Link, dir: Direction): Path -> Verdict {
    if dir.Import? then Verdicts(Import, l.git, l.stack, l.base) else Verdicts(Export, l.stack, l.git, l.base)
  }

  function Scope(l: Link): set<Path> {
    Universe(l.git, l.stack, l.base)
  }

  /** The files a transfer may take, before any stack is set aside. */
  ghost function Picked(l: Link, dir: Direction, resolved: set<Path>, chosen: set<Path>): Tree {
    Selection(View(l, dir), Scope(l), if dir.Import? then l.git else l.stack, resolved, chosen)
  }

  function AfterImport(l: Link, files: Tree): Link {
    Link(l.git, WriteFiles(l.stack, StackFiles(files)), BaselineAfter(l.base, l.git, l.stack, files))
  }

  function AfterExport(l: Link, files: Tree): Link {
    Link(WriteFiles(l.git, files), l.stack, BaselineAfter(l.base, l.stack, l.git, files))
  }

  /** The files are committed, the baseline is not reached. */
  function AfterFailedPush(l: Link, files: Tree): Link {
    Link(WriteFiles(l.git, files), l.stack, l.base)
  }

  // ----- three-way direction theorem -----

  ghost predicate BothReadable(l: Link, p: Path) {
    !IsControl(p) && p in l.git && l.git[p].readable && p in l.stack && l.stack[p].readable
  }

  /** A tracked file that differs: the side that moved away from the baseline is the side that may be
      copied; the other direction, and both directions after two moves, ask for a decision. */
  lemma DirectionTheorem(l: Link, p: Path)
    requires BothReadable(l, p) && p in l.base && l.git[p].sha != l.stack[p].sha
    ensures var gitMoved, stackMoved := l.git[p].sha != l.base[p], l.stack[p].sha != l.base[p];
            var incoming, outgoing := View(l, Import)(p), View(l, Export)(p);
            && incoming.Emit? && outgoing.Emit? && (gitMoved || stackMoved)
            && incoming.entry.status == (if stackMoved then Conflict else Modify)
            && outgoing.entry.status == (if gitMoved then Conflict else Modify)
  {
    hide IsControl, Blocker;
  }

  /** A tracked file deleted locally: both directions show it, and both ask for a decision exactly
      when Git changed it as well. */
  lemma LocalDeletionTheorem(l: Link, p: Path)
    requires !IsControl(p) && p in l.git && l.git[p].readable && p in l.base
    requires p !in l.stack && Blocker(l.stack, p).None?
    ensures var incoming, outgoing := View(l, Import)(p), View(l, Export)(p);
            && IsLocalDeletion(Import, incoming) && IsLocalDeletion(Export, outgoing)
            && (IsConflict(incoming) <==> l.git[p].sha != l.base[p])
            && (IsConflict(outgoing) <==> l.git[p].sha != l.base[p])
  {
    hide IsControl, Blocker;
  }

  // ----- the verdicts in terms of contents -----

  /** The path itself, or where nothing stands a directory above it, is kept closed: nothing may be written there. */
  ghost predicate Shut(tree: Tree, p: Path) {
    exists d :: d in tree && !tree[d].readable && tree[d].skipReason in {"permission", "large_directory"}
         && (d == p || (p !in tree && tree[d].directory && ProperAncestor(d, p)))
  }

  /** The same without a look at the directories above. */
  predicate ShutItself(tree: Tree, p: Path) {
    p in tree && !tree[p].readable && tree[p].skipReason in {"permission", "large_directory"}
  }

  lemma ShutIsProtected(l: Link, p: Path)
    ensures var dst := Destination(Import, l.stack, p);
            && (Shut(l.stack, p) <==> dst.Some? && Protected(dst.value))
            && (Shut(l.stack, p) ==> Contents(l.stack, p).None?)
            && (p !in l.stack && dst.Some? ==> Shut(l.stack, p))
  {
    BlockerIsNearest(l.stack, p);
    if p in l.stack {
      assert Shut(l.stack, p) <==> Protected(l.stack[p]);
    } else if Blocker(l.stack, p).Some? {
      var d := Blocker(l.stack, p).value;
      assert d in l.stack && Blocks(l.stack, d);
    }
  }

  /** Conflicts, both directions: the destination has contents, or lost them, in a way the baseline does not record, and
      the copy would change it. A local deletion that Git did not touch is none, nor is a file Git never had. */
  lemma ConflictsExactly(l: Link, p: Path)
    requires !IsControl(p)
    ensures var g, s, b := Contents(l.git, p), Contents(l.stack, p), Tracked(l.base, p);
            && (IsConflict(View(l, Import)(p)) <==>
                if g.Some? then g != s && s != b && !(s.None? && g == b) && !Shut(l.stack, p)
                else p !in l.git && s.Some? && b.Some? && s != b)
            && (IsConflict(View(l, Export)(p)) <==>
                if s.Some? then g.Some? && g != s && g != b
                else p !in l.stack && g.Some? && b.Some? && g != b)
  {
    hide IsControl, Blocker, Shut;
    ShutIsProtected(l, p);
  }

  /** What is listed as a change: contents that the other side does not have and that may be written there, and tracked
      files that left the source. */
  lemma ChangesExactly(l: Link, p: Path)
    requires !IsControl(p)
    ensures var g, s, b := Contents(l.git, p), Contents(l.stack, p), Tracked(l.base, p);
            && (IsChange(View(l, Import)(p)) <==>
                if g.Some? then g != s && !Shut(l.stack, p) else p !in l.git && s.Some? && b.Some?)
            && (IsChange(View(l, Export)(p)) <==>
                if s.Some? then g != s && !ShutItself(l.git, p) else p !in l.stack && g.Some? && b.Some?)
  {
    hide IsControl, Blocker, Shut;
    ShutIsProtected(l, p);
  }

  /** What each counter counts. */
  lemma CountersExactly(l: Link, p: Path)
    requires !IsControl(p)
    ensures var g, s, b := Contents(l.git, p), Contents(l.stack, p), Tracked(l.base, p);
            && (View(l, Import)(p).Unchanged? <==> g.Some? && g == s)
            && (View(l, Export)(p).Unchanged? <==> s.Some? && g == s)
            && (IsSkip(View(l, Import)(p)) <==> p in l.git && (g.None? || Shut(l.stack, p)))
            && (IsSkip(View(l, Export)(p)) <==> p in l.stack && (s.None? || ShutItself(l.git, p)))
            && (IsPreserved(Import, View(l, Import)(p)) <==> p !in l.git && s.Some? && b.Some?)
            && !IsPreserved(Export, View(l, Export)(p))
            && (IsLocalDeletion(Import, View(l, Import)(p)) <==>
                g.Some? && s.None? && b.Some? && !Shut(l.stack, p))
            && (IsLocalDeletion(Export, View(l, Export)(p)) <==> p !in l.stack && g.Some? && b.Some?)
  {
    hide IsControl, Blocker, Shut;
    ShutIsProtected(l, p);
  }

  function HashOr(c: Option<Sha>, none: Sha): Sha {
    if c.Some? then c.value else none
  }

  /** The entry of a change shows the contents of both sides. */
  lemma EntryShowsBothSides(l: Link, p: Path)
    requires !IsControl(p)
    ensures var g, s := HashOr(Contents(l.git, p), ""), HashOr(Contents(l.stack, p), "");
            var incoming, outgoing := View(l, Import)(p), View(l, Export)(p);
            && (IsChange(incoming) ==>
                incoming.entry.path == p && incoming.entry.sourceSha == g && incoming.entry.targetSha == s)
            && (IsChange(outgoing) ==>
                outgoing.entry.path == p && outgoing.entry.sourceSha == s && outgoing.entry.targetSha == g)
  {
    hide IsControl, Blocker, Shut;
    ShutIsProtected(l, p);
  }

  /** Its kind says how the two sides relate to the baseline. */
  lemma KindsExactly(l: Link, dir: Direction, p: Path)
    requires !IsControl(p) && IsChange(View(l, dir)(p))
    ensures var from := Contents(if dir.Import? then l.git else l.stack, p);
            var to := Contents(if dir.Import? then l.stack else l.git, p);
            View(l, dir)(p).entry.kind ==
            match (from, to, Tracked(l.base, p))
            case (Some(_), Some(_), None) => NoBaseline
            case (Some(_), Some(t), Some(b)) => if t != b then DestinationChanged else NoKind
            case (Some(f), None, Some(b)) =>
              if dir.Export? then NoKind else if f == b then DestinationDeleted else DestinationDeletedSourceChanged
            case (Some(_), None, None) => NoKind
            case (None, t, b) => if t != b then SourceDeletedDestinationChanged else NoKind
  {
    hide IsControl, Blocker, Shut;
    ShutIsProtected(l, p);
  }

  /** Its status: a new file, other contents, or a file that left the source, unless it conflicts. */
  lemma StatusesExactly(l: Link, dir: Direction, p: Path)
    requires !IsControl(p) && IsChange(View(l, dir)(p)) && !IsConflict(View(l, dir)(p))
    ensures var from := Contents(if dir.Import? then l.git else l.stack, p);
            var to := Contents(if dir.Import? then l.stack else l.git, p);
            View(l, dir)(p).entry.status ==
            if from.None? then (if dir.Import? then DeletedOnGit else DeletedLocally)
            else if to.None? then Add else Modify
  {
    hide IsControl, Blocker, Shut;
    ShutIsProtected(l, p);
  }

  /** A skipped path carries the reason of the side that cannot be opened, the source first; on import that of the
      nearest closed directory above it where nothing stands. */
  lemma SkipReasonsExactly(l: Link, dir: Direction, p: Path)
    requires !IsControl(p) && IsSkip(View(l, dir)(p))
    ensures var source, target := if dir.Import? then l.git else l.stack, if dir.Import? then l.stack else l.git;
            var reason := View(l, dir)(p).entry.status.reason;
            && p in source
            && if !source[p].readable then reason == (if source[p].skipReason == "" then "unavailable"
                                                      else source[p].skipReason)
               else if p in target then reason == target[p].skipReason
               else exists d :: ProperAncestor(d, p) && Blocks(target, d) && reason == target[d].skipReason
                         && forall e :: ProperAncestor(e, p) && Blocks(target, e) ==> |e| <= |d|
  {
    hide IsControl, Blocker, Verdicts, Blocks;
    SkipShape(l, dir, p);
    BlockerIsNearest(if dir.Import? then l.stack else l.git, p);
  }

  lemma SkipShape(l: Link, dir: Direction, p: Path)
    requires !IsControl(p) && IsSkip(View(l, dir)(p))
    ensures var source, target := if dir.Import? then l.git else l.stack, if dir.Import? then l.stack else l.git;
            var reason, dst := View(l, dir)(p).entry.status.reason, Destination(dir, target, p);
            && p in source
            && if !source[p].readable then reason == (if source[p].skipReason == "" then "unavailable"
                                                      else source[p].skipReason)
               else dst.Some? && reason == dst.value.skipReason
  {
    hide IsControl, Blocker;
  }

  /** Provisioning manifests: an import lists exactly those whose hash is not the recorded one, an export none. */
  lemma ControlsExactly(l: Link, resolved: set<Path>, chosen: set<Path>, p: Path)
    requires IsControl(p)
    ensures var moved := if p in l.git then Tracked(l.base, p) != Some(l.git[p].sha) else p in l.base;
            && (IsChange(View(l, Import)(p)) <==> moved) && !IsConflict(View(l, Import)(p))
            && (View(l, Import)(p).Unchanged? <==> p in l.git && !moved)
            && (moved ==> View(l, Import)(p).entry.status ==
                          if p !in l.git then RemoveControl else if p in l.base then Modify else Add)
            && (p in Picked(l, Import, resolved, chosen) <==>
                moved && (p in l.git ==> l.git[p].readable) && (chosen == {} || p in chosen))
            && View(l, Export)(p).Silent? && p !in Picked(l, Export, resolved, chosen)
  {
    hide IsControl, Blocker, Picked, Scope;
    InScope(l, p);
    PickedAt(l, Import, resolved, chosen, p);
    PickedAt(l, Export, resolved, chosen, p);
  }

  // ----- what a selected file looks like -----

  lemma PickedAt(l: Link, dir: Direction, resolved: set<Path>, chosen: set<Path>, p: Path)
    ensures p in Picked(l, dir, resolved, chosen) <==>
            p in Scope(l) && Approved(View(l, dir)(p), if dir.Import? then l.git else l.stack, resolved, chosen)
  {
    hide Approved, Verdicts;
  }

  /** What a transfer takes, read off the three sides: contents the other side does not have, within the choice, onto a
      destination that is as the baseline says or was settled by hand. An import also undoes a local deletion of what
      Git still has unchanged; an export also adds what Git does not have. */
  lemma TakesExactly(l: Link, resolved: set<Path>, chosen: set<Path>, p: Path)
    requires !IsControl(p)
    ensures var g, s, b := Contents(l.git, p), Contents(l.stack, p), Tracked(l.base, p);
            && (p in Picked(l, Import, resolved, chosen) <==>
                && g.Some? && g != s && !Shut(l.stack, p) && (chosen == {} || p in chosen)
                && (s == b || (s.None? && g == b) || p in resolved))
            && (p in Picked(l, Export, resolved, chosen) <==>
                && s.Some? && g != s && !ShutItself(l.git, p) && (chosen == {} || p in chosen)
                && (g.None? || g == b || p in resolved))
  {
    hide IsControl, Blocker, Shut, Picked, Scope;
    ShutIsProtected(l, p);
    InScope(l, p);
    PickedAt(l, Import, resolved, chosen, p);
    PickedAt(l, Export, resolved, chosen, p);
  }

  /** A transfer limited to chosen paths leaves every other path alone, on both sides; its baseline moves only where the
      two sides agree anyway. */
  lemma ChoiceBoundsTheTransfer(l: Link, dir: Direction, files: Tree, resolved: set<Path>, chosen: set<Path>, p: Path)
    requires chosen != {} && p !in chosen && PartOf(files, Picked(l, dir, resolved, chosen))
    ensures var after := if dir.Import? then AfterImport(l, files) else AfterExport(l, files);
            var g, s := Contents(l.git, p), Contents(l.stack, p);
            && p !in files
            && Lookup(after.stack, p) == Lookup(l.stack, p) && Lookup(after.git, p) == Lookup(l.git, p)
            && Tracked(after.base, p) == if g == s && g.Some? && g.value != "" then g else Tracked(l.base, p)
  {
    hide IsControl, Verdicts, WriteFiles, BaselineAfter, Picked;
    PickedAt(l, dir, resolved, chosen, p);
    VerdictNames(l, dir, p);
    WrittenAt(l, files, p);
    NextBaseAt(l, files, p);
  }

  lemma VerdictNames(l: Link, dir: Direction, p: Path)
    ensures var v := View(l, dir)(p); v.Emit? ==> v.entry.path == p
  {
  }

  /** When a request is answered with files, and with how many conflicts left open. */
  lemma RequestsAnswered(l: Link, dir: Direction, resolvedPaths: seq<Path>, selectedPaths: seq<Path>)
    ensures var r := SelectionOf(View(l, dir), Scope(l), if dir.Import? then l.git else l.stack, resolvedPaths,
                                 selectedPaths);
            && (r.Selected? <==>
                && |resolvedPaths| <= 20_000 && |selectedPaths| <= 20_000
                && (forall p :: p in resolvedPaths ==> p in OpenConflicts(l, dir))
                && (forall p :: p in selectedPaths ==>
                    IsChange(View(l, dir)(p)) && View(l, dir)(p).entry.status !in {DeletedLocally, DeletedOnGit})
                && (selectedPaths != [] ==> forall p :: p in resolvedPaths ==> p in selectedPaths))
            && (r.Selected? ==>
                && r.files == Picked(l, dir, Members(resolvedPaths), Members(selectedPaths))
                && r.remaining == |OpenConflicts(l, dir) - Members(resolvedPaths)|)
  {
    hide Verdicts, IsConflict, Selection;
    var conflicts, resolved, chosen := OpenConflicts(l, dir), Members(resolvedPaths), Members(selectedPaths);
    forall p ensures View(l, dir)(p).Emit? ==> p in Scope(l) {
      VerdictShape(l, dir, p);
    }
    assert forall p :: p in resolvedPaths <==> p in resolved;
    assert forall p :: p in selectedPaths <==> p in chosen;
    assert AllConflicts(View(l, dir), Scope(l), resolved) <==> resolved <= conflicts;
    if resolved <= conflicts {
      assert conflicts == resolved + (conflicts - resolved);
    }
  }

  /** Every stack file an import takes comes readable from Git, its destination is either missing or a
      readable file with other contents, and contents nobody recorded are only replaced on request. */
  lemma ImportTakes(l: Link, resolved: set<Path>, chosen: set<Path>, p: Path)
    requires p in StackFiles(Picked(l, Import, resolved, chosen))
    ensures p in l.git && l.git[p].readable && Picked(l, Import, resolved, chosen)[p] == l.git[p]
    ensures p in l.stack ==> !Protected(l.stack[p])
    ensures p in l.stack && l.stack[p].readable ==>
              l.stack[p].sha != l.git[p].sha && ((p in l.base && l.stack[p].sha == l.base[p]) || p in resolved)
    ensures Destination(Import, l.stack, p) == Lookup(l.stack, p)
    ensures var v := View(l, Import)(p); v.Emit? && (v.entry.status.Conflict? ==> p in resolved)
  {
    hide IsControl, Blocker;
    BlockerIsNearest(l.stack, p);
  }

  /** Some of the picked files, unaltered: what is left after stacks are set aside. */
  ghost predicate PartOf(files: Tree, picked: Tree) {
    forall p :: p in files ==> p in picked && files[p] == picked[p]
  }

  /** No lost local update, import: each readable file that is overwritten was either what the baseline
      recorded or explicitly given up, and its contents are in the backup; everything Git does not have
      keeps its place on the stack. */
  lemma ImportLosesNoUpdate(l: Link, files: Tree, resolved: set<Path>, chosen: set<Path>, catalogue: set<Path>, p: Path)
    requires PartOf(files, Picked(l, Import, resolved, chosen))
    ensures var after := AfterImport(l, files);
            var records := ArchiveOf(StackFiles(files), l.stack, catalogue).records;
            && (p !in l.git ==> Lookup(after.stack, p) == Lookup(l.stack, p))
            && (p in l.stack ==> p in after.stack)
            && (p in l.stack && l.stack[p].readable && after.stack[p] != l.stack[p] ==>
                 && (p in resolved || (p in l.base && l.stack[p].sha == l.base[p]))
                 && p in records && records[p].beforeExists && records[p].beforeSha == l.stack[p].sha)
  {
    hide IsControl, Blocker, Picked, SafeMode, TouchedStacks, BaselineAfter;
    if p in StackFiles(files) {
      ImportTakes(l, resolved, chosen, p);
    }
  }

  /** No lost update, export: a Git file that is missing locally is neither changed nor removed. */
  lemma ExportKeepsMissingFiles(l: Link, resolved: set<Path>, chosen: set<Path>, p: Path)
    requires p !in l.stack
    ensures Lookup(AfterExport(l, Picked(l, Export, resolved, chosen)).git, p) == Lookup(l.git, p)
  {
    hide IsControl, Blocker;
    PickedAt(l, Export, resolved, chosen, p);
  }

  /** Every file an export takes comes readable from the stack, and is no control manifest; a file of Git with other
      contents is only replaced where it is what the baseline recorded, or on request. */
  lemma ExportTakes(l: Link, resolved: set<Path>, chosen: set<Path>, p: Path)
    requires p in Picked(l, Export, resolved, chosen)
    ensures p in l.stack && l.stack[p].readable && Picked(l, Export, resolved, chosen)[p] == l.stack[p] && !IsControl(p)
    ensures p in l.git && l.git[p].readable ==>
              l.git[p].sha != l.stack[p].sha && ((p in l.base && l.git[p].sha == l.base[p]) || p in resolved)
  {
    hide IsControl, Blocker;
  }

  /** No lost update, export: a Git file that can be read changes only where it was what the baseline recorded or was
      explicitly given up, and then it becomes the stack's file; no Git file disappears, whether the push succeeds or
      not. */
  lemma ExportLosesNoUpdate(l: Link, resolved: set<Path>, chosen: set<Path>, p: Path)
    ensures var files := Picked(l, Export, resolved, chosen);
            var after := AfterExport(l, files).git;
            && AfterFailedPush(l, files).git == after && (p in l.git ==> p in after)
            && (Lookup(after, p) != Lookup(l.git, p) ==> Contents(after, p) == Contents(l.stack, p) != None)
            && (p in l.git && l.git[p].readable && Lookup(after, p) != Lookup(l.git, p) ==>
                && l.git[p].sha != l.stack[p].sha
                && ((p in l.base && l.git[p].sha == l.base[p]) || p in resolved))
  {
    hide IsControl, Blocker, Picked, BaselineAfter, SafeMode, WriteFiles;
    var files := Picked(l, Export, resolved, chosen);
    WrittenAt(l, files, p);
    if p in files { ExportTakes(l, resolved, chosen, p); }
  }

  /** After a failed push the committed files are unchanged for both directions, and the next export records them in the
      baseline, whether it takes other files or, finding nothing to change, only rewrites the baseline. The commit
      itself waits for a later push; until then imports are refused. */
  lemma UnpushedFilesAreRecorded(l: Link, resolved: set<Path>, chosen: set<Path>, next: Tree, p: Path)
    requires p in Picked(l, Export, resolved, chosen) && l.stack[p].sha != ""
    ensures var stuck := AfterFailedPush(l, Picked(l, Export, resolved, chosen));
            && View(stuck, Export)(p).Unchanged? && View(stuck, Import)(p).Unchanged?
            && Tracked(AfterExport(stuck, next).base, p) == Some(l.stack[p].sha)
            && Tracked(BaselineFromSourceKeepingControl(stuck.stack, stuck.base), p) == Some(l.stack[p].sha)
  {
    hide IsControl, Blocker, BaselineAfter, Picked;
    ExportTakes(l, resolved, chosen, p);
    NextBaseAt(AfterFailedPush(l, Picked(l, Export, resolved, chosen)), next, p);
  }

  // ----- nothing to change -----

  /** The baseline of a transfer that found nothing to change: the contents of the source; an export keeps what is
      recorded of control manifests, which it never looks at. */
  lemma QuietBaselines(l: Link, p: Path)
    ensures var g, s, b := Contents(l.git, p), Contents(l.stack, p), Tracked(l.base, p);
            && Tracked(BaselineFromSource(l.git), p) == (if g == Some("") then None else g)
            && Tracked(BaselineFromSourceKeepingControl(l.stack, l.base), p) ==
               if IsControl(p) && b.Some? then b else if s == Some("") then None else s
  {
    hide IsControl;
  }

  /** With it the next preview finds nothing either, except for control manifests that were recorded and cannot be read
      any more. */
  lemma QuietImportsStayQuiet(l: Link, p: Path)
    requires !IsChange(View(l, Import)(p))
    ensures IsChange(View(l.(base := BaselineFromSource(l.git)), Import)(p)) <==>
            IsControl(p) && p in l.git && Contents(l.git, p) in {None, Some("")}
  {
    hide IsControl, BaselineFromSource, View, Shut;
    QuietBaselines(l, p);
    var after := l.(base := BaselineFromSource(l.git));
    if IsControl(p) {
      ControlsExactly(l, {}, {}, p);
      ControlsExactly(after, {}, {}, p);
    } else {
      ChangesExactly(l, p);
      ChangesExactly(after, p);
    }
  }

  lemma QuietExportsStayQuiet(l: Link, p: Path)
    requires !IsChange(View(l, Export)(p))
    ensures !IsChange(View(l.(base := BaselineFromSourceKeepingControl(l.stack, l.base)), Export)(p))
  {
    hide IsControl, BaselineFromSourceKeepingControl, View, ShutItself;
    QuietBaselines(l, p);
    var after := l.(base := BaselineFromSourceKeepingControl(l.stack, l.base));
    if IsControl(p) {
      ControlsExactly(after, {}, {}, p);
    } else {
      ChangesExactly(l, p);
      ChangesExactly(after, p);
    }
  }

  // ----- convergence -----

  /** A write never lands on a blocking directory and never creates one. */
  lemma ImportKeepsBlocks(l: Link, files: Tree, resolved: set<Path>, chosen: set<Path>, d: Path)
    requires PartOf(files, Picked(l, Import, resolved, chosen))
    ensures Blocks(AfterImport(l, files).stack, d) <==> Blocks(l.stack, d)
  {
    hide IsControl, Picked, BaselineAfter, SafeMode;
    if d in StackFiles(files) {
      ImportTakes(l, resolved, chosen, d);
    }
  }

  lemma {:induction false} SameBlocker(a: Tree, b: Tree, p: Path)
    requires forall d :: Blocks(a, d) <==> Blocks(b, d)
    ensures Blocker(a, p) == Blocker(b, p)
    decreases |p|
  {
    AncestorStep(Dir(p), p);
    if Dir(p) != "." && Dir(p) != "" && !Blocks(a, Dir(p)) {
      SameBlocker(a, b, Dir(p));
    }
  }

  /** The destination of a path that is not written stays what it was. */
  lemma ImportKeepsDestination(l: Link, files: Tree, resolved: set<Path>, chosen: set<Path>, p: Path)
    requires PartOf(files, Picked(l, Import, resolved, chosen)) && p !in StackFiles(files)
    ensures Destination(Import, AfterImport(l, files).stack, p) == Destination(Import, l.stack, p)
  {
    hide IsControl, Picked, BaselineAfter, SafeMode, Blocks;
    var after := AfterImport(l, files).stack;
    forall d ensures Blocks(after, d) <==> Blocks(l.stack, d) {
      ImportKeepsBlocks(l, files, resolved, chosen, d);
    }
    SameBlocker(after, l.stack, p);
    if p !in l.stack && Blocker(l.stack, p).Some? {
      BlockerIsNearest(l.stack, p);
      var d := Blocker(l.stack, p).value;
      if d in StackFiles(files) { ImportTakesUnblocked(l, files, resolved, chosen, d); }
    }
  }

  lemma ImportTakesUnblocked(l: Link, files: Tree, resolved: set<Path>, chosen: set<Path>, d: Path)
    requires PartOf(files, Picked(l, Import, resolved, chosen)) && d in StackFiles(files)
    ensures !Blocks(l.stack, d)
  {
    hide IsControl, Picked, BaselineAfter, SafeMode;
    ImportTakes(l, resolved, chosen, d);
  }

  lemma NextBaseAt(l: Link, files: Tree, p: Path)
    ensures Tracked(AfterImport(l, files).base, p) == NextBase(l.base, l.git, l.stack, files, p)
    ensures Tracked(AfterExport(l, files).base, p) == NextBase(l.base, l.stack, l.git, files, p)
  {
    hide BaselineAfter, NextBase, WriteFiles;
    BaselineAfterTracks(l.base, l.git, l.stack, files);
    BaselineAfterTracks(l.base, l.stack, l.git, files);
  }

  /** A control manifest the inventory could not hash, and whose baseline is out of date: the import can
      neither take it nor record it. */
  predicate StuckControl(l: Link, p: Path) {
    p in l.git && IsControl(p) && !(l.git[p].readable && l.git[p].sha != "") && Tracked(l.base, p) != Some(l.git[p].sha)
  }

  ghost function StuckControls(l: Link): set<Path> {
    set p | p in l.git && StuckControl(l, p)
  }

  ghost function OpenConflicts(l: Link, dir: Direction): set<Path> {
    Conflicts(View(l, dir), Scope(l))
  }

  /** The full import: everything listed, every conflict resolved. */
  ghost function FullImport(l: Link): Link {
    AfterImport(l, Picked(l, Import, OpenConflicts(l, Import), {}))
  }

  ghost function FullExport(l: Link): Link {
    AfterExport(l, Picked(l, Export, OpenConflicts(l, Export), {}))
  }

  lemma ControlSettles(l: Link, p: Path)
    requires IsControl(p)
    ensures IsChange(View(FullImport(l), Import)(p)) <==> StuckControl(l, p)
    ensures !IsPreserved(Import, View(FullImport(l), Import)(p)) && !IsConflict(View(FullImport(l), Import)(p))
  {
    hide IsControl, WriteFiles, BaselineAfter, Picked, OpenConflicts, Scope;
    var files := Picked(l, Import, OpenConflicts(l, Import), {});
    PickedAt(l, Import, OpenConflicts(l, Import), {}, p);
    NextBaseAt(l, files, p);
    if p in files { ControlPayload(l, p); }
    InScope(l, p);
  }

  lemma InScope(l: Link, p: Path)
    ensures p in Scope(l) <==> p in l.git || p in l.stack || p in l.base
  {
  }

  lemma ControlPayload(l: Link, p: Path)
    requires p in Picked(l, Import, OpenConflicts(l, Import), {})
    ensures Picked(l, Import, OpenConflicts(l, Import), {})[p] == if p in l.git then l.git[p] else GONE
  {
    hide IsControl, OpenConflicts;
  }

  /** Pointwise convergence: after importing everything with every conflict resolved, a path still counts
      as changed only if it is a Git deletion kept locally, whose verdict has not moved, or a stuck control. */
  lemma ImportSettlesAt(l: Link, p: Path)
    ensures var v, v' := View(l, Import)(p), View(FullImport(l), Import)(p);
            && (IsPreserved(Import, v) ==> v' == v)
            && (IsChange(v') <==> IsPreserved(Import, v) || StuckControl(l, p))
            && (IsConflict(v') ==> IsPreserved(Import, v))
            && (IsPreserved(Import, v) ==> !StuckControl(l, p))
  {
    hide IsControl, WriteFiles, BaselineAfter, Picked, OpenConflicts, Scope, Blocker;
    var files := Picked(l, Import, OpenConflicts(l, Import), {});
    InScope(l, p);
    PickedAt(l, Import, OpenConflicts(l, Import), {}, p);
    NextBaseAt(l, files, p);
    if IsControl(p) {
      ControlSettles(l, p);
    } else if p in files {
      ImportTakes(l, OpenConflicts(l, Import), {}, p);
      WrittenAt(l, files, p);
    } else {
      ImportKeepsDestination(l, files, OpenConflicts(l, Import), {}, p);
      WrittenAt(l, files, p);
      ConflictIsOpen(l, Import, p);
    }
  }

  lemma ExportSettlesAt(l: Link, p: Path)
    ensures var v, v' := View(l, Export)(p), View(FullExport(l), Export)(p);
            && (IsLocalDeletion(Export, v) ==> v' == v)
            && (IsChange(v') <==> IsLocalDeletion(Export, v))
  {
    hide IsControl, WriteFiles, BaselineAfter, OpenConflicts, Scope, Blocker;
    var files := Picked(l, Export, OpenConflicts(l, Export), {});
    InScope(l, p);
    PickedAt(l, Export, OpenConflicts(l, Export), {}, p);
    NextBaseAt(l, files, p);
    WrittenAt(l, files, p);
    ConflictIsOpen(l, Export, p);
    if p in files { ExportTakes(l, OpenConflicts(l, Export), {}, p); }
  }

  lemma ConflictIsOpen(l: Link, dir: Direction, p: Path)
    ensures p in OpenConflicts(l, dir) <==> p in Scope(l) && IsConflict(View(l, dir)(p))
  {
    hide IsConflict, Verdicts;
  }

  lemma WrittenAt(l: Link, files: Tree, p: Path)
    ensures Lookup(AfterImport(l, files).stack, p) ==
            if p in files && !IsControl(p) && files[p].readable then Some(Written(files[p])) else Lookup(l.stack, p)
    ensures Lookup(AfterExport(l, files).git, p) ==
            if p in files && files[p].readable then Some(Written(files[p])) else Lookup(l.git, p)
  {
    hide BaselineAfter, IsControl;
  }

  /** Shape of any verdict: what it may be counted as. */
  lemma VerdictShape(l: Link, dir: Direction, p: Path)
    ensures var v := View(l, dir)(p);
            && (v.Emit? ==> p in Scope(l) && v.entry.path == p) && (IsChange(v) ==> p in Scope(l))
            && (IsPreserved(dir, v) ==> IsChange(v)) && (IsLocalDeletion(dir, v) ==> IsChange(v))
                 && (IsConflict(v) ==> IsChange(v))
            && !(IsPreserved(dir, v) && IsLocalDeletion(dir, v))
  {
    hide IsControl, Blocker;
  }

  /** Import converges: the next preview counts as changed exactly the Git deletions the first one kept,
      plus the control manifests that cannot be read, and no conflict remains outside those deletions. */
  lemma ImportConverges(l: Link, first: TransferPreview, second: TransferPreview)
    requires IsPreview(first, Import, l.git, l.stack, l.base)
    requires IsPreview(second, Import, FullImport(l).git, FullImport(l).stack, FullImport(l).base)
    ensures second.changed == first.preserved + |StuckControls(l)|
    ensures second.preserved == first.preserved && second.conflicts <= first.preserved && second.localDeletions == 0
  {
    hide Verdicts, FullImport, Listed, Ascending, Changes, Conflicts, PreservedPaths, LocalDeletions, StuckControls;
    hide View, Scope, Universe;
    var after := FullImport(l);
    var v, v' := View(l, Import), View(after, Import);
    var kept, stuck := PreservedPaths(Import, v, Scope(l)), StuckControls(l);
    var changes, conflicts := Changes(v', Scope(after)), Conflicts(v', Scope(after));
    var preserved, deletions := PreservedPaths(Import, v', Scope(after)), LocalDeletions(Import, v', Scope(after));
    forall p
      ensures (p in changes <==> p in kept || p in stuck) && (p in preserved <==> p in kept) && p !in deletions
      ensures (p in conflicts ==> p in kept) && (p in kept ==> p !in stuck)
    {
      ImportSettlesIn(l, p);
    }
    assert changes == kept + stuck && kept !! stuck;
    assert preserved == kept && deletions == {};
    SubsetSize(conflicts, kept);
    ImportCounts(l, first);
    ImportCounts(after, second);
  }

  lemma ImportCounts(l: Link, pv: TransferPreview)
    requires IsPreview(pv, Import, l.git, l.stack, l.base)
    ensures pv.changed == |Changes(View(l, Import), Scope(l))| && pv.conflicts == |Conflicts(View(l, Import), Scope(l))|
    ensures pv.preserved == |PreservedPaths(Import, View(l, Import), Scope(l))|
    ensures pv.localDeletions == |LocalDeletions(Import, View(l, Import), Scope(l))|
  {
    hide Verdicts, Listed, Ascending, Changes, Conflicts, PreservedPaths, LocalDeletions, Universe;
  }

  /** The same, as membership in the counted sets. */
  lemma ImportSettlesIn(l: Link, p: Path)
    ensures var after := FullImport(l);
            var v, v' := View(l, Import), View(after, Import);
            var kept := PreservedPaths(Import, v, Scope(l));
            && (p in Changes(v', Scope(after)) <==> p in kept || p in StuckControls(l))
            && (p in PreservedPaths(Import, v', Scope(after)) <==> p in kept)
            && p !in LocalDeletions(Import, v', Scope(after))
            && (p in Conflicts(v', Scope(after)) ==> p in kept)
            && (p in kept ==> p !in StuckControls(l))
  {
    hide View, FullImport, IsPreserved, IsChange, IsConflict, IsLocalDeletion, StuckControl;
    ImportSettlesAt(l, p);
    if StuckControl(l, p) { StuckIsNeither(l, p); }
    VerdictShape(l, Import, p);
    VerdictShape(FullImport(l), Import, p);
  }

  lemma StuckIsNeither(l: Link, p: Path)
    requires StuckControl(l, p)
    ensures p in l.git
    ensures !IsPreserved(Import, View(FullImport(l), Import)(p))
              && !IsLocalDeletion(Import, View(FullImport(l), Import)(p))
  {
    hide IsControl, WriteFiles, BaselineAfter, Picked, OpenConflicts, Scope;
  }

  /** A control manifest that Git has but the inventory could not read: listed before the full import and after it. */
  lemma UnreadableControlStaysListed(p: Path, reason: string)
    requires IsControl(p)
    ensures var l := Link(map[p := File("", 0, false, reason, false)], map[], map[]);
            IsChange(View(l, Import)(p)) && IsChange(View(FullImport(l), Import)(p))
  {
    hide IsControl, FullImport;
    var l := Link(map[p := File("", 0, false, reason, false)], map[], map[]);
    ControlSettles(l, p);
  }

  /** Export converges: only the local deletions, which an export never carries out, stay listed. */
  lemma ExportConverges(l: Link, first: TransferPreview, second: TransferPreview)
    requires IsPreview(first, Export, l.stack, l.git, l.base)
    requires IsPreview(second, Export, FullExport(l).stack, FullExport(l).git, FullExport(l).base)
    ensures second.changed == first.localDeletions == second.localDeletions && second.conflicts <= first.localDeletions
  {
    hide Verdicts, FullExport, Listed, Ascending, Changes, Conflicts, LocalDeletions, View, Scope, Universe;
    var after := FullExport(l);
    var deleted := LocalDeletions(Export, View(l, Export), Scope(l));
    var changes, conflicts := Changes(View(after, Export), Scope(after)), Conflicts(View(after, Export), Scope(after));
    var left := LocalDeletions(Export, View(after, Export), Scope(after));
    forall p
      ensures (p in changes <==> p in deleted) && (p in left <==> p in deleted) && (p in conflicts ==> p in deleted)
    {
      ExportSettlesIn(l, p);
    }
    assert changes == deleted && left == deleted;
    SubsetSize(conflicts, deleted);
    ExportCounts(l, first);
    ExportCounts(after, second);
  }

  lemma ExportSettlesIn(l: Link, p: Path)
    ensures var after := FullExport(l);
            var v, v' := View(l, Export), View(after, Export);
            var deleted := LocalDeletions(Export, v, Scope(l));
            && (p in Changes(v', Scope(after)) <==> p in deleted)
            && (p in LocalDeletions(Export, v', Scope(after)) <==> p in deleted)
            && (p in Conflicts(v', Scope(after)) ==> p in deleted)
  {
    hide View, FullExport, IsChange, IsConflict, IsLocalDeletion;
    ExportSettlesAt(l, p);
    VerdictShape(l, Export, p);
    VerdictShape(FullExport(l), Export, p);
  }

  lemma ExportCounts(l: Link, pv: TransferPreview)
    requires IsPreview(pv, Export, l.stack, l.git, l.base)
    ensures pv.changed == |Changes(View(l, Export), Scope(l))| && pv.conflicts == |Conflicts(View(l, Export), Scope(l))|
    ensures pv.localDeletions == |LocalDeletions(Export, View(l, Export), Scope(l))|
  {
    hide Verdicts, Listed, Ascending, Changes, Conflicts, PreservedPaths, LocalDeletions;
    assert Universe(l.stack, l.git, l.base) == Scope(l);
  }

  /** The two directions agree: after a full import no readable Git file is listed by the export preview either. */
  lemma ImportSettlesTheExportToo(l: Link, p: Path)
    requires p in l.git && l.git[p].readable && !IsControl(p)
    requires Destination(Import, l.stack, p).None? || !Protected(Destination(Import, l.stack, p).value)
    ensures View(FullImport(l), Import)(p).Unchanged? && View(FullImport(l), Export)(p).Unchanged?
  {
    hide IsControl, WriteFiles, BaselineAfter, Picked, OpenConflicts, Scope, Blocker;
    var files := Picked(l, Import, OpenConflicts(l, Import), {});
    InScope(l, p);
    PickedAt(l, Import, OpenConflicts(l, Import), {}, p);
    ConflictIsOpen(l, Import, p);
    WrittenAt(l, files, p);
    if p in files {
      ImportTakes(l, OpenConflicts(l, Import), {}, p);
    } else {
      BlockerIsNearest(l.stack, p);
    }
  }
}
