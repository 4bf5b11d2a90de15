/** An import followed by the deployment of its stacks: what provisioning, failures and rollbacks of a whole batch leave
    behind. */
module DeployedImport {
  import opened Common
  import opened Paths
  import opened Preview
  import opened Catalogue
  import opened Transfer
  import opened Backup
  import opened Sync
  import opened Rollback
  import opened Unattended
  import D = Deployment

  /** An import of what was seen of the link. */
  datatype Imported = Imported(l: Link, sight: Sight, files: Tree, resolved: set<Path>, chosen: set<Path>,
                               catalogue: set<Path>)

  ghost predicate Valid(i: Imported) {
    PartOf(i.files, Picked(SeenLink(i.l, i.sight), Import, i.resolved, i.chosen))
  }

  ghost function ArchiveFor(i: Imported): Archive {
    ArchiveOf(StackFiles(i.files), Seen(i.l.stack, i.sight), i.catalogue)
  }

  ghost function Start(i: Imported): Link {
    AfterSeenImport(i.l, i.sight, i.files)
  }

  // ----- what the pipeline of one stack does to the files -----

  /** What the calls of one stack do to the files. `removed` are the files and directories that provisioning moves off
      the stack, `renamed` those of them that its rollback moves back, `played` the files that a file rollback which
      fails half way has put back. */
  datatype Effects = Effects(removed: set<Path>, renamed: set<Path>, played: set<Path>)

  predicate Under(roots: set<Path>, p: Path) {
    exists r :: r in roots && (p == r || Below(p, r))
  }

  function AfterProvisioning(link: Link, e: Effects): Link {
    link.(stack := map p | p in link.stack && !Under(e.removed, p) :: link.stack[p])
  }

  /** The pipeline of a stack failed and is rolled back. */
  predicate RollsBack(cfg: D.Config, c: D.Calls) {
    !D.Deploys(cfg, c) && cfg.rollbackEnabled
  }

  ghost function Replay(link: Link, archive: Archive, t: Path): set<Path> {
    ToReplay(archive, link.stack, OwnedRecords(archive, t))
  }

  ghost function AfterFiles(link: Link, archive: Archive, cfg: D.Config, c: D.Calls, e: Effects, t: Path): Link {
    if !cfg.hasBackup then link
    else if c.filesOk then RolledBack(link, archive, t)
    else link.(stack := Apply(link.stack, DesiredBy(archive, Replay(link, archive, t)), e.played))
  }

  function AfterPutBack(before: Tree, link: Link, e: Effects): Link {
    link.(stack := link.stack + map p | p in before && Under(e.renamed, p) :: before[p])
  }

  /** Provisioning removes before the deployment. A failure puts the files back first and the removals after them; in
      every other case the removals are final. */
  ghost function AfterStack(link: Link, archive: Archive, cfg: D.Config, c: D.Calls, e: Effects, t: Path): Link {
    var provisioned := AfterProvisioning(link, e);
    if !RollsBack(cfg, c) then provisioned
    else
      var restored := AfterFiles(provisioned, archive, cfg, c, e, t);
      if D.HasTransaction(c) then AfterPutBack(link.stack, restored, e) else restored
  }

  ghost predicate FilesAllowed(link: Link, archive: Archive, t: Path) {
    RollbackAllowed(archive, link.stack, OwnedRecords(archive, t))
  }

  /** Nothing stands where a removed path is to be moved back. */
  ghost predicate Vacant(stack: Tree, roots: set<Path>) {
    forall p :: p in stack ==> !Under(roots, p)
  }

  /** Answers and effects are those of the files: Compose manifests are never removed, the files are put back only where
      the rollback is allowed, a removal is moved back only onto a free place, and the question for an earlier Compose
      file is read from the archive. */
  ghost predicate Wired(i: Imported, cfg: D.Config, c: D.Calls, e: Effects, link: Link, t: Path) {
    var archive, provisioned := ArchiveFor(i), AfterProvisioning(link, e);
    && e.renamed <= e.removed && (forall m :: m in i.catalogue ==> !Under(e.removed, m))
    && (c.hadPrevious != D.Unreadable ==> (c.hadPrevious == D.PreviousCompose <==> HadPreviousCompose(archive, t)))
    && (RollsBack(cfg, c) && cfg.hasBackup && c.filesOk ==> FilesAllowed(provisioned, archive, t))
    && (RollsBack(cfg, c) && cfg.hasBackup && !c.filesOk ==>
          e.played <= if FilesAllowed(provisioned, archive, t) then Replay(provisioned, archive, t) else {})
    && (RollsBack(cfg, c) && D.HasTransaction(c) ==>
          && Vacant(AfterFiles(provisioned, archive, cfg, c, e, t).stack, e.renamed)
          && (c.removalsOk ==> e.renamed == e.removed))
  }

  // ----- the batch as a run on the link -----

  datatype Run = Run(cfg: D.Config, calls: map<Path, D.Calls>, effects: map<Path, Effects>, busy: set<Path>)

  predicate Handles(run: Run, t: Path) {
    t !in run.busy && t in run.calls && t in run.effects
  }

  ghost function AfterBatch(i: Imported, run: Run, targets: seq<Path>): Link
    decreases |targets|
  {
    if targets == [] then Start(i)
    else
      var before := AfterBatch(i, run, targets[..|targets| - 1]);
      var t := targets[|targets| - 1];
      if Handles(run, t) then AfterStack(before, ArchiveFor(i), run.cfg, run.calls[t], run.effects[t], t) else before
  }

  ghost predicate WiredBatch(i: Imported, run: Run, targets: seq<Path>) {
    forall k :: 0 <= k < |targets| && Handles(run, targets[k]) ==>
      Wired(i, run.cfg, run.calls[targets[k]], run.effects[targets[k]], AfterBatch(i, run, targets[..k]), targets[k])
  }

  // ----- one path -----

  /** Where a path is: the imported file, the earlier one, or off the stack; and whether its baseline entry is back. */
  datatype Place = New | Old | Off
  datatype Spot = Spot(place: Place, based: bool)

  /** What one stack does to one path. */
  datatype Touch = Touch(removed: bool, restored: bool, half: bool, renamed: bool)

  ghost function TouchOf(i: Imported, cfg: D.Config, c: D.Calls, e: Effects, t: Path, p: Path): Touch {
    var rolls := RollsBack(cfg, c);
    Touch(Under(e.removed, p),
          rolls && cfg.hasBackup && c.filesOk && p in ArchiveFor(i).records && Owns(i.catalogue, t, p),
          rolls && cfg.hasBackup && !c.filesOk && p in e.played,
          rolls && D.HasTransaction(c) && Under(e.renamed, p))
  }

  /** Removed, then put back as it was before the import, then, if moved back, as it was before the removal. */
  function Moved(s: Spot, h: Touch): Spot {
    var place :=
      if h.renamed then s.place
      else if h.restored || h.half then Old
      else if h.removed then Off
      else s.place;
    Spot(place, s.based || h.restored)
  }

  ghost function SpotAfter(i: Imported, run: Run, targets: seq<Path>, p: Path): Spot
    decreases |targets|
  {
    if targets == [] then Spot(New, false)
    else
      var before := SpotAfter(i, run, targets[..|targets| - 1], p);
      var t := targets[|targets| - 1];
      if Handles(run, t) then Moved(before, TouchOf(i, run.cfg, run.calls[t], run.effects[t], t, p)) else before
  }

  ghost function EarlierFile(i: Imported, p: Path): Option<File> {
    var n := SeenLink(i.l, i.sight);
    if p in n.stack then Some(Written(n.stack[p])) else None
  }

  ghost function EarlierSha(i: Imported, p: Path): Option<Sha> {
    var n := SeenLink(i.l, i.sight);
    if p in n.stack then Some(n.stack[p].sha) else None
  }

  /** The link has the path where the spot says. */
  ghost predicate At(i: Imported, s: Spot, link: Link, p: Path) {
    var w, recorded := Start(i), p in ArchiveFor(i).records;
    && Lookup(link.stack, p) ==
       (match s.place case New => Lookup(w.stack, p) case Old => EarlierFile(i, p) case Off => None)
    && Tracked(link.base, p) == (if s.based then EarlierSha(i, p) else Tracked(w.base, p))
    && (s.place == Old || s.based ==> recorded)
  }

  /** A recorded file is the imported one before any rollback, and readable where it existed. */
  lemma RecordedFile(i: Imported, p: Path)
    requires Valid(i) && p in ArchiveFor(i).records
    ensures var n, r := SeenLink(i.l, i.sight), ArchiveFor(i).records[p];
            && p in StackFiles(i.files) && i.files[p].readable
            && Lookup(Start(i).stack, p) == Some(Written(i.files[p]))
            && r.afterExists && r.afterSha == i.files[p].sha && (r.beforeExists <==> p in n.stack)
            && (p in n.stack ==>
                r.beforeSha == n.stack[p].sha != r.afterSha && r.beforeMode == SafeMode(n.stack[p].mode))
  {
    hide Picked, IsControl, BaselineAfter, InSight, Seen, TouchedStacks, SafeMode, WriteFiles;
    TakenIsInSight(i.l, i.sight, i.resolved, i.chosen, p);
    SeenWrittenAt(i.l, i.sight, i.files, p);
  }

  /** The action of one more rollback on a recorded file: an imported one is put back, an earlier one stays, and an
      earlier one that is off the stack makes it refuse. */
  lemma RollbackOfRecorded(i: Imported, s: Spot, link: Link, p: Path)
    requires Valid(i) && At(i, s, link, p) && p in ArchiveFor(i).records
    ensures var n := SeenLink(i.l, i.sight);
            RollbackAt(ArchiveFor(i), link.stack, p) ==
            match s.place
            case New => if p in n.stack then Restore else Remove
            case Old => Noop
            case Off => if p in n.stack then Clash else Noop
  {
    hide Picked, IsControl, Seen, SafeMode, ArchiveFor, Owns, Start;
    RecordedFile(i, p);
  }

  lemma OwnersInArchive(i: Imported, t: Path, p: Path)
    requires p in ArchiveFor(i).records
    ensures p in OwnedRecords(ArchiveFor(i), t) <==> Owns(i.catalogue, t, p)
  {
    hide Owns, TouchedStacks, Records;
    ArchiveKnowsOwners(StackFiles(i.files), Seen(i.l.stack, i.sight), i.catalogue, t, p);
  }

  /** Provisioning on one path. */
  lemma ProvisioningStep(i: Imported, s: Spot, link: Link, e: Effects, p: Path)
    requires At(i, s, link, p)
    ensures At(i, if Under(e.removed, p) then s.(place := Off) else s, AfterProvisioning(link, e), p)
  {
    hide ArchiveFor, Start, Seen, Under;
  }

  /** The file rollback on one path. */
  lemma FilesStep(i: Imported, s: Spot, link: Link, cfg: D.Config, c: D.Calls, e: Effects, t: Path, p: Path)
    requires Valid(i) && At(i, s, link, p)
    requires cfg.hasBackup && c.filesOk ==> FilesAllowed(link, ArchiveFor(i), t)
    requires cfg.hasBackup && !c.filesOk ==> e.played <= Replay(link, ArchiveFor(i), t)
    ensures var restored := cfg.hasBackup && c.filesOk && p in ArchiveFor(i).records && Owns(i.catalogue, t, p);
            var half := cfg.hasBackup && !c.filesOk && p in e.played;
            At(i, Spot(if restored || half then Old else s.place, s.based || restored),
               AfterFiles(link, ArchiveFor(i), cfg, c, e, t), p)
  {
    hide ArchiveFor, RollbackAt, Seen, Owns, RolledBack, SafeMode, Start, Apply, OwnedRecords;
    var archive := ArchiveFor(i);
    RolledBackLooksUp(link, archive, t, p);
    ApplyLooksUp(link.stack, DesiredBy(archive, Replay(link, archive, t)), e.played);
    OwnedIsRecorded(archive, t);
    if p in archive.records {
      RecordedFile(i, p);
      RollbackOfRecorded(i, s, link, p);
      OwnersInArchive(i, t, p);
      EarlierIsRestored(i, p);
    }
  }

  /** What the archive plays back on a recorded path is the earlier file. */
  lemma EarlierIsRestored(i: Imported, p: Path)
    requires Valid(i) && p in ArchiveFor(i).records
    ensures forall tree, chosen: set<Path> :: p in chosen ==>
              Changed(tree, DesiredBy(ArchiveFor(i), chosen), p) == EarlierFile(i, p)
    ensures var r := ArchiveFor(i).records[p];
            EarlierSha(i, p) == if r.beforeExists then Some(r.beforeSha) else None
  {
    hide ArchiveFor, Seen, SafeMode, Start;
    RecordedFile(i, p);
    if p in SeenLink(i.l, i.sight).stack { SafeModeIsSafe(SeenLink(i.l, i.sight).stack[p].mode); }
  }

  /** Moving removals back, on one path. */
  lemma PutBackStep(i: Imported, s: Spot, before: Link, s': Spot, link: Link, e: Effects, p: Path)
    requires At(i, s, before, p) && At(i, s', link, p) && Vacant(link.stack, e.renamed)
    ensures At(i, if Under(e.renamed, p) then s'.(place := s.place) else s',
               AfterPutBack(before.stack, link, e), p)
  {
    hide ArchiveFor, Start, Seen, Under;
  }

  /** One stack moves each path exactly as its touch says. */
  lemma StackStep(i: Imported, s: Spot, link: Link, cfg: D.Config, c: D.Calls, e: Effects, t: Path, p: Path)
    requires Valid(i) && At(i, s, link, p) && Wired(i, cfg, c, e, link, t)
    ensures At(i, Moved(s, TouchOf(i, cfg, c, e, t, p)), AfterStack(link, ArchiveFor(i), cfg, c, e, t), p)
  {
    hide ArchiveFor, Start, Seen, At, AfterFiles, AfterPutBack, AfterProvisioning, Owns, HadPreviousCompose;
    hide FilesAllowed, Replay, D.Deploys, Valid;
    ProvisioningStep(i, s, link, e, p);
    assert Under(e.renamed, p) ==> Under(e.removed, p);
    if RollsBack(cfg, c) {
      var provisioned := AfterProvisioning(link, e);
      var s1 := if Under(e.removed, p) then s.(place := Off) else s;
      FilesStep(i, s1, provisioned, cfg, c, e, t, p);
      if D.HasTransaction(c) {
        var touch := TouchOf(i, cfg, c, e, t, p);
        var s2 := Spot(if touch.restored || touch.half then Old else s1.place, s1.based || touch.restored);
        PutBackStep(i, s, link, s2, AfterFiles(provisioned, ArchiveFor(i), cfg, c, e, t), e, p);
      }
    }
  }

  // ----- the whole batch -----

  lemma FrontIsWired(i: Imported, run: Run, targets: seq<Path>, k: nat)
    requires WiredBatch(i, run, targets) && k <= |targets|
    ensures WiredBatch(i, run, targets[..k])
  {
    hide Wired, AfterBatch;
    forall j | 0 <= j < k && Handles(run, targets[j])
      ensures Wired(i, run.cfg, run.calls[targets[j]], run.effects[targets[j]],
                    AfterBatch(i, run, targets[..k][..j]), targets[..k][j])
    {
      assert targets[..k][..j] == targets[..j];
    }
  }

  /** The batch on the whole link is, path by path, the three-place machine: whatever the order of failures, half
      rollbacks and removals, no path is ever anything but the imported file, the earlier one, or off the stack. */
  lemma {:induction false} BatchIsPathwise(i: Imported, run: Run, targets: seq<Path>, p: Path)
    requires Valid(i) && WiredBatch(i, run, targets)
    ensures At(i, SpotAfter(i, run, targets, p), AfterBatch(i, run, targets), p)
    decreases |targets|
  {
    hide Valid, Wired, ArchiveFor, Start, TouchOf, Moved, AfterStack;
    if targets == [] {
    } else {
      var k := |targets| - 1;
      FrontIsWired(i, run, targets, k);
      BatchIsPathwise(i, run, targets[..k], p);
      var t := targets[k];
      if Handles(run, t) {
        StackStep(i, SpotAfter(i, run, targets[..k], p), AfterBatch(i, run, targets[..k]), run.cfg, run.calls[t],
                  run.effects[t], t, p);
      }
    }
  }

  /** An earlier file that is off the stack when its turn comes: taken by this provisioning, or lost before. */
  ghost predicate EarlierIsGone(i: Imported, run: Run, targets: seq<Path>, k: nat, p: Path)
    requires k < |targets| && Handles(run, targets[k])
  {
    && p in SeenLink(i.l, i.sight).stack
    && (Under(run.effects[targets[k]].removed, p) || SpotAfter(i, run, targets[..k], p).place == Off)
  }

  /** At any point of the batch the files of a stack can be put back if and only if the backup has a record of its own
      and none of its recorded earlier files is off the stack. */
  lemma FilesAnswerIsExact(i: Imported, run: Run, targets: seq<Path>, k: nat)
    requires Valid(i) && WiredBatch(i, run, targets) && k < |targets| && Handles(run, targets[k])
    ensures var owned := OwnedRecords(ArchiveFor(i), targets[k]);
            FilesAllowed(AfterProvisioning(AfterBatch(i, run, targets[..k]), run.effects[targets[k]]), ArchiveFor(i),
                         targets[k])
            <==> owned != {} && forall p :: p in owned ==> !EarlierIsGone(i, run, targets, k, p)
  {
    hide Valid, Wired, ArchiveFor, AfterBatch, SpotAfter, RollbackAt, OwnedRecords, AfterProvisioning, Seen, Under, At;
    var e, t, archive := run.effects[targets[k]], targets[k], ArchiveFor(i);
    var provisioned := AfterProvisioning(AfterBatch(i, run, targets[..k]), e);
    FrontIsWired(i, run, targets, k);
    OwnedIsRecorded(archive, t);
    forall p | p in OwnedRecords(archive, t)
      ensures RollbackAt(archive, provisioned.stack, p) == Clash <==> EarlierIsGone(i, run, targets, k, p)
    {
      BatchIsPathwise(i, run, targets[..k], p);
      var s := SpotAfter(i, run, targets[..k], p);
      ProvisioningStep(i, s, AfterBatch(i, run, targets[..k]), e, p);
      RollbackOfRecorded(i, if Under(e.removed, p) then s.(place := Off) else s, provisioned, p);
    }
  }

  /** A stack whose files cannot be put back is listed as a failed rollback, whatever else succeeds. */
  lemma RefusedFilesAreAFailure(i: Imported, b: D.Batch, run: Run, targets: seq<Path>, k: nat)
    requires Valid(i) && WiredBatch(i, run, targets) && D.Filed(b, targets, run.busy, run.cfg, run.calls)
    requires k < |targets| && Handles(run, targets[k]) && run.cfg.hasBackup && RollsBack(run.cfg, run.calls[targets[k]])
    requires var owned := OwnedRecords(ArchiveFor(i), targets[k]);
             owned == {} || exists p :: p in owned && EarlierIsGone(i, run, targets, k, p)
    ensures targets[k] in b.failed && targets[k] in b.rollbackFailed
  {
    hide Valid, ArchiveFor, AfterBatch, SpotAfter, OwnedRecords, AfterProvisioning, Seen, Under, HadPreviousCompose;
    hide D.ReachesDeploy, EarlierIsGone, FilesAllowed, AfterFiles, Vacant;
    var t := targets[k];
    FilesAnswerIsExact(i, run, targets, k);
    assert !run.calls[t].filesOk;
    assert D.Ends(targets, run.busy, run.cfg, run.calls, t, {D.RollbackFailed});
    assert D.Ends(targets, run.busy, run.cfg, run.calls, t, {D.Failed, D.RolledBack, D.RollbackFailed});
  }

  // ----- a stack listed as rolled back -----

  /** The stack is listed as rolled back, with a backup at hand, and owns the path. */
  ghost predicate ListedBack(i: Imported, run: Run, targets: seq<Path>, k: nat, p: Path) {
    && k < |targets| && Handles(run, targets[k]) && run.cfg.hasBackup
    && D.FinalOf(run.cfg, run.calls[targets[k]]) == D.RolledBack && Owns(i.catalogue, targets[k], p)
  }

  /** The rollback leaves the path other than it was before the import, although it counts as rolled back: a new file
      that its provisioning had removed is moved back, or a file outside the backup was lost to a removal. */
  ghost predicate LeftOver(i: Imported, run: Run, targets: seq<Path>, k: nat, p: Path)
    requires k < |targets| && Handles(run, targets[k])
  {
    var c, e, s := run.calls[targets[k]], run.effects[targets[k]], SpotAfter(i, run, targets[..k], p);
    if p in ArchiveFor(i).records then D.HasTransaction(c) && Under(e.removed, p) && s.place == New
    else p in i.l.stack && (s.place == Off || (!D.HasTransaction(c) && Under(e.removed, p)))
  }

  /** For a file the stack owns, as the rollback of that stack alone would leave it. */
  lemma SameAsOneRollback(i: Imported, t: Path, p: Path)
    requires Valid(i) && Owns(i.catalogue, t, p)
    ensures var w, recorded := Start(i), p in ArchiveFor(i).records;
            && ((if recorded then EarlierFile(i, p) else Lookup(w.stack, p)) == Lookup(i.l.stack, p) <==>
                (p in StackFiles(i.files) && p in i.l.stack ==> Plain(i.l.stack[p])))
            && (if recorded then EarlierSha(i, p) else Tracked(w.base, p)) ==
               Tracked(ImportedAndRolledBack(SeenLink(i.l, i.sight), i.files, i.catalogue, t).base, p)
  {
    hide Owns, Seen, Picked, Plain, ImportedAndRolledBack, ArchiveOf, AfterSeenImport, SeenAndRolledBack;
    var l, s, f, r, c, g := i.l, i.sight, i.files, i.resolved, i.chosen, i.catalogue;
    SeenRolledBackAt(l, s, f, r, c, g, t, p);
    RollbackCarriesOver(l, s, f, r, c, g, t, p);
    SeenRollbackIsRollback(l, s, f, r, c, g, t);
  }

  lemma BaselineOfListed(i: Imported, t: Path, p: Path)
    requires Valid(i) && Owns(i.catalogue, t, p) && !IsControl(p)
    ensures (if p in ArchiveFor(i).records then EarlierSha(i, p) else Tracked(Start(i).base, p)) == Tracked(i.l.base, p)
            <==> BaselineSurvives(SeenLink(i.l, i.sight), i.files, p)
  {
    hide Owns, Seen, Picked, ImportedAndRolledBack, ArchiveFor, Start, IsControl, BaselineSurvives;
    SameAsOneRollback(i, t, p);
    RollbackRestoresTheBaseline(SeenLink(i.l, i.sight), i.files, i.resolved, i.chosen, i.catalogue, t, p);
  }

  /** Where the machine has a path of the listed stack. */
  lemma SpotOfListed(i: Imported, run: Run, targets: seq<Path>, k: nat, p: Path)
    requires ListedBack(i, run, targets, k, p) && WiredBatch(i, run, targets)
    ensures var c, e, s := run.calls[targets[k]], run.effects[targets[k]], SpotAfter(i, run, targets[..k], p);
            var recorded, off := p in ArchiveFor(i).records, Under(e.removed, p);
            SpotAfter(i, run, targets[..k + 1], p) ==
            Spot(if off && D.HasTransaction(c) then s.place else if recorded then Old else if off then Off else s.place,
                 s.based || recorded)
  {
    hide ArchiveFor, AfterBatch, AfterProvisioning, Under, Owns, HadPreviousCompose, FilesAllowed, AfterFiles, Vacant;
    hide D.ReachesDeploy, Replay;
    assert targets[..k + 1][..k] == targets[..k];
    assert Wired(i, run.cfg, run.calls[targets[k]], run.effects[targets[k]], AfterBatch(i, run, targets[..k]),
                 targets[k]);
  }

  /** A recorded file that the listed stack's provisioning removed was new: otherwise the rollback is refused. */
  lemma RemovedWasNew(i: Imported, run: Run, targets: seq<Path>, k: nat, p: Path)
    requires ListedBack(i, run, targets, k, p) && Valid(i) && WiredBatch(i, run, targets)
    requires p in ArchiveFor(i).records && Under(run.effects[targets[k]].removed, p)
    ensures p !in SeenLink(i.l, i.sight).stack
  {
    hide Valid, ArchiveFor, AfterBatch, AfterProvisioning, Under, Owns, HadPreviousCompose, FilesAllowed, AfterFiles;
    hide D.ReachesDeploy, Replay, SpotAfter, Seen, Vacant;
    FilesAnswerIsExact(i, run, targets, k);
    OwnersInArchive(i, targets[k], p);
    assert Wired(i, run.cfg, run.calls[targets[k]], run.effects[targets[k]], AfterBatch(i, run, targets[..k]),
                 targets[k]);
    assert !EarlierIsGone(i, run, targets, k, p);
  }

  /** A new file that was taken holds nothing plain before: nothing at all, or something unreadable out of sight. */
  lemma NewFileBefore(i: Imported, p: Path)
    requires Valid(i) && p in ArchiveFor(i).records && p !in SeenLink(i.l, i.sight).stack
    ensures p in StackFiles(i.files) && Lookup(Start(i).stack, p) != Lookup(i.l.stack, p) && EarlierFile(i, p) == None
    ensures p in i.l.stack ==> !Plain(i.l.stack[p])
  {
    hide Picked, IsControl, Seen, ArchiveFor, Start, InSight;
    RecordedFile(i, p);
    TakenIsInSight(i.l, i.sight, i.resolved, i.chosen, p);
    SeenAt(i.l.stack, i.sight, p);
  }

  lemma PlaceOfListed(i: Imported, run: Run, targets: seq<Path>, k: nat, p: Path)
    requires ListedBack(i, run, targets, k, p) && Valid(i) && WiredBatch(i, run, targets)
    ensures Lookup(AfterBatch(i, run, targets[..k + 1]).stack, p) == Lookup(i.l.stack, p) <==>
            (p in StackFiles(i.files) && p in i.l.stack ==> Plain(i.l.stack[p])) && !LeftOver(i, run, targets, k, p)
  {
    hide Valid, Wired, ArchiveFor, AfterBatch, Seen, Under, Owns, Plain, D.FinalOf, At, SpotAfter, Start, EarlierFile;
    FrontIsWired(i, run, targets, k);
    FrontIsWired(i, run, targets, k + 1);
    BatchIsPathwise(i, run, targets[..k], p);
    BatchIsPathwise(i, run, targets[..k + 1], p);
    BaseAt(i, SpotAfter(i, run, targets[..k], p), AfterBatch(i, run, targets[..k]), p);
    BaseAt(i, SpotAfter(i, run, targets[..k + 1], p), AfterBatch(i, run, targets[..k + 1]), p);
    SpotOfListed(i, run, targets, k, p);
    SameAsOneRollback(i, targets[k], p);
    if p in ArchiveFor(i).records && Under(run.effects[targets[k]].removed, p) {
      RemovedWasNew(i, run, targets, k, p);
      NewFileBefore(i, p);
    }
  }

  /** What the machine says of one path, read off the link. */
  lemma BaseAt(i: Imported, s: Spot, link: Link, p: Path)
    requires At(i, s, link, p)
    ensures Tracked(link.base, p) == if s.based then EarlierSha(i, p) else Tracked(Start(i).base, p)
    ensures Lookup(link.stack, p) ==
            match s.place case New => Lookup(Start(i).stack, p) case Old => EarlierFile(i, p) case Off => None
    ensures s.place == Old || s.based ==> p in ArchiveFor(i).records
  {
  }

  /** Once a stack is listed as rolled back, with a backup at hand, each of its files is what it was before the import
      if and only if the import found the destination missing or plain and no removal interferes, and its baseline entry
      is the earlier one if and only if the import settled nothing there. */
  lemma RolledBackStackIsBack(i: Imported, run: Run, targets: seq<Path>, k: nat, p: Path)
    requires Valid(i) && WiredBatch(i, run, targets) && ListedBack(i, run, targets, k, p)
    ensures var link, n := AfterBatch(i, run, targets[..k + 1]), SeenLink(i.l, i.sight);
            && (Lookup(link.stack, p) == Lookup(i.l.stack, p) <==>
                (p in StackFiles(i.files) && p in i.l.stack ==> Plain(i.l.stack[p]))
                     && !LeftOver(i, run, targets, k, p))
            && (!IsControl(p) ==>
                (Tracked(link.base, p) == Tracked(i.l.base, p) <==> BaselineSurvives(n, i.files, p)))
  {
    hide Valid, Wired, ArchiveFor, AfterBatch, Seen, Under, Owns, Plain, BaselineSurvives, IsControl, D.FinalOf, At;
    hide SpotAfter, Start, EarlierSha, EarlierFile, LeftOver;
    var t := targets[k];
    FrontIsWired(i, run, targets, k + 1);
    BatchIsPathwise(i, run, targets[..k + 1], p);
    SpotOfListed(i, run, targets, k, p);
    PlaceOfListed(i, run, targets, k, p);
    if !IsControl(p) { BaselineOfListed(i, t, p); }
    BaseAt(i, SpotAfter(i, run, targets[..k + 1], p), AfterBatch(i, run, targets[..k + 1]), p);
  }

  lemma ListedMeansRolledBack(b: D.Batch, run: Run, targets: seq<Path>, t: Path)
    requires D.Filed(b, targets, run.busy, run.cfg, run.calls)
    ensures t in b.rolledBack <==>
            t in targets && t !in run.busy && t in run.calls && D.FinalOf(run.cfg, run.calls[t]) == D.RolledBack
  {
    hide D.FinalOf;
    assert t in b.rolledBack <==> D.Ends(targets, run.busy, run.cfg, run.calls, t, {D.RolledBack});
  }

  /** The stack does nothing to the path. */
  ghost predicate Untouched(i: Imported, run: Run, t: Path, p: Path) {
    Handles(run, t) ==> TouchOf(i, run.cfg, run.calls[t], run.effects[t], t, p) == Touch(false, false, false, false)
  }

  /** What holds of a path after one stack holds at the end of the batch, unless a later stack touches it. */
  lemma {:induction false} LaterStacksLeaveItAlone(i: Imported, run: Run, targets: seq<Path>, k: nat, p: Path)
    requires k <= |targets| && forall j :: k <= j < |targets| ==> Untouched(i, run, targets[j], p)
    ensures SpotAfter(i, run, targets, p) == SpotAfter(i, run, targets[..k], p)
    decreases |targets|
  {
    hide TouchOf;
    if k == |targets| {
      assert targets[..k] == targets;
    } else {
      var front := targets[..|targets| - 1];
      assert front[..k] == targets[..k];
      LaterStacksLeaveItAlone(i, run, front, k, p);
      assert Untouched(i, run, targets[|targets| - 1], p);
    }
  }

  /** The rollback of the stack's files ran to its end. */
  predicate TakenBack(run: Run, t: Path) {
    Handles(run, t) && RollsBack(run.cfg, run.calls[t]) && run.cfg.hasBackup && run.calls[t].filesOk
  }

  ghost predicate OwnedByTakenBack(i: Imported, run: Run, targets: seq<Path>, p: Path) {
    exists t :: t in targets && TakenBack(run, t) && Owns(i.catalogue, t, p)
  }

  /** Without removals of the path and half rollbacks, exactly the recorded files of the stacks taken back are the
      earlier ones at the end, in whatever order the stacks failed and also where they share files. */
  lemma {:induction false} BatchTakesBack(i: Imported, run: Run, targets: seq<Path>, p: Path)
    requires forall t :: t in targets && Handles(run, t) ==>
               !Under(run.effects[t].removed, p) && !Under(run.effects[t].renamed, p) && p !in run.effects[t].played
    ensures var back := p in ArchiveFor(i).records && OwnedByTakenBack(i, run, targets, p);
            SpotAfter(i, run, targets, p) == Spot(if back then Old else New, back)
    decreases |targets|
  {
    hide ArchiveFor, Owns, Under, RollsBack;
    if targets == [] {
    } else {
      var front, t := targets[..|targets| - 1], targets[|targets| - 1];
      assert targets == front + [t] && t in targets;
      BatchTakesBack(i, run, front, p);
    }
  }

  /** No provisioning of the batch may remove a Compose file, so that of a listed stack is always back, unless it was
      not plain. */
  lemma ComposeFileIsBack(i: Imported, run: Run, targets: seq<Path>, k: nat)
    requires Valid(i) && WiredBatch(i, run, targets) && k < |targets| && ListedBack(i, run, targets, k, targets[k])
    ensures var t := targets[k];
            Lookup(AfterBatch(i, run, targets[..k + 1]).stack, t) == Lookup(i.l.stack, t) <==>
            (t in StackFiles(i.files) && t in i.l.stack ==> Plain(i.l.stack[t]))
  {
    hide Valid, ArchiveFor, AfterBatch, Seen, Under, Plain, D.FinalOf, At, SpotAfter, Start, AfterFiles;
    hide AfterProvisioning, HadPreviousCompose, FilesAllowed, Replay, Vacant, Covers, D.Deploys;
    var t := targets[k];
    assert t in i.catalogue;
    forall j | 0 <= j < |targets| && Handles(run, targets[j]) ensures !Under(run.effects[targets[j]].removed, t) {
      assert Wired(i, run.cfg, run.calls[targets[j]], run.effects[targets[j]], AfterBatch(i, run, targets[..j]),
                   targets[j]);
    }
    NeverRemovedIsNeverOff(i, run, targets[..k], t);
    PlaceOfListed(i, run, targets, k, t);
  }

  lemma {:induction false} NeverRemovedIsNeverOff(i: Imported, run: Run, targets: seq<Path>, p: Path)
    requires forall j :: 0 <= j < |targets| && Handles(run, targets[j]) ==> !Under(run.effects[targets[j]].removed, p)
    ensures SpotAfter(i, run, targets, p).place != Off
    decreases |targets|
  {
    hide ArchiveFor, Owns, Under, RollsBack;
    if targets == [] {
    } else {
      NeverRemovedIsNeverOff(i, run, targets[..|targets| - 1], p);
    }
  }

  // ----- the two inputs -----

  /** Provisioning, validation and the dry run succeed, the deployment fails, and everything after it succeeds. */
  const FAILED_DEPLOYMENT := D.Calls(true, true, true, true, true, true, true, false, true, D.PreviousCompose,
                                     true, true, true, true, true, true, true, true)
  const ROLLBACK_CONFIG := D.Config(true, true, true)

  /** One file of the link, imported onto what was there. */
  ghost function OneFile(t: Path, p: Path, file: File, before: Tree, base: Baseline): Imported {
    Imported(Link(map[p := file], before, base), Everything, map[p := file], {}, {}, {t})
  }

  /** The earlier state of that file: none, or a tracked readable one with other contents. */
  ghost predicate OneBefore(p: Path, file: File, before: Tree, base: Baseline) {
    if before == map[] then base == map[]
    else before.Keys == {p} && before[p].readable && before[p].sha != file.sha && base == map[p := before[p].sha]
  }

  lemma OneFileIsTaken(p: Path, file: File, before: Tree, base: Baseline)
    requires file.readable && !IsControl(p) && OneBefore(p, file, before, base)
    ensures var l := Link(map[p := file], before, base);
            p in Picked(l, Import, {}, {}) && Picked(l, Import, {}, {})[p] == file
  {
    hide IsControl, Picked;
    var l := Link(map[p := file], before, base);
    BlockerIsNearest(before, p);
    InScope(l, p);
    PickedAt(l, Import, {}, {}, p);
    ImportTakes(l, {}, {}, p);
  }

  lemma OneFileIsValid(t: Path, p: Path, file: File, before: Tree, base: Baseline)
    requires file.readable && !IsControl(p) && OneBefore(p, file, before, base)
    ensures var i := OneFile(t, p, file, before, base); Valid(i) && SeenLink(i.l, i.sight) == i.l
  {
    hide IsControl, BaselineAfter, Picked;
    var i := OneFile(t, p, file, before, base);
    EverythingIsSeen(i.l, i.files);
    OneFileIsTaken(p, file, before, base);
  }

  lemma OneFileIsRecorded(t: Path, p: Path, file: File, before: Tree, base: Baseline)
    requires file.readable && !IsControl(p) && OneBefore(p, file, before, base) && t != p && Owns({t}, t, p)
    ensures var i := OneFile(t, p, file, before, base);
            ArchiveFor(i).records.Keys == {p} && OwnedRecords(ArchiveFor(i), t) == {p}
  {
    hide IsControl, Owns, OwnedRecords, Seen, Start;
    var i := OneFile(t, p, file, before, base);
    EverythingIsSeen(i.l, i.files);
    RecordsOfOne(t, p, file, before);
    OwnersInArchive(i, t, p);
    OwnedIsRecorded(ArchiveFor(i), t);
  }

  lemma RecordsOfOne(t: Path, p: Path, file: File, before: Tree)
    requires !IsControl(p) && (p in before ==> before[p].readable && before[p].sha != file.sha)
    ensures StackFiles(map[p := file]) == map[p := file]
    ensures ArchiveOf(StackFiles(map[p := file]), before, {t}).records.Keys == {p}
  {
    hide IsControl, SafeMode, TouchedStacks;
  }

  lemma StartOfOne(t: Path, p: Path, file: File, before: Tree, base: Baseline)
    requires file.readable && !IsControl(p) && OneBefore(p, file, before, base)
    ensures Start(OneFile(t, p, file, before, base)).stack == map[p := Written(file)]
  {
    hide IsControl, SafeMode, BaselineAfter, Seen, Written;
    RecordsOfOne(t, p, file, before);
  }

  /** A commit adds p and a manifest that removes it, and the deployment fails: everything succeeds, the stack counts as
      rolled back, and it has the file it did not have before. */
  lemma RemovedNewFileComesBack(t: Path, p: Path, file: File)
    requires file.readable && !IsControl(p) && t != p && !Below(t, p) && Owns({t}, t, p)
    ensures var i, e := OneFile(t, p, file, map[], map[]), Effects({p}, {p}, {});
            var c, cfg := FAILED_DEPLOYMENT, ROLLBACK_CONFIG;
            && Valid(i) && Wired(i, cfg, c, e, Start(i), t) && D.FinalOf(cfg, c) == D.RolledBack
            && p !in i.l.stack && Lookup(AfterStack(Start(i), ArchiveFor(i), cfg, c, e, t).stack, p) ==
                 Some(Written(file))
  {
    hide IsControl, Owns, ArchiveFor, Start, Valid, Seen, RollbackAt, OwnedRecords;
    var i, e := OneFile(t, p, file, map[], map[]), Effects({p}, {p}, {});
    var c, cfg := FAILED_DEPLOYMENT, ROLLBACK_CONFIG;
    OneFileIsValid(t, p, file, map[], map[]);
    OneFileIsRecorded(t, p, file, map[], map[]);
    StartOfOne(t, p, file, map[], map[]);
    var provisioned := AfterProvisioning(Start(i), e);
    assert p in e.removed;
    assert provisioned.stack == map[];
    assert !Under(e.removed, t);
    assert At(i, Spot(New, false), Start(i), p);
    ProvisioningStep(i, Spot(New, false), Start(i), e, p);
    RollbackOfRecorded(i, Spot(Off, false), provisioned, p);
    assert FilesAllowed(provisioned, ArchiveFor(i), t);
    NothingPlayedBack(i, provisioned, t, p);
    StackStep(i, Spot(New, false), Start(i), cfg, c, e, t, p);
  }

  lemma NothingPlayedBack(i: Imported, link: Link, t: Path, p: Path)
    requires OwnedRecords(ArchiveFor(i), t) == {p} && RollbackAt(ArchiveFor(i), link.stack, p) == Noop
              && link.stack == map[]
    ensures RolledBack(link, ArchiveFor(i), t).stack == map[]
  {
    hide ArchiveFor, RollbackAt, RolledBackBase, OwnedRecords;
    assert ToReplay(ArchiveFor(i), link.stack, {p}) == {};
  }

  /** A commit changes p and its manifest removes p: the rollback is refused, although the stack owns a record and
      nobody touched the files. */
  lemma RemovedEarlierFileIsRefused(t: Path, p: Path, file: File, earlier: File)
    requires file.readable && earlier.readable && earlier.sha != file.sha
    requires !IsControl(p) && t != p && !Below(t, p) && Owns({t}, t, p)
    ensures var i, e := OneFile(t, p, file, map[p := earlier], map[p := earlier.sha]), Effects({p}, {p}, {});
            && Valid(i) && OwnedRecords(ArchiveFor(i), t) == {p}
            && FilesAllowed(Start(i), ArchiveFor(i), t)
            && !FilesAllowed(AfterProvisioning(Start(i), e), ArchiveFor(i), t)
  {
    hide IsControl, Owns, ArchiveFor, Start, Valid, Seen, RollbackAt, OwnedRecords;
    var i, e := OneFile(t, p, file, map[p := earlier], map[p := earlier.sha]), Effects({p}, {p}, {});
    OneFileIsValid(t, p, file, map[p := earlier], map[p := earlier.sha]);
    OneFileIsRecorded(t, p, file, map[p := earlier], map[p := earlier.sha]);
    assert p in e.removed;
    assert At(i, Spot(New, false), Start(i), p);
    RollbackOfRecorded(i, Spot(New, false), Start(i), p);
    ProvisioningStep(i, Spot(New, false), Start(i), e, p);
    RollbackOfRecorded(i, Spot(Off, false), AfterProvisioning(Start(i), e), p);
  }
}
