/** Three-way comparison of a source tree, a target tree and the recorded baseline. */
module Preview {
  import opened Common
  import opened Paths

  type Sha = string

  /** One inventoried path. `readable` is false for entries the inventory lists but
      will not open; `skipReason` then says why. The hash stands for the contents. */
  datatype File = File(sha: Sha, mode: nat, readable: bool, skipReason: string, directory: bool)

  type Tree = map<Path, File>
  type Baseline = map<Path, Sha>

  /** What can be read at the path. */
  function Contents(tree: Tree, p: Path): Option<Sha> {
    if p in tree && tree[p].readable then Some(tree[p].sha) else None
  }

  /** Import copies Git onto the stack, Export copies the stack onto Git. */
  datatype Direction = Import | Export

  datatype Status =
    | Add
    | Modify
    | Conflict
    | Skipped(reason: string)
    | DeletedLocally
    | DeletedOnGit
    | RemoveControl

  datatype Kind =
    | NoKind
    | NoBaseline
    | DestinationChanged
    | DestinationDeleted
    | DestinationDeletedSourceChanged
    | SourceDeletedDestinationChanged

  datatype Entry = Entry(path: Path, status: Status, kind: Kind, sourceSha: Sha, targetSha: Sha, directory: bool)

  datatype TransferPreview = TransferPreview(
    entries: seq<Entry>, changed: nat, conflicts: nat, same: nat,
    skipped: nat, preserved: nat, localDeletions: nat)

  // ----- blocked directories -----

  /** An unreadable destination the transfer must leave alone. */
  predicate Protected(f: File) {
    !f.readable && (f.skipReason == "permission" || f.skipReason == "large_directory")
  }

  predicate Blocks(target: Tree, d: Path) {
    d in target && target[d].directory && Protected(target[d])
  }

  /** The nearest blocking directory above p. */
  function Blocker(target: Tree, p: Path): (r: Option<Path>)
    ensures r.Some? ==> r.value in target
    decreases |p|
  {
    AncestorStep(Dir(p), p);
    if Dir(p) == "." || Dir(p) == "" then None
    else if Blocks(target, Dir(p)) then Some(Dir(p))
    else Blocker(target, Dir(p))
  }

  /** The climb finds a blocking ancestor whenever there is one, and the nearest one. */
  lemma {:induction false} BlockerIsNearest(target: Tree, p: Path)
    ensures var r := Blocker(target, p);
            if r.None? then forall d :: ProperAncestor(d, p) ==> !Blocks(target, d)
            else Blocks(target, r.value) && ProperAncestor(r.value, p)
                 && forall d :: ProperAncestor(d, p) && Blocks(target, d) ==> |d| <= |r.value|
    decreases |p|
  {
    forall d { AncestorStep(d, p); }
    AncestorStep(Dir(p), p);
    if Dir(p) != "." && Dir(p) != "" && !Blocks(target, Dir(p)) {
      BlockerIsNearest(target, Dir(p));
    }
  }

  method BlockedTargetDirectory(target: Tree, relative: Path) returns (r: Option<File>)
    ensures r.None? <==> Blocker(target, relative).None?
    ensures r.Some? ==> r.value == target[Blocker(target, relative).value]
  {
    var current := Dir(relative);
    AncestorStep(current, relative);
    ghost var below := relative;
    while current != "." && current != ""
      invariant current == Dir(below)
      invariant Blocker(target, relative) == Blocker(target, below)
      decreases |below|
    {
      AncestorStep(current, below);
      if current in target && target[current].directory && !target[current].readable
         && (target[current].skipReason == "permission" || target[current].skipReason == "large_directory") {
        return Some(target[current]);
      }
      below := current;
      current := Dir(current);
    }
    return None;
  }

  // ----- the verdict on one path -----

  datatype Verdict = Silent | Unchanged | Emit(entry: Entry)

  function Destination(dir: Direction, target: Tree, p: Path): Option<File> {
    if p in target then Some(target[p])
    else if dir.Import? && Blocker(target, p).Some? then Some(target[Blocker(target, p).value])
    else None
  }

  function ClassifySource(dir: Direction, src: File, dst: Option<File>, base: Option<Sha>, p: Path): Verdict {
    if IsControl(p) then
      if dir.Export? then Silent
      else if base == Some(src.sha) then Unchanged
      else Emit(Entry(p, if base.Some? then Modify else Add, NoKind, src.sha, "", false))
    else if !src.readable then
      Emit(Entry(p, Skipped(if src.skipReason == "" then "unavailable" else src.skipReason), NoKind, "", "",
                 src.directory))
    else if dst.Some? && Protected(dst.value) then
      Emit(Entry(p, Skipped(dst.value.skipReason), NoKind, src.sha, dst.value.sha, dst.value.directory))
    else if dst.Some? && dst.value.readable then
      if src.sha == dst.value.sha then Unchanged
      else if base.None? then Emit(Entry(p, Conflict, NoBaseline, src.sha, dst.value.sha, false))
      else if dst.value.sha != base.value then
        Emit(Entry(p, Conflict, DestinationChanged, src.sha, dst.value.sha, false))
      else Emit(Entry(p, Modify, NoKind, src.sha, dst.value.sha, false))
    else if dir.Import? && base.Some? then
      if base.value == src.sha then Emit(Entry(p, Add, DestinationDeleted, src.sha, "", false))
      else Emit(Entry(p, Conflict, DestinationDeletedSourceChanged, src.sha, "", false))
    else Emit(Entry(p, Add, NoKind, src.sha, "", false))
  }

  function ClassifyMissing(dir: Direction, dst: File, base: Sha, p: Path): Verdict {
    if dst.sha != base then Emit(Entry(p, Conflict, SourceDeletedDestinationChanged, "", dst.sha, false))
    else Emit(Entry(p, if dir.Import? then DeletedOnGit else DeletedLocally, NoKind, "", dst.sha, false))
  }

  function Tracked(baseline: Baseline, p: Path): Option<Sha> {
    if p in baseline then Some(baseline[p]) else None
  }

  function Classify(dir: Direction, source: Tree, target: Tree, baseline: Baseline, p: Path): (v: Verdict)
    ensures v.Emit? ==> v.entry.path == p
    ensures v.Emit? ==> p in source || p in target || p in baseline
  {
    if p in source then
      ClassifySource(dir, source[p], Destination(dir, target, p), Tracked(baseline, p), p)
    else if p in target && target[p].readable && !IsControl(p) && p in baseline then
      ClassifyMissing(dir, target[p], baseline[p], p)
    else if dir.Import? && p in baseline && IsControl(p) then
      Emit(Entry(p, RemoveControl, NoKind, "", "", false))
    else Silent
  }

  // ----- what the counters count -----

  predicate IsChange(v: Verdict) { v.Emit? && !v.entry.status.Skipped? }
  predicate IsConflict(v: Verdict) { v.Emit? && v.entry.status.Conflict? }
  predicate IsSkip(v: Verdict) { v.Emit? && v.entry.status.Skipped? }

  /** The path left the source tree since the baseline. */
  predicate LeftSource(v: Verdict) {
    v.Emit? && (v.entry.status in {DeletedOnGit, DeletedLocally} || v.entry.kind == SourceDeletedDestinationChanged)
  }

  /** A Git deletion kept locally. */
  predicate IsPreserved(dir: Direction, v: Verdict) { dir.Import? && LeftSource(v) }

  predicate IsLocalDeletion(dir: Direction, v: Verdict) {
    match dir
    case Import => v.Emit? && v.entry.kind in {DestinationDeleted, DestinationDeletedSourceChanged}
    case Export => LeftSource(v)
  }

  ghost function Changes(v: Path -> Verdict, within: set<Path>): set<Path> {
    set p | p in within && IsChange(v(p))
  }

  ghost function Conflicts(v: Path -> Verdict, within: set<Path>): set<Path> {
    set p | p in within && IsConflict(v(p))
  }

  ghost function Unchangeds(v: Path -> Verdict, within: set<Path>): set<Path> {
    set p | p in within && v(p).Unchanged?
  }

  ghost function Skips(v: Path -> Verdict, within: set<Path>): set<Path> {
    set p | p in within && IsSkip(v(p))
  }

  ghost function PreservedPaths(dir: Direction, v: Path -> Verdict, within: set<Path>): set<Path> {
    set p | p in within && IsPreserved(dir, v(p))
  }

  ghost function LocalDeletions(dir: Direction, v: Path -> Verdict, within: set<Path>): set<Path> {
    set p | p in within && IsLocalDeletion(dir, v(p))
  }

  ghost predicate Counted(pv: TransferPreview, dir: Direction, v: Path -> Verdict, within: set<Path>) {
    && pv.changed == |Changes(v, within)|
    && pv.conflicts == |Conflicts(v, within)|
    && pv.same == |Unchangeds(v, within)|
    && pv.skipped == |Skips(v, within)|
    && pv.preserved == |PreservedPaths(dir, v, within)|
    && pv.localDeletions == |LocalDeletions(dir, v, within)|
  }

  ghost predicate Listed(es: seq<Entry>, v: Path -> Verdict, within: set<Path>) {
    && (forall e :: e in es ==> e.path in within && v(e.path) == Emit(e))
    && (forall p :: p in within && v(p).Emit? ==> v(p).entry in es && v(p).entry.path == p)
    && DistinctPaths(es)
  }

  ghost predicate DistinctPaths(es: seq<Entry>) {
    forall i, j :: 0 <= i < j < |es| ==> es[i].path != es[j].path
  }

  ghost predicate Ascending(es: seq<Entry>) {
    forall i, j :: 0 <= i < j < |es| ==> Less(es[i].path, es[j].path)
  }

  ghost predicate Reported(pv: TransferPreview, dir: Direction, v: Path -> Verdict, within: set<Path>) {
    Listed(pv.entries, v, within) && Counted(pv, dir, v, within)
  }

  function One(c: bool): nat { if c then 1 else 0 }

  /** The report extended by one more verdict. */
  function Bump(pv: TransferPreview, dir: Direction, v: Verdict): TransferPreview {
    TransferPreview(
      if v.Emit? then pv.entries + [v.entry] else pv.entries,
      pv.changed + One(IsChange(v)), pv.conflicts + One(IsConflict(v)), pv.same + One(v.Unchanged?),
      pv.skipped + One(IsSkip(v)), pv.preserved + One(IsPreserved(dir, v)),
      pv.localDeletions + One(IsLocalDeletion(dir, v)))
  }

  /** One more element, or none. */
  lemma CardinalityStep(small: set<Path>, big: set<Path>, p: Path, c: bool)
    requires p !in small
    requires big == if c then small + {p} else small
    ensures |big| == |small| + One(c)
  {
  }

  lemma ChangesStep(v: Path -> Verdict, within: set<Path>, p: Path)
    requires p !in within
    ensures |Changes(v, within + {p})| == |Changes(v, within)| + One(IsChange(v(p)))
  {
    CardinalityStep(Changes(v, within), Changes(v, within + {p}), p, IsChange(v(p)));
  }

  lemma ConflictsStep(v: Path -> Verdict, within: set<Path>, p: Path)
    requires p !in within
    ensures |Conflicts(v, within + {p})| == |Conflicts(v, within)| + One(IsConflict(v(p)))
  {
    CardinalityStep(Conflicts(v, within), Conflicts(v, within + {p}), p, IsConflict(v(p)));
  }

  lemma UnchangedsStep(v: Path -> Verdict, within: set<Path>, p: Path)
    requires p !in within
    ensures |Unchangeds(v, within + {p})| == |Unchangeds(v, within)| + One(v(p).Unchanged?)
  {
    CardinalityStep(Unchangeds(v, within), Unchangeds(v, within + {p}), p, v(p).Unchanged?);
  }

  lemma SkipsStep(v: Path -> Verdict, within: set<Path>, p: Path)
    requires p !in within
    ensures |Skips(v, within + {p})| == |Skips(v, within)| + One(IsSkip(v(p)))
  {
    CardinalityStep(Skips(v, within), Skips(v, within + {p}), p, IsSkip(v(p)));
  }

  lemma PreservedPathsStep(dir: Direction, v: Path -> Verdict, within: set<Path>, p: Path)
    requires p !in within
    ensures |PreservedPaths(dir, v, within + {p})| == |PreservedPaths(dir, v, within)| + One(IsPreserved(dir, v(p)))
  {
    CardinalityStep(PreservedPaths(dir, v, within), PreservedPaths(dir, v, within + {p}), p, IsPreserved(dir, v(p)));
  }

  lemma LocalDeletionsStep(dir: Direction, v: Path -> Verdict, within: set<Path>, p: Path)
    requires p !in within
    ensures |LocalDeletions(dir, v, within + {p})| == |LocalDeletions(dir, v, within)| + One(IsLocalDeletion(dir, v(p)))
  {
    CardinalityStep(LocalDeletions(dir, v, within), LocalDeletions(dir, v, within + {p}), p,
                    IsLocalDeletion(dir, v(p)));
  }

  lemma CountStep(pv: TransferPreview, dir: Direction, v: Path -> Verdict, within: set<Path>, p: Path)
    requires Counted(pv, dir, v, within) && p !in within
    ensures Counted(Bump(pv, dir, v(p)), dir, v, within + {p})
  {
    ChangesStep(v, within, p);
    ConflictsStep(v, within, p);
    UnchangedsStep(v, within, p);
    SkipsStep(v, within, p);
    PreservedPathsStep(dir, v, within, p);
    LocalDeletionsStep(dir, v, within, p);
  }

  lemma ListStep(pv: TransferPreview, dir: Direction, v: Path -> Verdict, within: set<Path>, p: Path)
    requires Listed(pv.entries, v, within) && p !in within
    requires v(p).Emit? ==> v(p).entry.path == p
    ensures Listed(Bump(pv, dir, v(p)).entries, v, within + {p})
  {
  }

  lemma ReportStep(pv: TransferPreview, dir: Direction, v: Path -> Verdict, within: set<Path>, p: Path)
    requires Reported(pv, dir, v, within) && p !in within
    requires v(p).Emit? ==> v(p).entry.path == p
    ensures Reported(Bump(pv, dir, v(p)), dir, v, within + {p})
  {
    hide Counted, Listed, Bump;
    CountStep(pv, dir, v, within, p);
    ListStep(pv, dir, v, within, p);
  }

  /** Paths that are never visited are silent, so widening the range changes nothing. */
  lemma WidenSilently(pv: TransferPreview, dir: Direction, v: Path -> Verdict, within: set<Path>, wide: set<Path>)
    requires within <= wide && Reported(pv, dir, v, within)
    requires forall p :: p in wide - within ==> v(p).Silent?
    ensures Reported(pv, dir, v, wide)
  {
    assert Changes(v, within) == Changes(v, wide);
    assert Conflicts(v, within) == Conflicts(v, wide);
    assert Unchangeds(v, within) == Unchangeds(v, wide);
    assert Skips(v, within) == Skips(v, wide);
    assert PreservedPaths(dir, v, within) == PreservedPaths(dir, v, wide);
    assert LocalDeletions(dir, v, within) == LocalDeletions(dir, v, wide);
  }

  ghost function Verdicts(dir: Direction, s: Tree, t: Tree, b: Baseline): Path -> Verdict {
    p => Classify(dir, s, t, b, p)
  }

  /** Every path a preview can mention. */
  function Universe(s: Tree, t: Tree, b: Baseline): set<Path> {
    s.Keys + t.Keys + b.Keys
  }

  /** The full meaning of a preview: each verdict that emits is listed once, in path order,
      and every counter is the number of paths it names. */
  ghost predicate IsPreview(pv: TransferPreview, dir: Direction, s: Tree, t: Tree, b: Baseline) {
    && Reported(pv, dir, Verdicts(dir, s, t, b), Universe(s, t, b))
    && Ascending(pv.entries)
  }

  // ----- construction -----

  method SortEntries(es: seq<Entry>) returns (r: seq<Entry>)
    requires DistinctPaths(es)
    ensures Ascending(r)
    ensures forall e :: e in r <==> e in es
  {
    r := [];
    var n := 0;
    while n < |es|
      invariant 0 <= n <= |es|
      invariant Ascending(r)
      invariant forall e :: e in r <==> e in es[..n]
    {
      var k := 0;
      while k < |r| && Less(r[k].path, es[n].path)
        invariant 0 <= k <= |r|
        invariant forall i :: 0 <= i < k ==> Less(r[i].path, es[n].path)
      {
        k := k + 1;
      }
      InsertKeepsAscending(r, k, es[n]) by {
        if k < |r| {
          assert r[k] in es[..n];
          LessIsTotal(r[k].path, es[n].path);
        }
      }
      assert es[..n + 1] == es[..n] + [es[n]];
      r := r[..k] + [es[n]] + r[k..];
      n := n + 1;
    }
    assert es[..n] == es;
  }

  lemma InsertKeepsAscending(r: seq<Entry>, k: nat, e: Entry)
    requires Ascending(r) && k <= |r|
    requires forall i :: 0 <= i < k ==> Less(r[i].path, e.path)
    requires k < |r| ==> Less(e.path, r[k].path)
    ensures Ascending(r[..k] + [e] + r[k..])
    ensures forall x :: x in r[..k] + [e] + r[k..] <==> x in r || x == e
  {
    forall j | k < j < |r| ensures Less(e.path, r[j].path) {
      LessIsTransitive(e.path, r[k].path, r[j].path);
    }
    assert r == r[..k] + r[k..];
  }

  lemma AscendingIsDistinct(es: seq<Entry>)
    requires Ascending(es)
    ensures DistinctPaths(es)
  {
    forall i, j | 0 <= i < j < |es| ensures es[i].path != es[j].path {
      LessIsIrreflexive(es[i].path);
    }
  }

  lemma VerdictNamesItsPath(dir: Direction, s: Tree, t: Tree, b: Baseline, p: Path)
    ensures var v := Verdicts(dir, s, t, b)(p); v.Emit? ==> v.entry.path == p
  {
  }

  /** First loop: every path of the source. */
  method ScanSource(dir: Direction, source: Tree, target: Tree, baseline: Baseline) returns (pv: TransferPreview)
    ensures Reported(pv, dir, Verdicts(dir, source, target, baseline), source.Keys)
  {
    hide Reported, Verdicts, Bump;
    ghost var v := Verdicts(dir, source, target, baseline);
    pv := TransferPreview([], 0, 0, 0, 0, 0, 0);
    EmptyReport(dir, v);
    var todo := source.Keys;
    ghost var seen: set<Path> := {};
    while todo != {}
      invariant todo + seen == source.Keys && todo !! seen
      invariant Reported(pv, dir, v, seen)
    {
      var path :| path in todo;
      todo := todo - {path};
      VerdictNamesItsPath(dir, source, target, baseline, path);
      ReportStep(pv, dir, v, seen, path);
      pv := ScanOne(pv, dir, source, target, baseline, path);
      seen := seen + {path};
    }
    assert seen == source.Keys;
  }

  lemma EmptyReport(dir: Direction, v: Path -> Verdict)
    ensures Reported(TransferPreview([], 0, 0, 0, 0, 0, 0), dir, v, {})
  {
  }

  /** One turn of the first loop. */
  method ScanOne(pv: TransferPreview, dir: Direction, source: Tree, target: Tree, baseline: Baseline, path: Path)
    returns (r: TransferPreview)
    requires path in source
    ensures r == Bump(pv, dir, Verdicts(dir, source, target, baseline)(path))
  {
    hide IsControl, Blocker;
    r := pv;
    var src := source[path];
    if IsControl(path) {
      if dir.Export? { return; }
      var control := Entry(path, Add, NoKind, src.sha, "", false);
      if path in baseline {
        if baseline[path] == src.sha {
          r := r.(same := r.same + 1);
          return;
        }
        control := control.(status := Modify);
      }
      r := r.(entries := r.entries + [control], changed := r.changed + 1);
      return;
    }
    if !src.readable {
      var reason := src.skipReason;
      if reason == "" { reason := "unavailable"; }
      r := r.(entries := r.entries + [Entry(path, Skipped(reason), NoKind, "", "", src.directory)],
              skipped := r.skipped + 1);
      return;
    }
    var dst: Option<File> := if path in target then Some(target[path]) else None;
    if dst.None? && dir.Import? {
      dst := BlockedTargetDirectory(target, path);
    }
    r := CompareReadable(r, dir, src, dst, baseline, path);
  }

  /** The end of that turn: a readable source file against its destination and the baseline. */
  method CompareReadable(pv: TransferPreview, dir: Direction, src: File, dst: Option<File>, baseline: Baseline,
                         path: Path)
    returns (r: TransferPreview)
    requires !IsControl(path) && src.readable
    ensures r == Bump(pv, dir, ClassifySource(dir, src, dst, Tracked(baseline, path), path))
  {
    hide IsControl;
    r := pv;
    var entry := Entry(path, Add, NoKind, src.sha, "", false);
    if dst.Some? && !dst.value.readable
         && (dst.value.skipReason == "permission" || dst.value.skipReason == "large_directory") {
      entry := entry.(status := Skipped(dst.value.skipReason), targetSha := dst.value.sha,
                      directory := dst.value.directory);
      r := r.(entries := r.entries + [entry], skipped := r.skipped + 1);
      return;
    }
    if dst.Some? && dst.value.readable {
      entry := entry.(targetSha := dst.value.sha);
      if entry.sourceSha == entry.targetSha {
        r := r.(same := r.same + 1);
        return;
      }
      entry := entry.(status := Modify);
      if path !in baseline {
        entry := entry.(status := Conflict, kind := NoBaseline);
        r := r.(conflicts := r.conflicts + 1);
      } else if dst.value.sha != baseline[path] && src.sha != dst.value.sha {
        entry := entry.(status := Conflict, kind := DestinationChanged);
        r := r.(conflicts := r.conflicts + 1);
      }
    } else if dir.Import? {
      if path in baseline {
        if baseline[path] == src.sha {
          entry := entry.(kind := DestinationDeleted);
          r := r.(localDeletions := r.localDeletions + 1);
        } else {
          entry := entry.(status := Conflict, kind := DestinationDeletedSourceChanged);
          r := r.(conflicts := r.conflicts + 1, localDeletions := r.localDeletions + 1);
        }
      }
    }
    r := r.(entries := r.entries + [entry], changed := r.changed + 1);
  }

  /** The paths the first two loops report on, and those all three report on. */
  ghost function SeenFiles(source: Tree, target: Tree): set<Path> {
    set p | p in source.Keys + target.Keys && (p in source || !IsControl(p))
  }

  ghost function SeenPaths(source: Tree, target: Tree, baseline: Baseline): set<Path> {
    SeenFiles(source, target) + set p | p in baseline && IsControl(p)
  }

  /** Second loop: tracked files of the target that left the source. */
  method ScanMissing(start: TransferPreview, dir: Direction, source: Tree, target: Tree, baseline: Baseline)
    returns (pv: TransferPreview)
    requires Reported(start, dir, Verdicts(dir, source, target, baseline), source.Keys)
    ensures Reported(pv, dir, Verdicts(dir, source, target, baseline), SeenFiles(source, target))
  {
    hide Reported, Verdicts, Bump, IsControl;
    ghost var v := Verdicts(dir, source, target, baseline);
    pv := start;
    ghost var seen := source.Keys;
    var todo := target.Keys;
    while todo != {}
      invariant todo <= target.Keys
      invariant forall p :: p in seen <==> p in source || (p in target && p !in todo && !IsControl(p))
      invariant Reported(pv, dir, v, seen)
    {
      var path :| path in todo;
      todo := todo - {path};
      if path in source || IsControl(path) { continue; }
      VerdictNamesItsPath(dir, source, target, baseline, path);
      ReportStep(pv, dir, v, seen, path);
      pv := ScanLeft(pv, dir, source, target, baseline, path);
      seen := seen + {path};
    }
    assert seen == SeenFiles(source, target);
  }

  /** One turn of the second loop. */
  method ScanLeft(pv: TransferPreview, dir: Direction, source: Tree, target: Tree, baseline: Baseline, path: Path)
    returns (r: TransferPreview)
    requires path in target && path !in source && !IsControl(path)
    ensures r == Bump(pv, dir, Verdicts(dir, source, target, baseline)(path))
  {
    r := pv;
    var dst := target[path];
    if !dst.readable { return; }
    if path !in baseline { return; }
    var entry := Entry(path, if dir.Import? then DeletedOnGit else DeletedLocally, NoKind, "", dst.sha, false);
    if dst.sha != baseline[path] {
      entry := entry.(status := Conflict, kind := SourceDeletedDestinationChanged);
      r := r.(conflicts := r.conflicts + 1);
    }
    r := r.(entries := r.entries + [entry], changed := r.changed + 1);
    if dir.Import? {
      r := r.(preserved := r.preserved + 1);
    } else {
      r := r.(localDeletions := r.localDeletions + 1);
    }
  }

  /** Third loop, import only: control manifests that left Git. */
  method ScanControls(start: TransferPreview, source: Tree, target: Tree, baseline: Baseline)
    returns (pv: TransferPreview)
    requires Reported(start, Import, Verdicts(Import, source, target, baseline), SeenFiles(source, target))
    ensures Reported(pv, Import, Verdicts(Import, source, target, baseline), SeenPaths(source, target, baseline))
  {
    hide Reported, Verdicts, Bump, IsControl;
    ghost var v := Verdicts(Import, source, target, baseline);
    pv := start;
    ghost var before := SeenFiles(source, target);
    ghost var seen := before;
    var todo := baseline.Keys;
    while todo != {}
      invariant todo <= baseline.Keys
      invariant forall p :: p in seen <==> p in before || (p in baseline && p !in todo && IsControl(p))
      invariant Reported(pv, Import, v, seen)
    {
      var path :| path in todo;
      todo := todo - {path};
      if !IsControl(path) || path in source { continue; }
      VerdictNamesItsPath(Import, source, target, baseline, path);
      ReportStep(pv, Import, v, seen, path);
      RemovedControl(pv, source, target, baseline, path);
      pv := pv.(entries := pv.entries + [Entry(path, RemoveControl, NoKind, "", "", false)], changed := pv.changed + 1);
      seen := seen + {path};
    }
    assert seen == SeenPaths(source, target, baseline);
  }

  lemma RemovedControl(pv: TransferPreview, source: Tree, target: Tree, baseline: Baseline, p: Path)
    requires IsControl(p) && p !in source && p in baseline
    ensures Bump(pv, Import, Verdicts(Import, source, target, baseline)(p)) ==
            pv.(entries := pv.entries + [Entry(p, RemoveControl, NoKind, "", "", false)], changed := pv.changed + 1)
  {
  }

  /** Paths none of the loops reports are silent. */
  lemma UnseenIsSilent(dir: Direction, source: Tree, target: Tree, baseline: Baseline, p: Path)
    requires p !in source && (p in target ==> IsControl(p))
    requires dir.Import? && p in baseline ==> !IsControl(p)
    ensures Verdicts(dir, source, target, baseline)(p).Silent?
  {
  }

  method BuildPreview(dir: Direction, source: Tree, target: Tree, baseline: Baseline) returns (pv: TransferPreview)
    ensures IsPreview(pv, dir, source, target, baseline)
  {
    hide Verdicts, IsControl, Counted;
    pv := ScanSource(dir, source, target, baseline);
    pv := ScanMissing(pv, dir, source, target, baseline);
    if dir.Import? {
      pv := ScanControls(pv, source, target, baseline);
    }
    ghost var seen := if dir.Import? then SeenPaths(source, target, baseline) else SeenFiles(source, target);
    forall p | p in Universe(source, target, baseline) - seen
      ensures Verdicts(dir, source, target, baseline)(p).Silent?
    {
      UnseenIsSilent(dir, source, target, baseline, p);
    }
    WidenSilently(pv, dir, Verdicts(dir, source, target, baseline), seen, Universe(source, target, baseline));
    var sorted := SortEntries(pv.entries);
    SameReport(pv, sorted, dir, Verdicts(dir, source, target, baseline), Universe(source, target, baseline));
    pv := pv.(entries := sorted);
  }

  /** Reordering the entries keeps the report. */
  lemma SameReport(pv: TransferPreview, sorted: seq<Entry>, dir: Direction, v: Path -> Verdict, within: set<Path>)
    requires Reported(pv, dir, v, within) && Ascending(sorted)
    requires forall e :: e in sorted <==> e in pv.entries
    ensures Reported(pv.(entries := sorted), dir, v, within)
  {
    AscendingIsDistinct(sorted);
  }

  // ----- determinism -----

  lemma HasMember(es: seq<Entry>)
    requires es != []
    ensures exists e :: e in es
  {
    assert es[0] in es;
  }

  lemma HeadIsLeast(es: seq<Entry>, e: Entry)
    requires Ascending(es) && e in es
    ensures e == es[0] || Less(es[0].path, e.path)
  {
  }

  lemma TailMembers(es: seq<Entry>)
    requires es != [] && DistinctPaths(es)
    ensures forall e :: e in es[1..] <==> e in es && e != es[0]
  {
    forall e | e in es && e != es[0] ensures e in es[1..] {
      var i :| 0 <= i < |es| && es[i] == e;
      assert es[1..][i - 1] == e;
    }
  }

  lemma {:induction false} AscendingIsUnique(es: seq<Entry>, fs: seq<Entry>)
    requires Ascending(es) && Ascending(fs)
    requires forall e :: e in es <==> e in fs
    ensures es == fs
  {
    if es == [] {
      if fs != [] { HasMember(fs); }
    } else {
      HasMember(es);
      assert es[0] in fs && (fs != [] ==> fs[0] in es);
      HeadIsLeast(es, fs[0]);
      HeadIsLeast(fs, es[0]);
      if es[0] != fs[0] {
        LessIsTransitive(es[0].path, fs[0].path, es[0].path);
        LessIsIrreflexive(es[0].path);
      }
      AscendingIsDistinct(es);
      AscendingIsDistinct(fs);
      TailMembers(es);
      TailMembers(fs);
      AscendingIsUnique(es[1..], fs[1..]);
    }
  }

  /** Maps are walked in no particular order, yet the preview is one value. */
  lemma PreviewIsDeterministic(a: TransferPreview, b: TransferPreview, dir: Direction, s: Tree, t: Tree, base: Baseline)
    requires IsPreview(a, dir, s, t, base) && IsPreview(b, dir, s, t, base)
    ensures a == b
  {
    forall e ensures e in a.entries <==> e in b.entries {
    }
    AscendingIsUnique(a.entries, b.entries);
  }

  /** The tally read off the entries: everything listed is either a change or skipped,
      and a preview that counts no change has no conflict either. */
  lemma ChangedCoversConflicts(pv: TransferPreview, dir: Direction, v: Path -> Verdict, within: set<Path>)
    requires Reported(pv, dir, v, within)
    requires forall p :: v(p).Emit? && v(p).entry.kind != NoKind ==> !v(p).entry.status.Skipped?
    ensures pv.conflicts <= pv.changed && pv.preserved <= pv.changed && pv.localDeletions <= pv.changed
    ensures pv.changed == 0 <==> forall e :: e in pv.entries ==> e.status.Skipped?
  {
    SubsetSize(Conflicts(v, within), Changes(v, within));
    SubsetSize(PreservedPaths(dir, v, within), Changes(v, within));
    SubsetSize(LocalDeletions(dir, v, within), Changes(v, within));
    if pv.changed != 0 {
      var p :| p in Changes(v, within);
      assert v(p).entry in pv.entries;
    } else {
      assert forall e :: e in pv.entries && !e.status.Skipped? ==> e.path in Changes(v, within);
    }
  }
}
