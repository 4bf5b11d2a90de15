/** From a confirmed preview to the files that are written, and the baseline that follows. */
module Transfer {
  import opened Common
  import opened Paths
  import opened Preview
  import opened Catalogue

  const MAX_BINDING_FILES := 20_000

  // ----- selection -----

  datatype SelectionError = TooManyPaths | NotAConflict | NotTransferable | ResolvedButNotSelected

  datatype SelectionResult =
    | Selected(files: Tree, remaining: int)
    | Refused(error: SelectionError)

  /** Stands for a file that is to disappear. */
  const GONE := File("", 0, false, "", false)

  predicate IsTransferable(v: Verdict) {
    v.Emit? && (v.entry.status in {Add, Modify, Conflict, RemoveControl})
  }

  /** The decision on one verdict: plain changes pass, conflicts only when resolved,
      and nothing outside an explicit selection. */
  predicate Approved(v: Verdict, source: Tree, resolved: set<Path>, chosen: set<Path>) {
    && IsTransferable(v)
    && (chosen != {} ==> v.entry.path in chosen)
    && (v.entry.status.Conflict? ==> v.entry.path in resolved)
    && (v.entry.status.RemoveControl? || (v.entry.path in source && source[v.entry.path].readable))
  }

  function Payload(v: Verdict, source: Tree): File
    requires v.Emit?
    requires !v.entry.status.RemoveControl? ==> v.entry.path in source
  {
    if v.entry.status.RemoveControl? then GONE else source[v.entry.path]
  }

  ghost function Selection(v: Path -> Verdict, within: set<Path>, source: Tree, resolved: set<Path>,
                           chosen: set<Path>): Tree {
    map p | p in within && Approved(v(p), source, resolved, chosen) :: Payload(v(p), source)
  }

  ghost predicate AllConflicts(v: Path -> Verdict, within: set<Path>, ps: set<Path>) {
    forall p :: p in ps ==> p in within && IsConflict(v(p))
  }

  ghost predicate AllTransferable(v: Path -> Verdict, within: set<Path>, ps: set<Path>) {
    forall p :: p in ps ==> p in within && IsTransferable(v(p))
  }

  /** The answer to a request, with the reason why a request is refused. */
  ghost function SelectionOf(v: Path -> Verdict, within: set<Path>, source: Tree, resolvedPaths: seq<Path>,
                             selectedPaths: seq<Path>): SelectionResult {
    var resolved, chosen := Members(resolvedPaths), Members(selectedPaths);
    if |resolvedPaths| > MAX_BINDING_FILES || |selectedPaths| > MAX_BINDING_FILES then Refused(TooManyPaths)
    else if !AllConflicts(v, within, resolved) then Refused(NotAConflict)
    else if !AllTransferable(v, within, chosen) then Refused(NotTransferable)
    else if selectedPaths != [] && !(resolved <= chosen) then Refused(ResolvedButNotSelected)
    else Selected(Selection(v, within, source, resolved, chosen), |Conflicts(v, within)| - |resolved|)
  }

  /** The two sets the selection checks its input against. */
  method CollectCandidates(pv: TransferPreview, ghost v: Path -> Verdict, ghost within: set<Path>)
    returns (conflicts: set<Path>, transferable: set<Path>)
    requires Listed(pv.entries, v, within)
    ensures conflicts == Conflicts(v, within)
    ensures transferable == set p | p in within && IsTransferable(v(p))
  {
    conflicts, transferable := {}, {};
    var n := 0;
    while n < |pv.entries|
      invariant 0 <= n <= |pv.entries|
      invariant conflicts == set e | e in pv.entries[..n] && e.status.Conflict? :: e.path
      invariant transferable == set e | e in pv.entries[..n]
                && e.status in {Add, Modify, Conflict, RemoveControl} :: e.path
    {
      var entry := pv.entries[n];
      assert pv.entries[..n + 1] == pv.entries[..n] + [entry];
      if entry.status in {Add, Modify, Conflict, RemoveControl} {
        transferable := transferable + {entry.path};
      }
      if entry.status.Conflict? {
        conflicts := conflicts + {entry.path};
      }
      n := n + 1;
    }
    assert pv.entries[..n] == pv.entries;
    forall p ensures p in conflicts <==> p in Conflicts(v, within) {
      if p in Conflicts(v, within) { assert v(p).entry in pv.entries; }
    }
    forall p ensures p in transferable <==> p in within && IsTransferable(v(p)) {
      if p in within && IsTransferable(v(p)) { assert v(p).entry in pv.entries; }
    }
  }

  method SelectTransferFiles(pv: TransferPreview, source: Tree, resolvedPaths: seq<Path>, selectedPaths: seq<Path>,
                             ghost v: Path -> Verdict, ghost within: set<Path>)
    returns (r: SelectionResult)
    requires Listed(pv.entries, v, within)
    ensures r == SelectionOf(v, within, source, resolvedPaths, selectedPaths)
  {
    if |resolvedPaths| > MAX_BINDING_FILES || |selectedPaths| > MAX_BINDING_FILES {
      return Refused(TooManyPaths);
    }
    var conflicts, transferable := CollectCandidates(pv, v, within);
    var resolved: set<Path>, ok: bool;
    ok, resolved := GatherWithin(resolvedPaths, conflicts);
    if !ok { return Refused(NotAConflict); }
    var chosen: set<Path>;
    ok, chosen := GatherWithin(selectedPaths, transferable);
    if !ok { return Refused(NotTransferable); }
    if |selectedPaths| > 0 && !(resolved <= chosen) {
      return Refused(ResolvedButNotSelected);
    }
    assert selectedPaths != [] <==> chosen != {} by {
      if selectedPaths != [] { assert selectedPaths[0] in chosen; }
    }
    var files := Assemble(pv, source, resolved, chosen, v, within);
    r := Selected(files, |conflicts| - |resolved|);
  }

  /** Reads a list into a set, refusing a member outside the allowed paths. */
  method GatherWithin(paths: seq<Path>, allowed: set<Path>) returns (ok: bool, gathered: set<Path>)
    ensures ok <==> Members(paths) <= allowed
    ensures ok ==> gathered == Members(paths)
  {
    gathered := {};
    var n := 0;
    while n < |paths|
      invariant 0 <= n <= |paths|
      invariant gathered == Members(paths[..n]) && gathered <= allowed
    {
      if paths[n] !in allowed {
        assert paths[n] in Members(paths);
        return false, gathered;
      }
      assert paths[..n + 1] == paths[..n] + [paths[n]];
      gathered := gathered + {paths[n]};
      n := n + 1;
    }
    assert paths[..n] == paths;
    ok := true;
  }

  /** Last loop of the selection. */
  method Assemble(pv: TransferPreview, source: Tree, resolved: set<Path>, chosen: set<Path>,
                  ghost v: Path -> Verdict, ghost within: set<Path>)
    returns (files: Tree)
    requires Listed(pv.entries, v, within)
    ensures files == Selection(v, within, source, resolved, chosen)
  {
    files := map[];
    var n := 0;
    while n < |pv.entries|
      invariant 0 <= n <= |pv.entries|
      invariant forall p :: p in files <==>
                  exists i :: 0 <= i < n && pv.entries[i].path == p
                       && Approved(Emit(pv.entries[i]), source, resolved, chosen)
      invariant forall i :: 0 <= i < n && Approved(Emit(pv.entries[i]), source, resolved, chosen) ==>
                  pv.entries[i].path in files && files[pv.entries[i].path] == Payload(Emit(pv.entries[i]), source)
    {
      var entry := pv.entries[n];
      n := n + 1;
      if chosen != {} && entry.path !in chosen { continue; }
      if entry.status != Add && entry.status != Modify && entry.status != RemoveControl {
        if entry.status != Conflict { continue; }
        if entry.path !in resolved { continue; }
      }
      if entry.status == RemoveControl {
        files := files[entry.path := GONE];
      } else if entry.path in source && source[entry.path].readable {
        files := files[entry.path := source[entry.path]];
      }
    }
    ghost var want := Selection(v, within, source, resolved, chosen);
    forall p ensures p in files <==> p in want {
      if p in want {
        assert v(p).entry in pv.entries;
        var i :| 0 <= i < |pv.entries| && pv.entries[i] == v(p).entry;
      }
    }
    forall p | p in files ensures files[p] == want[p] {
      var i :| 0 <= i < n && pv.entries[i].path == p && Approved(Emit(pv.entries[i]), source, resolved, chosen);
      assert pv.entries[i] in pv.entries;
    }
  }

  // ----- stacks held back by an open decision -----

  /** A verdict that only a person may settle. */
  predicate NeedsDecision(v: Verdict) {
    v.Emit? && !v.entry.directory
         && (v.entry.status in {Conflict, DeletedLocally} || v.entry.kind == DestinationDeleted)
  }

  ghost predicate HeldBack(v: Path -> Verdict, within: set<Path>, catalogue: set<Path>, compose: Path) {
    exists p :: p in within && NeedsDecision(v(p)) && Owns(catalogue, compose, p)
  }

  method HeldBackStacks(pv: TransferPreview, catalogue: seq<Path>, ghost v: Path -> Verdict, ghost within: set<Path>)
    returns (held: set<Path>)
    requires Listed(pv.entries, v, within)
    ensures forall c :: c in held <==> HeldBack(v, within, Members(catalogue), c)
  {
    hide Owns;
    held := {};
    var n := 0;
    while n < |pv.entries|
      invariant 0 <= n <= |pv.entries|
      invariant forall c :: c in held <==>
                  exists i :: 0 <= i < n && NeedsDecision(Emit(pv.entries[i]))
                       && Owns(Members(catalogue), c, pv.entries[i].path)
    {
      var entry := pv.entries[n];
      n := n + 1;
      if entry.directory { continue; }
      if entry.status != Conflict && entry.status != DeletedLocally && entry.kind != DestinationDeleted { continue; }
      var owners := ComposePathsForFile(catalogue, entry.path);
      held := held + Members(owners);
    }
    forall c ensures c in held <==> HeldBack(v, within, Members(catalogue), c) {
      if p :| p in within && NeedsDecision(v(p)) && Owns(Members(catalogue), c, p) {
        assert v(p).entry in pv.entries;
        var i :| 0 <= i < |pv.entries| && pv.entries[i] == v(p).entry;
      }
      if i :| 0 <= i < n && NeedsDecision(Emit(pv.entries[i])) && Owns(Members(catalogue), c, pv.entries[i].path) {
        assert pv.entries[i] in pv.entries;
      }
    }
  }

  ghost predicate OwnedByAny(catalogue: set<Path>, stacks: set<Path>, p: Path) {
    exists c :: c in stacks && Owns(catalogue, c, p)
  }

  ghost function Without(selected: Tree, catalogue: set<Path>, stacks: set<Path>): Tree {
    map p | p in selected && !OwnedByAny(catalogue, stacks, p) :: selected[p]
  }

  method ExcludeHeldBackStacks(selected: Tree, catalogue: seq<Path>, heldBack: set<Path>)
    returns (filtered: Tree, blocked: set<Path>)
    ensures filtered == Without(selected, Members(catalogue), heldBack)
    ensures forall c :: c in blocked <==> c in heldBack && exists p :: p in selected && Owns(Members(catalogue), c, p)
  {
    hide Owns;
    filtered, blocked := map[], {};
    var todo := selected.Keys;
    while todo != {}
      invariant todo <= selected.Keys
      invariant filtered == map p | p in selected && p !in todo
                && !OwnedByAny(Members(catalogue), heldBack, p) :: selected[p]
      invariant forall c :: c in blocked <==>
                  c in heldBack && exists p :: p in selected && p !in todo && Owns(Members(catalogue), c, p)
    {
      var path :| path in todo;
      todo := todo - {path};
      var owners := ComposePathsForFile(catalogue, path);
      var holders := Members(owners) * heldBack;
      blocked := blocked + holders;
      if holders == {} {
        filtered := filtered[path := selected[path]];
      } else {
        var c :| c in holders;
        assert OwnedByAny(Members(catalogue), heldBack, path);
      }
    }
  }

  // ----- baseline -----

  /** What the baseline records for p after a transfer. */
  function NextBase(current: Baseline, source: Tree, target: Tree, selected: Tree, p: Path): Option<Sha> {
    if p in source && source[p].readable && source[p].sha != ""
       && (p in selected || (p in target && target[p].readable && target[p].sha == source[p].sha)) then
      Some(source[p].sha)
    else if p in selected && IsControl(p) && !selected[p].readable then None
    else Tracked(current, p)
  }

  function BaselineAfter(current: Baseline, source: Tree, target: Tree, selected: Tree): Baseline {
    map p | p in current.Keys + source.Keys && NextBase(current, source, target, selected, p).Some? ::
      NextBase(current, source, target, selected, p).value
  }

  method BaselineAfterTransfer(current: Baseline, source: Tree, target: Tree, selected: Tree) returns (result: Baseline)
    ensures result == BaselineAfter(current, source, target, selected)
  {
    hide IsControl;
    result := DropRemovedControls(current, selected);
    var todo := source.Keys;
    while todo != {}
      invariant todo <= source.Keys
      invariant forall p :: Tracked(result, p) ==
                  if p in todo then WithoutRemovedControl(current, selected, p)
                  else NextBase(current, source, target, selected, p)
    {
      var path :| path in todo;
      todo := todo - {path};
      var file := source[path];
      if !file.readable || file.sha == "" { continue; }
      if path in selected {
        result := result[path := file.sha];
        continue;
      }
      if path in target && target[path].readable && target[path].sha == file.sha {
        result := result[path := file.sha];
      }
    }
    BaselineAfterTracks(current, source, target, selected);
    SameTracking(result, BaselineAfter(current, source, target, selected));
  }

  function WithoutRemovedControl(current: Baseline, selected: Tree, p: Path): Option<Sha> {
    if p in selected && IsControl(p) && !selected[p].readable then None else Tracked(current, p)
  }

  method DropRemovedControls(current: Baseline, selected: Tree) returns (result: Baseline)
    ensures forall p :: Tracked(result, p) == WithoutRemovedControl(current, selected, p)
  {
    hide IsControl;
    result := current;
    var todo := selected.Keys;
    while todo != {}
      invariant todo <= selected.Keys
      invariant forall p :: Tracked(result, p) ==
                  if p in todo then Tracked(current, p) else WithoutRemovedControl(current, selected, p)
    {
      var path :| path in todo;
      todo := todo - {path};
      if IsControl(path) && !selected[path].readable {
        result := result - {path};
      }
    }
  }

  lemma BaselineAfterTracks(current: Baseline, source: Tree, target: Tree, selected: Tree)
    ensures forall p :: Tracked(BaselineAfter(current, source, target, selected), p) ==
              NextBase(current, source, target, selected, p)
  {
    hide IsControl;
  }

  lemma SameTracking(a: Baseline, b: Baseline)
    requires forall p :: Tracked(a, p) == Tracked(b, p)
    ensures a == b
  {
    assert forall p :: p in a <==> Tracked(a, p).Some?;
    assert forall p :: p in b <==> Tracked(b, p).Some?;
  }

  /** The whole-tree baseline of a transfer that found nothing to change. */
  function BaselineFromSource(source: Tree): Baseline {
    map p | p in source && source[p].readable && source[p].sha != "" :: source[p].sha
  }

  function BaselineFromSourceKeepingControl(source: Tree, current: Baseline): Baseline {
    BaselineFromSource(source) + map p | p in current && IsControl(p) :: current[p]
  }

  // ----- writing -----

  /** The permission bits a written file receives. */
  function SafeMode(mode: nat): nat {
    if mode % 0x200 == 0 then 0x1A4 else mode % 0x200
  }

  /** A file as the next inventory finds it once written. */
  function Written(f: File): File {
    File(f.sha, SafeMode(f.mode), true, "", false)
  }

  /** Entries without contents are never written. */
  function WriteFiles(tree: Tree, files: Tree): Tree {
    tree + map p | p in files && files[p].readable :: Written(files[p])
  }

  /** Control manifests never reach the live stack. */
  function StackFiles(files: Tree): Tree {
    map p | p in files && !IsControl(p) :: files[p]
  }
}
