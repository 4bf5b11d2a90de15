/** The controlled deployment of changed stacks: a staged pipeline with rollback. */
module Deployment {

  type Path = string

  /** What each external call of one stack's pipeline answers. */
  datatype Calls = Calls(
    savedStart: bool, savedEnd: bool,
    provisionOk: bool, hasManifest: bool, validateOk: bool, pullOk: bool, dryRunOk: bool, deployOk: bool,
    commitOk: bool,
    hadPrevious: Previous, cleanupOk: bool, metadataOk: bool, filesOk: bool, removalsOk: bool, directoriesOk: bool,
    revalidateOk: bool, recheckOk: bool, redeployOk: bool)

  /** Whether the stack had a Compose file before the import, read from the backup. */
  datatype Previous = PreviousCompose | NoPrevious | Unreadable

  datatype Config = Config(pullConfigured: bool, rollbackEnabled: bool, hasBackup: bool)

  datatype Stage = Provisioning | Validation | Pull | DryRun | Deploy | ProvisioningCleanup

  datatype Kind =
    | Locked | Unlocked
    | Provisioned | Validated | Pulled | DryRan | Deploying
    | CleanedUp | MetadataRestored | FilesRestored | RemovalsRestored | DirectoriesRestored | Redeployed
    | Committed

  datatype Event = Event(kind: Kind, stack: Path, ok: bool)

  datatype Final = Success | Failed | RolledBack | RollbackFailed

  // ----- what one stack ends as -----

  /** A provisioning transaction exists only when the manifest was applied. */
  predicate HasTransaction(c: Calls) { c.provisionOk && c.hasManifest }

  predicate ReachesDeploy(cfg: Config, c: Calls) {
    c.provisionOk && c.validateOk && (cfg.pullConfigured ==> c.pullOk) && c.dryRunOk
  }

  predicate Deploys(cfg: Config, c: Calls) { ReachesDeploy(cfg, c) && c.deployOk }

  predicate HadPrevious(cfg: Config, c: Calls) { !cfg.hasBackup || c.hadPrevious == PreviousCompose }

  /** Taking the failed version away and putting files and provisioning back succeeds. */
  predicate UndoSucceeds(cfg: Config, c: Calls) {
    && (cfg.hasBackup ==> c.hadPrevious != Unreadable && c.filesOk)
    && (ReachesDeploy(cfg, c) && !HadPrevious(cfg, c) ==> c.cleanupOk)
    && (HasTransaction(c) ==> c.metadataOk && c.removalsOk && c.directoriesOk)
  }

  /** Checking the previous version succeeds, and deploying it again when Docker was touched. */
  predicate PreviousSucceeds(cfg: Config, c: Calls) {
    && (HadPrevious(cfg, c) ==> c.revalidateOk)
    && (ReachesDeploy(cfg, c) && HadPrevious(cfg, c) ==> c.recheckOk && c.redeployOk)
  }

  predicate RollbackSucceeds(cfg: Config, c: Calls) {
    UndoSucceeds(cfg, c) && PreviousSucceeds(cfg, c)
  }

  function FinalOf(cfg: Config, c: Calls): Final {
    if Deploys(cfg, c) then (if HasTransaction(c) && !c.commitOk then Failed else Success)
    else if cfg.rollbackEnabled then (if RollbackSucceeds(cfg, c) then RolledBack else RollbackFailed)
    else Failed
  }

  // ----- traces -----

  predicate Happened(events: seq<Event>, kind: Kind, stack: Path, before: nat)
    requires before <= |events|
  {
    exists i :: 0 <= i < before && events[i] == Event(kind, stack, true)
  }

  ghost predicate Ran(events: seq<Event>, kind: Kind) {
    exists e :: e in events && e.kind == kind
  }

  /** No step of the trace failed. */
  ghost predicate AllOk(events: seq<Event>) {
    forall e :: e in events ==> e.ok
  }

  /** One step of the trace failed and all others went through. */
  ghost predicate OneFailure(events: seq<Event>) {
    exists k :: 0 <= k < |events| && !events[k].ok && AllOk(events[..k]) && AllOk(events[k + 1..])
  }

  lemma JoinedOk(a: seq<Event>, b: seq<Event>)
    ensures AllOk(a + b) <==> AllOk(a) && AllOk(b)
  {
    assert forall e :: e in a + b <==> e in a || e in b;
  }

  lemma FailureThenRest(stages: seq<Event>, rest: seq<Event>)
    requires stages != [] && !stages[|stages| - 1].ok && AllOk(stages[..|stages| - 1])
    ensures OneFailure(stages + rest) <==> AllOk(rest)
  {
    var k, all := |stages| - 1, stages + rest;
    assert all[..k] == stages[..k] && all[k + 1..] == rest && all[k] == stages[k];
    if OneFailure(all) {
      var i :| 0 <= i < |all| && !all[i].ok && AllOk(all[..i]) && AllOk(all[i + 1..]);
    }
  }

  /** The place of each step in a rollback. */
  function Rank(kind: Kind): nat {
    match kind
    case CleanedUp => 1
    case MetadataRestored => 2
    case FilesRestored => 3
    case RemovalsRestored => 4
    case DirectoriesRestored => 5
    case Validated => 6
    case DryRan => 7
    case Redeployed => 8
    case _ => 0
  }

  /** Which call each step reports on, while the stack is deployed and while that is undone. */
  function StageAnswer(c: Calls, kind: Kind): bool {
    match kind
    case Provisioned => c.provisionOk
    case Validated => c.validateOk
    case Pulled => c.pullOk
    case DryRan => c.dryRunOk
    case Deploying => c.deployOk
    case Committed => c.commitOk
    case _ => true
  }

  function UndoAnswer(c: Calls, kind: Kind): bool {
    match kind
    case CleanedUp => c.cleanupOk
    case MetadataRestored => c.metadataOk
    case FilesRestored => c.filesOk
    case RemovalsRestored => c.removalsOk
    case DirectoriesRestored => c.directoriesOk
    case Validated => c.revalidateOk
    case DryRan => c.recheckOk
    case Redeployed => c.redeployOk
    case _ => true
  }

  /** The steps of a rollback of this stack, each at most once, in their place and with the answer of their call. */
  ghost predicate InOrder(events: seq<Event>, stack: Path, c: Calls, below: nat) {
    && (forall e :: e in events ==> e.stack == stack && 0 < Rank(e.kind) < below && e.ok == UndoAnswer(c, e.kind))
    && (forall i, j :: 0 <= i < j < |events| ==> Rank(events[i].kind) < Rank(events[j].kind))
  }

  lemma PushInOrder(events: seq<Event>, e: Event, c: Calls, below: nat)
    requires InOrder(events, e.stack, c, below) && 0 < below <= Rank(e.kind) && e.ok == UndoAnswer(c, e.kind)
    ensures InOrder(events + [e], e.stack, c, Rank(e.kind) + 1)
    ensures forall k :: Ran(events + [e], k) <==> Ran(events, k) || k == e.kind
    ensures AllOk(events + [e]) <==> AllOk(events) && e.ok
  {
    assert forall i :: 0 <= i < |events| ==> events[i] in events;
    assert forall x :: x in events + [e] <==> x in events || x == e;
    forall k ensures Ran(events + [e], k) <==> Ran(events, k) || k == e.kind {
      if k == e.kind { assert e in events + [e]; }
      if Ran(events, k) {
        var x :| x in events && x.kind == k;
        assert x in events + [e];
      }
    }
  }

  lemma RaiseBound(events: seq<Event>, stack: Path, c: Calls, below: nat, higher: nat)
    requires InOrder(events, stack, c, below) && below <= higher
    ensures InOrder(events, stack, c, higher)
  {
  }

  lemma NoEvents(stack: Path, c: Calls, below: nat)
    ensures InOrder([], stack, c, below) && AllOk([]) && forall k :: !Ran([], k)
  {
  }

  /** A real deployment runs only after every earlier stage succeeded for that stack, under its lock. */
  ghost predicate Staged(events: seq<Event>, cfg: Config) {
    forall i :: 0 <= i < |events| && events[i].kind == Deploying ==> StagedAt(events, cfg, i)
  }

  ghost predicate StagedAt(events: seq<Event>, cfg: Config, i: nat)
    requires i < |events|
  {
    var s := events[i].stack;
    && Happened(events, Locked, s, i) && Happened(events, Provisioned, s, i) && Happened(events, Validated, s, i)
    && (cfg.pullConfigured ==> Happened(events, Pulled, s, i)) && Happened(events, DryRan, s, i)
  }

  /** The locks held after a trace; None when one was taken twice or released without being held. */
  function HeldAfter(events: seq<Event>, held: set<Path>): (r: Held)
    decreases |events|
  {
    if events == [] then Holding(held)
    else
      var e := events[0];
      if e.kind == Locked then (if e.stack in held then Misused else HeldAfter(events[1..], held + {e.stack}))
      else if e.kind == Unlocked then (if e.stack !in held then Misused else HeldAfter(events[1..], held - {e.stack}))
      else HeldAfter(events[1..], held)
  }

  datatype Held = Holding(stacks: set<Path>) | Misused

  lemma {:induction false} HeldAfterConcat(a: seq<Event>, b: seq<Event>, held: set<Path>)
    requires HeldAfter(a, held).Holding?
    ensures HeldAfter(a + b, held) == HeldAfter(b, HeldAfter(a, held).stacks)
    decreases |a|
  {
    if a == [] {
      assert a + b == b;
    } else {
      assert (a + b)[0] == a[0] && (a + b)[1..] == a[1..] + b;
      var e := a[0];
      HeldAfterConcat(a[1..], b, if e.kind == Locked then held + {e.stack}
                      else if e.kind == Unlocked then held - {e.stack} else held);
    }
  }

  lemma StagedConcat(a: seq<Event>, b: seq<Event>, cfg: Config)
    requires Staged(a, cfg) && Staged(b, cfg)
    ensures Staged(a + b, cfg)
  {
    var c := a + b;
    forall i | 0 <= i < |c| && c[i].kind == Deploying ensures StagedAt(c, cfg, i) {
      if i < |a| {
        assert StagedAt(a, cfg, i);
        ShiftHappened(a, [], b, i);
        assert [] + a + b == c;
      } else {
        assert StagedAt(b, cfg, i - |a|);
        ShiftHappened(b, a, [], i - |a|);
        assert a + b + [] == c;
      }
    }
  }

  lemma ShiftHappened(b: seq<Event>, a: seq<Event>, z: seq<Event>, i: nat)
    requires i <= |b|
    ensures forall k, s :: Happened(b, k, s, i) ==> Happened(a + b + z, k, s, |a| + i)
  {
    forall k, s | Happened(b, k, s, i) ensures Happened(a + b + z, k, s, |a| + i) {
      var j :| 0 <= j < i && b[j] == Event(k, s, true);
      assert (a + b + z)[|a| + j] == Event(k, s, true);
    }
  }

  // ----- one stack -----

  /** The stages in order; each runs only if all before it succeeded. */
  method RunStages(cfg: Config, stack: Path, c: Calls) returns (ok: bool, stage: Stage, events: seq<Event>)
    ensures ok <==> Deploys(cfg, c)
    ensures (stage == Deploy) <==> ReachesDeploy(cfg, c)
    ensures Staged([Event(Locked, stack, true)] + events, cfg)
    ensures Ran(events, Deploying) <==> ReachesDeploy(cfg, c)
    ensures forall e :: e in events ==>
              e.stack == stack && e.kind in {Provisioned, Validated, Pulled, DryRan, Deploying}
              && e.ok == StageAnswer(c, e.kind)
    ensures events != [] && AllOk(events[..|events| - 1]) && (ok <==> events[|events| - 1].ok)
  {
    hide Staged, Happened, AllOk, Ran;
    ok, stage, events := RunChecks(cfg, stack, c);
    ghost var trace := [Event(Locked, stack, true)] + events;
    NoDeployIsStaged(trace, cfg);
    NoDeployRan(events);
    if ok {
      stage := Deploy;
      ItHappened(trace, Locked, stack, 0);
      ok := c.deployOk;
      StageStep(events, Event(Deploying, stack, ok));
      DeployIsStaged(trace, cfg, stack, ok);
      assert [Event(Locked, stack, true)] + (events + [Event(Deploying, stack, ok)]) ==
             trace + [Event(Deploying, stack, ok)];
      events := events + [Event(Deploying, stack, ok)];
      DeployRan(events);
    }
  }

  /** Everything before the real deployment. */
  method RunChecks(cfg: Config, stack: Path, c: Calls) returns (ok: bool, stage: Stage, events: seq<Event>)
    ensures (ok <==> ReachesDeploy(cfg, c)) && stage != Deploy
    ensures forall e :: e in events ==>
              e.stack == stack && e.kind in {Provisioned, Validated, Pulled, DryRan} && e.ok == StageAnswer(c, e.kind)
    ensures events != [] && AllOk(events[..|events| - 1]) && (ok <==> events[|events| - 1].ok) && (ok ==> AllOk(events))
    ensures ok ==> var trace := [Event(Locked, stack, true)] + events;
              && Happened(trace, Provisioned, stack, |trace|) && Happened(trace, Validated, stack, |trace|)
              && (cfg.pullConfigured ==> Happened(trace, Pulled, stack, |trace|))
              && Happened(trace, DryRan, stack, |trace|)
  {
    hide Happened, AllOk;
    NoEvents(stack, c, 0);
    stage := Provisioning;
    ok := c.provisionOk;
    events := Report([], Event(Provisioned, stack, ok));
    if ok {
      stage := Validation;
      ok := c.validateOk;
      events := Report(events, Event(Validated, stack, ok));
    }
    if ok && cfg.pullConfigured {
      stage := Pull;
      ok := c.pullOk;
      events := Report(events, Event(Pulled, stack, ok));
    }
    if ok {
      stage := DryRun;
      ok := c.dryRunOk;
      events := Report(events, Event(DryRan, stack, ok));
    }
    forall kind | Event(kind, stack, true) in events
      ensures var trace := [Event(Locked, stack, true)] + events; Happened(trace, kind, stack, |trace|)
    {
      Reported(events, kind, stack);
    }
  }

  /** Adds the report of a stage to a trace without failures. */
  method Report(events0: seq<Event>, e: Event) returns (events: seq<Event>)
    requires AllOk(events0)
    ensures events != [] && events[|events| - 1] == e && AllOk(events[..|events| - 1]) && (AllOk(events) <==> e.ok)
    ensures forall x :: x in events <==> x in events0 || x == e
  {
    hide AllOk;
    StageStep(events0, e);
    events := events0 + [e];
  }

  lemma Reported(events: seq<Event>, kind: Kind, stack: Path)
    requires Event(kind, stack, true) in events
    ensures var trace := [Event(Locked, stack, true)] + events; Happened(trace, kind, stack, |trace|)
  {
    var trace := [Event(Locked, stack, true)] + events;
    var i :| 0 <= i < |events| && events[i] == Event(kind, stack, true);
    ItHappened(trace, kind, stack, i + 1);
  }

  lemma NoDeployRan(events: seq<Event>)
    requires forall e :: e in events ==> e.kind != Deploying
    ensures !Ran(events, Deploying)
  {
  }

  lemma DeployRan(events: seq<Event>)
    requires events != [] && events[|events| - 1].kind == Deploying
    ensures Ran(events, Deploying)
  {
    assert events[|events| - 1] in events;
  }

  lemma StageStep(events: seq<Event>, e: Event)
    requires AllOk(events)
    ensures var more := events + [e];
            more[..|more| - 1] == events && more[|more| - 1] == e && (AllOk(more) <==> e.ok)
  {
    JoinedOk(events, [e]);
    assert [e][0] in [e];
  }

  lemma ItHappened(trace: seq<Event>, kind: Kind, stack: Path, i: nat)
    requires i < |trace| && trace[i] == Event(kind, stack, true)
    ensures Happened(trace, kind, stack, |trace|)
  {
  }

  lemma NoDeployIsStaged(trace: seq<Event>, cfg: Config)
    requires forall e :: e in trace ==> e.kind != Deploying
    ensures Staged(trace, cfg)
  {
    assert forall i :: 0 <= i < |trace| ==> trace[i] in trace;
  }

  lemma DeployIsStaged(trace: seq<Event>, cfg: Config, stack: Path, ok: bool)
    requires forall e :: e in trace ==> e.kind != Deploying
    requires Happened(trace, Locked, stack, |trace|) && Happened(trace, Provisioned, stack, |trace|)
              && Happened(trace, Validated, stack, |trace|)
    requires (cfg.pullConfigured ==> Happened(trace, Pulled, stack, |trace|)) && Happened(trace, DryRan, stack, |trace|)
    ensures Staged(trace + [Event(Deploying, stack, ok)], cfg)
  {
    var more := trace + [Event(Deploying, stack, ok)];
    ShiftHappened(trace, [], [Event(Deploying, stack, ok)], |trace|);
    assert [] + trace + [Event(Deploying, stack, ok)] == more;
    assert forall i :: 0 <= i < |trace| ==> more[i] in trace;
    assert StagedAt(more, cfg, |trace|);
  }

  /** The backup answers whether there was an earlier Compose file, as far as it is asked. */
  predicate KnowsPrevious(cfg: Config, c: Calls) { cfg.hasBackup ==> c.hadPrevious != Unreadable }

  /** Undoes a failed deployment. A new stack is taken down while its Compose file still exists; restored files are
      validated, and deployed again only when Docker was touched. It succeeds exactly when no step of it failed. */
  method RollBack(cfg: Config, stack: Path, c: Calls, stage: Stage) returns (ok: bool, events: seq<Event>)
    requires !Deploys(cfg, c) && ((stage == Deploy) <==> ReachesDeploy(cfg, c))
    ensures ok <==> RollbackSucceeds(cfg, c)
    ensures ok <==> KnowsPrevious(cfg, c) && AllOk(events)
    ensures InOrder(events, stack, c, 9)
    ensures Ran(events, CleanedUp) <==> ReachesDeploy(cfg, c) && cfg.hasBackup && c.hadPrevious == NoPrevious
    ensures Ran(events, FilesRestored) <==> cfg.hasBackup
    ensures forall k :: k in {MetadataRestored, RemovalsRestored, DirectoriesRestored} ==>
              (Ran(events, k) <==> c.provisionOk && c.hasManifest)
    ensures Ran(events, Redeployed) ==>
              ReachesDeploy(cfg, c) && HadPrevious(cfg, c) && Ran(events, Validated) && Ran(events, DryRan)
    ensures ok && HadPrevious(cfg, c) ==> Ran(events, Validated)
    ensures ok && ReachesDeploy(cfg, c) && HadPrevious(cfg, c) ==> Ran(events, Redeployed)
  {
    hide Ran, InOrder, ReachesDeploy, UndoSucceeds, HadPrevious, AllOk;
    ok, events := UndoChange(cfg, stack, c, stage);
    ok, events := DeployPrevious(cfg, stack, c, stage, ok, events);
  }

  method UndoChange(cfg: Config, stack: Path, c: Calls, stage: Stage) returns (ok: bool, events: seq<Event>)
    requires (stage == Deploy) <==> ReachesDeploy(cfg, c)
    ensures ok <==> UndoSucceeds(cfg, c)
    ensures ok <==> KnowsPrevious(cfg, c) && AllOk(events)
    ensures InOrder(events, stack, c, 6)
    ensures Ran(events, CleanedUp) <==> ReachesDeploy(cfg, c) && cfg.hasBackup && c.hadPrevious == NoPrevious
    ensures Ran(events, FilesRestored) <==> cfg.hasBackup
    ensures forall k :: k in {MetadataRestored, RemovalsRestored, DirectoriesRestored} ==>
              (Ran(events, k) <==> c.provisionOk && c.hasManifest)
    ensures !Ran(events, Redeployed)
  {
    hide Ran, InOrder, ReachesDeploy, AllOk;
    events, ok := [], true;
    NoEvents(stack, c, 1);
    var had := true;
    if cfg.hasBackup {
      had := c.hadPrevious == PreviousCompose;
      ok := c.hadPrevious != Unreadable;
    }
    if ok && stage == Deploy && !had {
      ok := c.cleanupOk;
      events := Push(events, Event(CleanedUp, stack, ok), c, 1);
    }
    if HasTransaction(c) {
      events := Push(events, Event(MetadataRestored, stack, c.metadataOk), c, 2);
      ok := ok && c.metadataOk;
    }
    if cfg.hasBackup {
      events := Push(events, Event(FilesRestored, stack, c.filesOk), c, 3);
      ok := ok && c.filesOk;
    }
    if HasTransaction(c) {
      events := Push(events, Event(RemovalsRestored, stack, c.removalsOk), c, 4);
      ok := ok && c.removalsOk;
    }
    if HasTransaction(c) {
      events := Push(events, Event(DirectoriesRestored, stack, c.directoriesOk), c, 5);
      ok := ok && c.directoriesOk;
    }
    RaiseAll(events, stack, c);
  }

  /** Adds a step to the trace. */
  method Push(events0: seq<Event>, e: Event, ghost c: Calls, ghost below: nat) returns (events: seq<Event>)
    requires 0 < below == Rank(e.kind) && e.ok == UndoAnswer(c, e.kind)
    requires exists low: nat :: low <= below && InOrder(events0, e.stack, c, low)
    ensures events == events0 + [e] && InOrder(events, e.stack, c, below + 1)
    ensures forall k :: Ran(events, k) <==> Ran(events0, k) || k == e.kind
    ensures AllOk(events) <==> AllOk(events0) && e.ok
  {
    hide Ran, InOrder, AllOk;
    ghost var low: nat :| low <= below && InOrder(events0, e.stack, c, low);
    RaiseBound(events0, e.stack, c, low, below);
    PushInOrder(events0, e, c, below);
    events := events0 + [e];
  }

  lemma RaiseAll(events: seq<Event>, stack: Path, c: Calls)
    requires exists low: nat :: low <= 6 && InOrder(events, stack, c, low)
    ensures InOrder(events, stack, c, 6)
  {
    hide InOrder;
    var low: nat :| low <= 6 && InOrder(events, stack, c, low);
    RaiseBound(events, stack, c, low, 6);
  }

  method DeployPrevious(cfg: Config, stack: Path, c: Calls, stage: Stage, undone: bool, events0: seq<Event>)
    returns (ok: bool, events: seq<Event>)
    requires (stage == Deploy) <==> ReachesDeploy(cfg, c)
    requires InOrder(events0, stack, c, 6) && !Ran(events0, Redeployed) && (undone ==> AllOk(events0))
    ensures ok <==> undone && PreviousSucceeds(cfg, c)
    ensures if undone then ok <==> AllOk(events) else events == events0
    ensures InOrder(events, stack, c, 9)
    ensures forall k :: Rank(k) < 6 ==> (Ran(events, k) <==> Ran(events0, k))
    ensures Ran(events, Redeployed) ==>
              ReachesDeploy(cfg, c) && HadPrevious(cfg, c) && Ran(events, Validated) && Ran(events, DryRan)
    ensures ok && HadPrevious(cfg, c) ==> Ran(events, Validated)
    ensures ok && ReachesDeploy(cfg, c) && HadPrevious(cfg, c) ==> Ran(events, Redeployed)
  {
    hide Ran, InOrder, ReachesDeploy, AllOk;
    events, ok := events0, undone;
    var had := HadPrevious(cfg, c);
    if ok && had {
      ok := c.revalidateOk;
      PushInOrder(events, Event(Validated, stack, ok), c, 6);
      events := events + [Event(Validated, stack, ok)];
    } else {
      RaiseBound(events, stack, c, 6, 7);
    }
    if ok && stage == Deploy && had {
      ok := c.recheckOk;
      PushInOrder(events, Event(DryRan, stack, ok), c, 7);
      events := events + [Event(DryRan, stack, ok)];
    } else {
      RaiseBound(events, stack, c, 7, 8);
    }
    if ok && stage == Deploy && had {
      ok := c.redeployOk;
      PushInOrder(events, Event(Redeployed, stack, ok), c, 8);
      events := events + [Event(Redeployed, stack, ok)];
    } else {
      RaiseBound(events, stack, c, 8, 9);
    }
  }

  /** The final state read off the trace: success when no step failed, rolled back when one stage failed and no step of
      the rollback did. */
  method DeployOne(cfg: Config, stack: Path, c: Calls) returns (final: Final, events: seq<Event>)
    requires c.savedStart
    ensures final == FinalOf(cfg, c)
    ensures final == Success <==> AllOk(events)
    ensures final == RolledBack <==>
              cfg.rollbackEnabled && KnowsPrevious(cfg, c) && OneFailure(events) && !Ran(events, Committed)
    ensures Ran(events, Committed) <==>
              c.provisionOk && c.hasManifest && (Deploys(cfg, c) || !cfg.rollbackEnabled)
    ensures Staged(events, cfg)
    ensures forall held :: stack !in held ==> HeldAfter(events, held) == Holding(held)
    ensures forall e :: e in events ==> e.stack == stack
  {
    hide ReachesDeploy, HadPrevious, Staged, AllOk, OneFailure, Ran, InOrder, KnowsPrevious;
    var ok, stage, stages := RunStages(cfg, stack, c);
    var lock, end := [Event(Locked, stack, true)], [Event(Unlocked, stack, true)];
    events := lock + stages;
    final := Failed;
    var more: seq<Event> := [];
    OneEvent(end[0]);
    if !ok && cfg.rollbackEnabled {
      var back;
      back, more := RollBack(cfg, stack, c, stage);
      RollbackKinds(more, stack, c);
      final := if back then RolledBack else RollbackFailed;
    } else if HasTransaction(c) {
      more := [Event(Committed, stack, c.commitOk)];
      OneEvent(more[0]);
      ok := ok && c.commitOk;
    }
    TraceOf(stages, more, stack);
    QuietTail(events, more, cfg);
    QuietTail(events + more, end, cfg);
    OneLock(stages + more, stack);
    Rebracket(lock, stages, more, end);
    events := events + more + end;
    if ok { final := Success; }
  }

  lemma Rebracket(a: seq<Event>, b: seq<Event>, c: seq<Event>, d: seq<Event>)
    ensures a + b + c + d == a + (b + c) + d
  {
  }

  lemma RollbackKinds(events: seq<Event>, stack: Path, c: Calls)
    requires InOrder(events, stack, c, 9)
    ensures forall e :: e in events ==> e.stack == stack && e.kind !in {Deploying, Locked, Unlocked, Committed}
    ensures !Ran(events, Committed)
  {
  }

  /** The trace of a stack between its lock and its release: the stages, then what follows them. */
  lemma TraceOf(stages: seq<Event>, more: seq<Event>, stack: Path)
    requires stages != [] && AllOk(stages[..|stages| - 1])
    requires forall e :: e in stages ==> e.kind in {Provisioned, Validated, Pulled, DryRan, Deploying}
    ensures var lock, end := [Event(Locked, stack, true)], [Event(Unlocked, stack, true)];
            var all := lock + stages + more + end;
            && (AllOk(all) <==> stages[|stages| - 1].ok && AllOk(more))
            && (!stages[|stages| - 1].ok ==> (OneFailure(all) <==> AllOk(more)))
            && (OneFailure(all) ==> !AllOk(all))
            && (Ran(all, Committed) <==> Ran(more, Committed))
  {
    hide OneFailure, AllOk, Ran;
    var lock, end := [Event(Locked, stack, true)], [Event(Unlocked, stack, true)];
    var all, last := lock + stages + more + end, |stages| - 1;
    assert stages == stages[..last] + [stages[last]];
    OneEvent(lock[0]);
    OneEvent(end[0]);
    OneEvent(stages[last]);
    JoinedOk(stages[..last], [stages[last]]);
    JoinedOk(lock, stages);
    JoinedOk(lock, stages[..last]);
    JoinedOk(lock + stages, more);
    JoinedOk(lock + stages + more, end);
    JoinedOk(more, end);
    assert all == (lock + stages) + (more + end);
    if !stages[last].ok {
      assert (lock + stages)[..|lock + stages| - 1] == lock + stages[..last];
      FailureThenRest(lock + stages, more + end);
    }
    if AllOk(all) { NoFailure(all); }
    RanOnlyIn(all, more, lock + stages, end);
  }

  lemma OneEvent(e: Event)
    ensures AllOk([e]) <==> e.ok
    ensures forall k :: Ran([e], k) <==> k == e.kind
    ensures AllOk([]) && forall k :: !Ran([], k)
  {
    assert [e][0] in [e];
  }

  lemma NoFailure(events: seq<Event>)
    requires AllOk(events)
    ensures !OneFailure(events)
  {
    assert forall k :: 0 <= k < |events| ==> events[k] in events;
  }

  lemma RanOnlyIn(all: seq<Event>, part: seq<Event>, left: seq<Event>, right: seq<Event>)
    requires all == left + part + right && forall e :: e in left || e in right ==> e.kind != Committed
    ensures Ran(all, Committed) <==> Ran(part, Committed)
  {
    assert forall e :: e in all <==> e in left || e in part || e in right;
    if Ran(part, Committed) {
      var e :| e in part && e.kind == Committed;
      assert e in all;
    }
  }

  lemma QuietTail(a: seq<Event>, b: seq<Event>, cfg: Config)
    requires Staged(a, cfg) && forall e :: e in b ==> e.kind != Deploying
    ensures Staged(a + b, cfg)
  {
    assert forall i :: 0 <= i < |b| ==> b[i] in b;
    assert Staged(b, cfg);
    StagedConcat(a, b, cfg);
  }

  lemma {:induction false} NoLockEvents(inner: seq<Event>, held: set<Path>)
    requires forall e :: e in inner ==> e.kind != Locked && e.kind != Unlocked
    ensures HeldAfter(inner, held) == Holding(held)
    decreases |inner|
  {
    if inner == [] {
    } else {
      assert inner[0] in inner && forall e :: e in inner[1..] ==> e in inner;
      NoLockEvents(inner[1..], held);
    }
  }

  lemma OneLock(inner: seq<Event>, stack: Path)
    requires forall e :: e in inner ==> e.kind != Locked && e.kind != Unlocked
    ensures forall held :: stack !in held ==>
              HeldAfter([Event(Locked, stack, true)] + inner + [Event(Unlocked, stack, true)], held) == Holding(held)
  {
    var lock, unlock := [Event(Locked, stack, true)], [Event(Unlocked, stack, true)];
    forall held: set<Path> | stack !in held ensures HeldAfter(lock + inner + unlock, held) == Holding(held) {
      var mine := held + {stack};
      assert lock[1..] == [] && unlock[1..] == [];
      assert HeldAfter(lock, held) == Holding(mine);
      NoLockEvents(inner, mine);
      HeldAfterConcat(lock, inner, held);
      HeldAfterConcat(lock + inner, unlock, held);
      assert mine - {stack} == held;
    }
  }

  // ----- the batch -----

  datatype Batch = Batch(deployed: seq<Path>, failed: seq<Path>, rolledBack: seq<Path>, rollbackFailed: seq<Path>,
                         deferred: seq<Path>)

  datatype BindingState = BindingSuccess | BindingPending | BindingFailed | BindingPartial

  function StateOf(b: Batch): BindingState {
    if b.failed == [] && b.deferred != [] then BindingPending
    else if b.failed == [] then BindingSuccess
    else if b.rollbackFailed != [] then BindingFailed
    else if b.deployed != [] || b.rolledBack != [] then BindingPartial
    else BindingFailed
  }

  ghost predicate Distinct(ts: seq<Path>) {
    forall i, j :: 0 <= i < j < |ts| ==> ts[i] != ts[j]
  }

  ghost predicate Ends(handled: seq<Path>, busy: set<Path>, cfg: Config, calls: map<Path, Calls>, t: Path,
                       finals: set<Final>) {
    t in handled && t !in busy && t in calls && FinalOf(cfg, calls[t]) in finals
  }

  ghost predicate Lists(list: seq<Path>, handled: seq<Path>, busy: set<Path>, cfg: Config, calls: map<Path, Calls>,
                        finals: set<Final>) {
    forall t :: t in list <==> Ends(handled, busy, cfg, calls, t, finals)
  }

  /** Every stack handled so far is in exactly one list, and the rollback lists split part of the failures. */
  ghost predicate Filed(b: Batch, handled: seq<Path>, busy: set<Path>, cfg: Config, calls: map<Path, Calls>) {
    && multiset(b.deployed) + multiset(b.failed) + multiset(b.deferred) == multiset(handled)
    && (forall t :: t in handled && t !in busy ==> t in calls)
    && (forall t :: t in b.deferred <==> t in handled && t in busy)
    && Lists(b.deployed, handled, busy, cfg, calls, {Success})
    && Lists(b.failed, handled, busy, cfg, calls, {Failed, RolledBack, RollbackFailed})
    && Lists(b.rolledBack, handled, busy, cfg, calls, {RolledBack})
    && Lists(b.rollbackFailed, handled, busy, cfg, calls, {RollbackFailed})
  }

  lemma ListStep(list: seq<Path>, handled: seq<Path>, busy: set<Path>, cfg: Config, calls: map<Path, Calls>,
                 finals: set<Final>, t: Path)
    requires Lists(list, handled, busy, cfg, calls, finals)
    ensures t !in busy && t in calls && FinalOf(cfg, calls[t]) in finals ==>
              Lists(list + [t], handled + [t], busy, cfg, calls, finals)
    ensures t in busy || (t in calls && FinalOf(cfg, calls[t]) !in finals) ==>
              Lists(list, handled + [t], busy, cfg, calls, finals)
  {
    hide FinalOf;
  }

  function File(b: Batch, t: Path, final: Final): Batch {
    match final
    case Success => b.(deployed := b.deployed + [t])
    case Failed => b.(failed := b.failed + [t])
    case RolledBack => b.(failed := b.failed + [t], rolledBack := b.rolledBack + [t])
    case RollbackFailed => b.(failed := b.failed + [t], rollbackFailed := b.rollbackFailed + [t])
  }

  lemma FileStep(b: Batch, handled: seq<Path>, busy: set<Path>, cfg: Config, calls: map<Path, Calls>, t: Path)
    requires Filed(b, handled, busy, cfg, calls) && t !in handled && t !in busy && t in calls
    ensures Filed(File(b, t, FinalOf(cfg, calls[t])), handled + [t], busy, cfg, calls)
  {
    hide FinalOf, Lists;
    ListStep(b.deployed, handled, busy, cfg, calls, {Success}, t);
    ListStep(b.failed, handled, busy, cfg, calls, {Failed, RolledBack, RollbackFailed}, t);
    ListStep(b.rolledBack, handled, busy, cfg, calls, {RolledBack}, t);
    ListStep(b.rollbackFailed, handled, busy, cfg, calls, {RollbackFailed}, t);
  }

  lemma DeferStep(b: Batch, handled: seq<Path>, busy: set<Path>, cfg: Config, calls: map<Path, Calls>, t: Path)
    requires Filed(b, handled, busy, cfg, calls) && t !in handled && t in busy
    ensures Filed(b.(deferred := b.deferred + [t]), handled + [t], busy, cfg, calls)
  {
    hide FinalOf, Lists;
    ListStep(b.deployed, handled, busy, cfg, calls, {Success}, t);
    ListStep(b.failed, handled, busy, cfg, calls, {Failed, RolledBack, RollbackFailed}, t);
    ListStep(b.rolledBack, handled, busy, cfg, calls, {RolledBack}, t);
    ListStep(b.rollbackFailed, handled, busy, cfg, calls, {RollbackFailed}, t);
  }

  datatype Outcome = NothingToDeploy | Completed(batch: Batch, state: BindingState) | StoreError(batch: Batch)

  predicate Saved(c: Calls) { c.savedStart && c.savedEnd }

  /** The result when the record of the stack cannot be saved at the end: its rollback is listed already, its failure
      is not. */
  function HalfFiled(b: Batch, t: Path, final: Final): Batch {
    match final
    case RolledBack => b.(rolledBack := b.rolledBack + [t])
    case RollbackFailed => b.(rollbackFailed := b.rollbackFailed + [t])
    case _ => b
  }

  /** The batch as it stands when the record of target `n` could not be saved. */
  ghost predicate StopsAt(b: Batch, targets: seq<Path>, n: nat, busy: set<Path>, cfg: Config, calls: map<Path, Calls>) {
    && n < |targets| && targets[n] !in busy && targets[n] in calls && !Saved(calls[targets[n]])
    && exists before :: Filed(before, targets[..n], busy, cfg, calls)
         && b == if calls[targets[n]].savedStart then HalfFiled(before, targets[n], FinalOf(cfg, calls[targets[n]]))
              else before
  }

  /** Deploys each target in turn. `busy` are the stacks that another action holds when their turn comes, `stateSaved`
      says whether the final state of the link can be stored. */
  method DeployChangedStacks(cfg: Config, targets: seq<Path>, calls: map<Path, Calls>, busy: set<Path>,
                             stateSaved: bool)
    returns (o: Outcome, events: seq<Event>)
    requires Distinct(targets) && forall t :: t in targets && t !in busy ==> t in calls
    ensures o.Completed? ==> Filed(o.batch, targets, busy, cfg, calls) && o.state == StateOf(o.batch)
    ensures o.StoreError? ==>
              if forall t :: t in targets && t !in busy ==>
                   Saved(calls[t]) then Filed(o.batch, targets, busy, cfg, calls)
              else exists n :: StopsAt(o.batch, targets, n, busy, cfg, calls)
    ensures o.StoreError? <==>
              targets != [] && !(stateSaved && forall t :: t in targets && t !in busy ==> Saved(calls[t]))
    ensures o.NothingToDeploy? <==> targets == []
    ensures Staged(events, cfg)
    ensures HeldAfter(events, busy) == Holding(busy)
  {
    hide Filed, FinalOf, Staged, HeldAfter, Distinct;
    var b := Batch([], [], [], [], []);
    events := [];
    EmptyTrace(cfg, busy);
    if |targets| == 0 { return NothingToDeploy, events; }
    EmptyBatch(busy, cfg, calls);
    var n := 0;
    while n < |targets|
      invariant 0 <= n <= |targets|
      invariant Filed(b, targets[..n], busy, cfg, calls)
      invariant forall i :: 0 <= i < n && targets[i] !in busy ==> Saved(calls[targets[i]])
      invariant Staged(events, cfg) && HeldAfter(events, busy) == Holding(busy)
    {
      var t := targets[n];
      NotYet(targets, n);
      assert targets[..n + 1] == targets[..n] + [t];
      n := n + 1;
      if t in busy {
        DeferStep(b, targets[..n - 1], busy, cfg, calls, t);
        b := b.(deferred := b.deferred + [t]);
        continue;
      }
      var c := calls[t];
      if !c.savedStart {
        LockOnly(t, cfg);
        JoinTraces(events, [Event(Locked, t, true), Event(Unlocked, t, true)], cfg, busy);
        events := events + [Event(Locked, t, true), Event(Unlocked, t, true)];
        assert StopsAt(b, targets, n - 1, busy, cfg, calls);
        return StoreError(b), events;
      }
      var final, more := DeployOne(cfg, t, c);
      JoinTraces(events, more, cfg, busy);
      events := events + more;
      if !c.savedEnd {
        assert StopsAt(HalfFiled(b, t, final), targets, n - 1, busy, cfg, calls);
        return StoreError(HalfFiled(b, t, final)), events;
      }
      FileStep(b, targets[..n - 1], busy, cfg, calls, t);
      b := File(b, t, final);
    }
    assert targets[..n] == targets;
    o := if stateSaved then Completed(b, StateOf(b)) else StoreError(b);
  }

  lemma EmptyTrace(cfg: Config, busy: set<Path>)
    ensures Staged([], cfg) && HeldAfter([], busy) == Holding(busy)
  {
  }

  lemma EmptyBatch(busy: set<Path>, cfg: Config, calls: map<Path, Calls>)
    ensures Filed(Batch([], [], [], [], []), [], busy, cfg, calls)
  {
  }

  lemma NotYet(targets: seq<Path>, n: nat)
    requires Distinct(targets) && n < |targets|
    ensures targets[n] !in targets[..n]
  {
  }

  lemma LockOnly(t: Path, cfg: Config)
    ensures Staged([Event(Locked, t, true), Event(Unlocked, t, true)], cfg)
    ensures forall held :: t !in held ==>
              HeldAfter([Event(Locked, t, true), Event(Unlocked, t, true)], held) == Holding(held)
  {
    OneLock([], t);
    assert [Event(Locked, t, true)] + [] + [Event(Unlocked, t, true)] ==
         [Event(Locked, t, true), Event(Unlocked, t, true)];
  }

  lemma JoinTraces(a: seq<Event>, b: seq<Event>, cfg: Config, held: set<Path>)
    requires Staged(a, cfg) && Staged(b, cfg) && HeldAfter(a, held) == Holding(held)
              && HeldAfter(b, held) == Holding(held)
    ensures Staged(a + b, cfg) && HeldAfter(a + b, held) == Holding(held)
  {
    hide Staged;
    StagedConcat(a, b, cfg);
    HeldAfterConcat(a, b, held);
  }

  /** The three lists partition the targets, the rollback lists are disjoint parts of the failures, and the binding
      reports success exactly when nothing failed and nothing was deferred. */
  lemma BatchPartitionsTargets(b: Batch, targets: seq<Path>, busy: set<Path>, cfg: Config, calls: map<Path, Calls>,
                               t: Path)
    requires Filed(b, targets, busy, cfg, calls)
    ensures t in targets <==> t in b.deployed || t in b.failed || t in b.deferred
    ensures !(t in b.deployed && t in b.failed) && !(t in b.deployed && t in b.deferred)
              && !(t in b.failed && t in b.deferred)
    ensures (t in b.rolledBack || t in b.rollbackFailed ==> t in b.failed)
              && !(t in b.rolledBack && t in b.rollbackFailed)
    ensures cfg.rollbackEnabled && t in b.failed && !Deploys(cfg, calls[t]) ==>
              t in b.rolledBack || t in b.rollbackFailed
    ensures StateOf(b) == BindingSuccess <==> b.failed == [] && b.deferred == []
    ensures StateOf(b) == BindingPending <==> b.failed == [] && b.deferred != []
    ensures StateOf(b) == BindingFailed <==>
              b.failed != [] && (b.rollbackFailed != [] || (b.deployed == [] && b.rolledBack == []))
  {
    hide Deploys, HasTransaction, RollbackSucceeds;
  }

  /** When a record cannot be saved, the lists disagree on exactly one stack: the one whose rollback was listed and
      whose failure was not. */
  lemma UnsavedRollbackIsNoListedFailure(b: Batch, targets: seq<Path>, n: nat, busy: set<Path>, cfg: Config,
                                         calls: map<Path, Calls>, t: Path)
    requires Distinct(targets) && StopsAt(b, targets, n, busy, cfg, calls)
    ensures (t in b.rolledBack || t in b.rollbackFailed) && t !in b.failed <==>
            t == targets[n] && calls[t].savedStart && FinalOf(cfg, calls[t]) in {RolledBack, RollbackFailed}
  {
    hide FinalOf;
    NotYet(targets, n);
  }
}
