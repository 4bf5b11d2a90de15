/** Updating the containers of a stack as one transaction. */
module StackUpdate {
  import opened UpdateOrder

  type Name = string
  type Image = string

  // ----- locks -----

  /** The process-wide table of stack actions under way. Nobody ever waits for a lock. */
  class LockTable {
    var held: set<string>

    constructor ()
      ensures held == {}
    {
      held := {};
    }

    method TryLock(key: string) returns (ok: bool)
      modifies this
      ensures ok <==> key !in old(held)
      ensures held == if ok then old(held) + {key} else old(held)
    {
      ok := key !in held;
      if ok { held := held + {key}; }
    }

    /** Releasing a lock that is not held would be an error, so each is released at most once. */
    method Unlock(key: string)
      requires key in held
      modifies this
      ensures held == old(held) - {key}
    {
      held := held - {key};
    }

    /** Takes all keys or none: on the first busy one everything taken so far goes back, last first. */
    method AcquireAll(keys: seq<string>) returns (ok: bool)
      requires Distinct(keys)
      modifies this
      ensures ok <==> Keys(keys) !! old(held)
      ensures held == if ok then old(held) + Keys(keys) else old(held)
    {
      var n := 0;
      while n < |keys|
        invariant 0 <= n <= |keys|
        invariant held == old(held) + Keys(keys[..n]) && Keys(keys[..n]) !! old(held)
      {
        assert keys[..n + 1] == keys[..n] + [keys[n]];
        assert keys[n] !in Keys(keys[..n]);
        var got := TryLock(keys[n]);
        if !got {
          assert keys[n] in Keys(keys) && keys[n] in old(held);
          ReleaseAll(keys[..n], old(held));
          return false;
        }
        n := n + 1;
      }
      assert keys[..n] == keys;
      ok := true;
    }

    method ReleaseAll(keys: seq<string>, ghost others: set<string>)
      requires Distinct(keys) && held == others + Keys(keys) && Keys(keys) !! others
      modifies this
      ensures held == others
    {
      var n := |keys|;
      assert keys[..n] == keys;
      while n > 0
        invariant 0 <= n <= |keys|
        invariant held == others + Keys(keys[..n])
      {
        n := n - 1;
        assert keys[..n + 1] == keys[..n] + [keys[n]];
        assert keys[n] !in Keys(keys[..n]) && keys[n] !in others by { assert keys[n] in Keys(keys); }
        Unlock(keys[n]);
      }
    }
  }

  ghost predicate Distinct(keys: seq<string>) {
    forall i, j :: 0 <= i < j < |keys| ==> keys[i] != keys[j]
  }

  function Keys(keys: seq<string>): set<string> {
    set k | k in keys
  }

  // ----- what Docker may answer -----

  datatype Validation = Eligible | Ineligible | ValidationError

  /** An update call ends on the new image, leaves the container alone, puts it back, or breaks it. */
  datatype UpdateAnswer =
    | Updated(image: Image)
    | AlreadyCurrent
    | FailedUntouched
    | FailedRolledBack
    | FailedOn(image: Image)

  datatype RestoreAnswer = RestoredOk | RestoreFailedOn(image: Image)

  /** Answers by position of the ordered targets. */
  datatype Script = Script(validations: seq<Validation>, pulls: map<Image, bool>, updates: seq<UpdateAnswer>,
                           restores: seq<RestoreAnswer>)

  ghost predicate Answers(script: Script, targets: seq<Target>) {
    && |script.validations| == |script.updates| == |script.restores| == |targets|
    && forall i :: 0 <= i < |targets| ==> targets[i].image in script.pulls
  }

  type World = map<Name, Image>

  ghost predicate UniqueNames(targets: seq<Target>) {
    forall i, j :: 0 <= i < j < |targets| ==> targets[i].containerName != targets[j].containerName
  }

  ghost predicate Present(targets: seq<Target>, world: World) {
    forall i :: 0 <= i < |targets| ==> targets[i].containerName in world
  }

  datatype State = SkippedState | UpdatedState | CurrentState | FailedState | RolledBackState

  // ----- the transaction -----

  ghost predicate Ready(script: Script, targets: seq<Target>)
    requires Answers(script, targets)
  {
    && (forall i :: 0 <= i < |targets| ==> script.validations[i] == Eligible)
    && (forall i :: 0 <= i < |targets| ==> script.pulls[targets[i].image])
  }

  predicate Fails(a: UpdateAnswer) { a.FailedUntouched? || a.FailedRolledBack? || a.FailedOn? }

  function AfterUpdate(a: UpdateAnswer, image: Image): Image {
    match a
    case Updated(newer) => newer
    case FailedOn(other) => other
    case _ => image
  }

  function StateAfter(a: UpdateAnswer): State {
    match a
    case Updated(_) => UpdatedState
    case AlreadyCurrent => CurrentState
    case FailedRolledBack => RolledBackState
    case _ => FailedState
  }

  /** The first member whose update fails, or the number of members. */
  function FirstFailure(updates: seq<UpdateAnswer>): (k: nat)
    ensures k <= |updates| && (k < |updates| ==> Fails(updates[k]))
    ensures forall i :: 0 <= i < k ==> !Fails(updates[i])
  {
    if updates == [] || Fails(updates[0]) then 0 else 1 + FirstFailure(updates[1..])
  }

  predicate AllRollback(targets: seq<Target>) {
    forall i :: 0 <= i < |targets| ==> targets[i].rollbackEnabled
  }

  /** The member was updated before another one failed, and the transaction takes it back. */
  predicate IsUndone(script: Script, targets: seq<Target>, i: nat)
    requires i < |script.updates| == |targets|
  {
    var f := FirstFailure(script.updates);
    i < f < |targets| && script.updates[i].Updated? && AllRollback(targets)
  }

  function FinalImage(script: Script, targets: seq<Target>, i: nat, image: Image): Image
    requires i < |script.updates| == |script.restores| == |targets|
  {
    if i > FirstFailure(script.updates) then image
    else if IsUndone(script, targets, i) then
      match script.restores[i] case RestoredOk => image case RestoreFailedOn(other) => other
    else AfterUpdate(script.updates[i], image)
  }

  function FinalState(script: Script, targets: seq<Target>, i: nat): State
    requires i < |script.updates| == |script.restores| == |targets|
  {
    if i > FirstFailure(script.updates) then SkippedState
    else if IsUndone(script, targets, i) then (if script.restores[i].RestoredOk? then RolledBackState else FailedState)
    else StateAfter(script.updates[i])
  }

  method Preflight(targets: seq<Target>, script: Script) returns (ready: bool)
    requires Answers(script, targets)
    ensures ready <==> Ready(script, targets)
  {
    for index := 0 to |targets|
      invariant forall i :: 0 <= i < index ==> script.validations[i] == Eligible
    {
      if script.validations[index] != Eligible { return false; }
    }
    var pulled: set<Image> := {};
    for index := 0 to |targets|
      invariant forall i :: 0 <= i < index ==> targets[i].image in pulled
      invariant forall image :: image in pulled ==> image in script.pulls && script.pulls[image]
    {
      if targets[index].image in pulled { continue; }
      if !script.pulls[targets[index].image] { return false; }
      pulled := pulled + {targets[index].image};
    }
    ready := true;
  }

  /** A member that was updated, with the image it had. */
  datatype Applied = Applied(index: nat, previous: Image)

  /** The members updated before position n, in order, each with the image it started on. */
  ghost predicate Recorded(applied: seq<Applied>, targets: seq<Target>, world0: World, script: Script, n: nat)
    requires Answers(script, targets) && Present(targets, world0) && n <= |targets|
  {
    && (forall k :: 0 <= k < |applied| ==> Marks(applied[k], targets, world0, script, n))
    && (forall i :: 0 <= i < n && script.updates[i].Updated? ==>
        exists k :: 0 <= k < |applied| && applied[k].index == i)
    && (forall a, b :: 0 <= a < b < |applied| ==> applied[a].index < applied[b].index)
  }

  ghost predicate Marks(a: Applied, targets: seq<Target>, world0: World, script: Script, n: nat)
    requires Answers(script, targets) && Present(targets, world0) && n <= |targets|
  {
    a.index < n && script.updates[a.index].Updated? && a.previous == world0[targets[a.index].containerName]
  }

  /** What holds while the update loop is at `index`: nothing failed yet and every member before it was handled. */
  ghost predicate Progress(targets: seq<Target>, world0: World, world: World, script: Script, states: seq<State>,
                           applied: seq<Applied>, index: nat)
    requires Answers(script, targets) && Present(targets, world0)
  {
    && index <= |targets| == |states| && index <= FirstFailure(script.updates)
    && world.Keys == world0.Keys
    && (forall i :: 0 <= i < index ==>
        world[targets[i].containerName] == AfterUpdate(script.updates[i], world0[targets[i].containerName]))
    && (forall i :: 0 <= i < index ==> states[i] == StateAfter(script.updates[i]))
    && (forall i :: index <= i < |targets| ==>
        world[targets[i].containerName] == world0[targets[i].containerName] && states[i] == SkippedState)
    && (forall n :: n in world && (forall i :: 0 <= i < |targets| ==> targets[i].containerName != n) ==>
        world[n] == world0[n])
    && Recorded(applied, targets, world0, script, index)
  }

  /** Every container ends where the script and the rollback rule put it, and every reported state agrees. */
  ghost predicate Finished(targets: seq<Target>, world0: World, world: World, script: Script, states: seq<State>)
    requires Answers(script, targets) && Present(targets, world0)
  {
    && |states| == |targets| && world.Keys == world0.Keys
    && (forall i :: 0 <= i < |targets| ==>
        world[targets[i].containerName] == FinalImage(script, targets, i, world0[targets[i].containerName]))
    && (forall i :: 0 <= i < |targets| ==> states[i] == FinalState(script, targets, i))
    && (forall n :: n in world && (forall i :: 0 <= i < |targets| ==> targets[i].containerName != n) ==>
        world[n] == world0[n])
  }

  method UpdateMembers(targets: seq<Target>, world0: World, script: Script) returns (world: World, states: seq<State>)
    requires Answers(script, targets) && UniqueNames(targets) && Present(targets, world0)
    ensures Finished(targets, world0, world, script, states)
  {
    hide FirstFailure, Finished, Recorded, UniqueNames, Stopped;
    world, states := world0, seq(|targets|, _ => SkippedState);
    var rollbackEnabled := AllRollback(targets);
    var applied: seq<Applied> := [];
    var index := 0;
    NothingRecorded(targets, world0, script);
    while index < |targets|
      invariant index <= |targets|
      invariant Progress(targets, world0, world, script, states, applied, index)
    {
      hide Progress;
      var name := targets[index].containerName;
      var answer := script.updates[index];
      InWorld(targets, world0, world, script, states, applied, index);
      var previous := world[name];
      ghost var was, wasStates := world, states;
      world := world[name := AfterUpdate(answer, previous)];
      states := states[index := StateAfter(answer)];
      if Fails(answer) {
        StopsHere(targets, world0, was, world, script, wasStates, states, applied, index);
        if rollbackEnabled && |applied| > 0 {
          world, states := RollbackApplied(targets, world0, world, script, states, applied, index);
        } else {
          NothingToUndo(targets, world0, world, script, states, applied, index);
        }
        return;
      }
      ProgressStep(targets, world0, was, world, script, wasStates, states, applied, index);
      if answer.Updated? {
        applied := applied + [Applied(index, previous)];
      }
      index := index + 1;
    }
    AllThrough(targets, world0, world, script, states, applied);
  }

  lemma NothingRecorded(targets: seq<Target>, world0: World, script: Script)
    requires Answers(script, targets) && Present(targets, world0)
    ensures Recorded([], targets, world0, script, 0) && 0 <= FirstFailure(script.updates)
  {
  }

  lemma InWorld(targets: seq<Target>, world0: World, world: World, script: Script, states: seq<State>,
                applied: seq<Applied>, index: nat)
    requires Answers(script, targets) && Present(targets, world0) && index < |targets|
    requires Progress(targets, world0, world, script, states, applied, index)
    ensures targets[index].containerName in world && |states| == |targets|
    ensures world[targets[index].containerName] == world0[targets[index].containerName]
  {
  }

  lemma RecordStep(applied: seq<Applied>, targets: seq<Target>, world0: World, script: Script, n: nat)
    requires Answers(script, targets) && Present(targets, world0) && n < |targets|
    requires Recorded(applied, targets, world0, script, n)
    ensures var item := Applied(n, world0[targets[n].containerName]);
            Recorded(if script.updates[n].Updated? then applied + [item] else applied, targets, world0, script, n + 1)
  {
    var item := Applied(n, world0[targets[n].containerName]);
    var more := if script.updates[n].Updated? then applied + [item] else applied;
    forall i | 0 <= i < n + 1 && script.updates[i].Updated? ensures exists k :: 0 <= k < |more| && more[k].index == i {
      if i == n {
        assert more[|applied|].index == n;
      } else {
        var k :| 0 <= k < |applied| && applied[k].index == i;
        assert more[k].index == i;
      }
    }
  }

  /** One member went through. */
  lemma ProgressStep(targets: seq<Target>, world0: World, was: World, world: World, script: Script,
                     wasStates: seq<State>, states: seq<State>, applied: seq<Applied>, index: nat)
    requires Answers(script, targets) && UniqueNames(targets) && Present(targets, world0) && index < |targets|
              && !Fails(script.updates[index])
    requires Progress(targets, world0, was, script, wasStates, applied, index)
    requires targets[index].containerName in was
    requires world == was[targets[index].containerName :=
              AfterUpdate(script.updates[index], was[targets[index].containerName])]
    requires |wasStates| == |targets| && states == wasStates[index := StateAfter(script.updates[index])]
    ensures var item := Applied(index, was[targets[index].containerName]);
            var more := if script.updates[index].Updated? then applied + [item] else applied;
            Progress(targets, world0, world, script, states, more, index + 1)
  {
    hide Recorded;
    GoesOn(script.updates, index);
    RecordStep(applied, targets, world0, script, index);
  }

  lemma GoesOn(updates: seq<UpdateAnswer>, index: nat)
    requires index < |updates| && !Fails(updates[index]) && index <= FirstFailure(updates)
    ensures index + 1 <= FirstFailure(updates)
  {
  }

  /** After the failing member: the earlier ones are as updated, the later ones untouched. */
  ghost predicate Stopped(targets: seq<Target>, world0: World, world: World, script: Script, states: seq<State>,
                          applied: seq<Applied>, failed: nat)
    requires Answers(script, targets) && Present(targets, world0)
  {
    && failed < |targets| == |states| && failed == FirstFailure(script.updates)
    && world.Keys == world0.Keys
    && (forall i :: 0 <= i <= failed ==>
        world[targets[i].containerName] == AfterUpdate(script.updates[i], world0[targets[i].containerName]))
    && (forall i :: 0 <= i <= failed ==> states[i] == StateAfter(script.updates[i]))
    && (forall i :: failed < i < |targets| ==>
        world[targets[i].containerName] == world0[targets[i].containerName] && states[i] == SkippedState)
    && (forall n :: n in world && (forall i :: 0 <= i < |targets| ==> targets[i].containerName != n) ==>
        world[n] == world0[n])
    && Recorded(applied, targets, world0, script, failed)
  }

  lemma StopsHere(targets: seq<Target>, world0: World, was: World, world: World, script: Script, wasStates: seq<State>,
                  states: seq<State>, applied: seq<Applied>, index: nat)
    requires Answers(script, targets) && UniqueNames(targets) && Present(targets, world0) && index < |targets|
              && Fails(script.updates[index])
    requires Progress(targets, world0, was, script, wasStates, applied, index)
    requires targets[index].containerName in was
    requires world == was[targets[index].containerName :=
              AfterUpdate(script.updates[index], was[targets[index].containerName])]
    requires |wasStates| == |targets| && states == wasStates[index := StateAfter(script.updates[index])]
    ensures Stopped(targets, world0, world, script, states, applied, index)
  {
    hide Recorded;
  }

  lemma NothingToUndo(targets: seq<Target>, world0: World, world: World, script: Script, states: seq<State>,
                      applied: seq<Applied>, failed: nat)
    requires Answers(script, targets) && Present(targets, world0)
    requires Stopped(targets, world0, world, script, states, applied, failed)
    requires !AllRollback(targets) || applied == []
    ensures Finished(targets, world0, world, script, states)
  {
    hide AllRollback, FirstFailure;
    assert forall i :: 0 <= i < |targets| ==> !IsUndone(script, targets, i);
  }

  lemma AllThrough(targets: seq<Target>, world0: World, world: World, script: Script, states: seq<State>,
                   applied: seq<Applied>)
    requires Answers(script, targets) && Present(targets, world0)
    requires Progress(targets, world0, world, script, states, applied, |targets|)
    ensures Finished(targets, world0, world, script, states)
  {
  }

  /** Members recorded from position `index` on are put back, the others are as the failed update left them. */
  ghost predicate Undoing(targets: seq<Target>, world0: World, world1: World, world: World, script: Script,
                          states1: seq<State>, states: seq<State>, applied: seq<Applied>, index: nat)
    requires Answers(script, targets) && Present(targets, world0)
  {
    && world.Keys == world1.Keys == world0.Keys && |states| == |states1| == |targets|
    && (forall i :: 0 <= i < |targets| ==> var n := targets[i].containerName;
          if TakenFrom(applied, index, i)
          then world[n] == RestoredImage(script.restores[i], world0[n])
               && states[i] == RestoredState(script.restores[i])
          else world[n] == world1[n] && states[i] == states1[i])
    && (forall n :: n in world && (forall i :: 0 <= i < |targets| ==> targets[i].containerName != n) ==>
        world[n] == world0[n])
  }

  ghost predicate TakenFrom(applied: seq<Applied>, index: nat, i: nat) {
    exists k :: index <= k < |applied| && applied[k].index == i
  }

  /** Already updated members are put back, last first. */
  method RollbackApplied(targets: seq<Target>, world0: World, world1: World, script: Script, states1: seq<State>,
                         applied: seq<Applied>, failed: nat)
    returns (world: World, states: seq<State>)
    requires Answers(script, targets) && UniqueNames(targets) && Present(targets, world0) && AllRollback(targets)
    requires Stopped(targets, world0, world1, script, states1, applied, failed)
    ensures Finished(targets, world0, world, script, states)
  {
    hide Undoing, UniqueNames, AllRollback, Finished, Stopped;
    world, states := world1, states1;
    var index := |applied|;
    NothingUndone(targets, world0, world1, script, states1, applied, failed);
    while index > 0
      invariant 0 <= index <= |applied| && |states| == |targets|
      invariant Undoing(targets, world0, world1, world, script, states1, states, applied, index)
    {
      index := index - 1;
      var item := applied[index];
      AppliedItem(targets, world0, world1, script, states1, applied, failed, index);
      UndoStep(targets, world0, world1, world, script, states1, states, applied, index);
      var name := targets[item.index].containerName;
      match script.restores[item.index] {
        case RestoredOk =>
          world := world[name := item.previous];
          states := states[item.index := RolledBackState];
        case RestoreFailedOn(image) =>
          world := world[name := image];
          states := states[item.index := FailedState];
      }
    }
    Undone(targets, world0, world1, world, script, states1, states, applied, failed);
  }

  function RestoredImage(a: RestoreAnswer, image: Image): Image {
    match a case RestoredOk => image case RestoreFailedOn(other) => other
  }

  function RestoredState(a: RestoreAnswer): State {
    if a.RestoredOk? then RolledBackState else FailedState
  }

  lemma NothingUndone(targets: seq<Target>, world0: World, world1: World, script: Script, states1: seq<State>,
                      applied: seq<Applied>, failed: nat)
    requires Answers(script, targets) && Present(targets, world0)
    requires Stopped(targets, world0, world1, script, states1, applied, failed)
    ensures Undoing(targets, world0, world1, world1, script, states1, states1, applied, |applied|)
              && |states1| == |targets|
  {
    hide Recorded;
  }

  lemma AppliedItem(targets: seq<Target>, world0: World, world1: World, script: Script, states1: seq<State>,
                    applied: seq<Applied>, failed: nat, k: nat)
    requires Answers(script, targets) && Present(targets, world0) && k < |applied|
    requires Stopped(targets, world0, world1, script, states1, applied, failed)
    ensures applied[k].index < |targets| && applied[k].previous == world0[targets[applied[k].index].containerName]
  {
    assert Marks(applied[k], targets, world0, script, failed);
  }

  lemma UndoStep(targets: seq<Target>, world0: World, world1: World, world: World, script: Script, states1: seq<State>,
                 states: seq<State>, applied: seq<Applied>, index: nat)
    requires Answers(script, targets) && UniqueNames(targets) && Present(targets, world0) && index < |applied|
    requires Undoing(targets, world0, world1, world, script, states1, states, applied, index + 1)
    requires applied[index].index < |targets| && |states| == |targets|
    ensures |states| == |targets|
    ensures var i := applied[index].index;
            var n := targets[i].containerName;
            Undoing(targets, world0, world1, world[n := RestoredImage(script.restores[i], world0[n])], script,
                    states1, states[i := RestoredState(script.restores[i])], applied, index)
  {
    var i := applied[index].index;
    assert TakenFrom(applied, index, i);
    forall j | 0 <= j < |targets| && j != i ensures TakenFrom(applied, index, j) <==> TakenFrom(applied, index + 1, j) {
      if TakenFrom(applied, index, j) {
        var k :| index <= k < |applied| && applied[k].index == j;
        assert k != index;
      }
    }
  }

  lemma Undone(targets: seq<Target>, world0: World, world1: World, world: World, script: Script, states1: seq<State>,
               states: seq<State>, applied: seq<Applied>, failed: nat)
    requires Answers(script, targets) && Present(targets, world0) && AllRollback(targets)
    requires Stopped(targets, world0, world1, script, states1, applied, failed)
    requires Undoing(targets, world0, world1, world, script, states1, states, applied, 0)
    ensures Finished(targets, world0, world, script, states)
  {
    hide AllRollback, FirstFailure;
    forall i | 0 <= i < |targets| ensures TakenFrom(applied, 0, i) <==> IsUndone(script, targets, i) {
      if TakenFrom(applied, 0, i) {
        var k :| 0 <= k < |applied| && applied[k].index == i;
        assert Marks(applied[k], targets, world0, script, failed);
      }
    }
  }

  /** The whole unit: order, lock, preflight, update, unlock. */
  method ExecuteAutomaticStackUnit(members: seq<Target>, world0: World, script: Script, keys: seq<string>,
                                   locks: LockTable)
    returns (targets: seq<Target>, world: World, states: seq<State>)
    requires Distinct(keys) && UniqueNames(members) && Present(members, world0)
    requires Answers(script, members)
    modifies locks
    ensures multiset(targets) == multiset(members) && Answers(script, targets) && Present(targets, world0)
    ensures Acyclic(members) ==> DependencyOrdered(targets, Services(members))
    ensures locks.held == old(locks.held)
    ensures if Keys(keys) !! old(locks.held) && Ready(script, targets)
            then Finished(targets, world0, world, script, states)
            else world == world0 && |states| == |targets| && forall i :: 0 <= i < |states| ==> states[i] == SkippedState
    // One member that did not validate, or one image that was not pulled, keeps everything as it is.
    ensures forall i :: 0 <= i < |targets| ==>
              script.validations[i] != Eligible || !script.pulls[targets[i].image] ==> world == world0
  {
    hide Finished, Acyclic, DependencyOrdered;
    ghost var fellBack;
    targets, fellBack := OrderStackUpdateTargets(members);
    SameMembers(members, targets, world0, script);
    world, states := world0, seq(|targets|, _ => SkippedState);
    var locked := locks.AcquireAll(keys);
    if !locked { return; }
    var ready := Preflight(targets, script);
    if ready {
      world, states := UpdateMembers(targets, world0, script);
    }
    locks.ReleaseAll(keys, old(locks.held));
  }

  lemma SameMembers(a: seq<Target>, b: seq<Target>, world: World, script: Script)
    requires multiset(a) == multiset(b) && UniqueNames(a) && Present(a, world) && Answers(script, a)
    ensures UniqueNames(b) && Present(b, world) && Answers(script, b)
  {
    assert forall t :: t in b ==> t in multiset(b);
    assert |multiset(a)| == |a| && |multiset(b)| == |b|;
    forall i | 0 <= i < |b| ensures b[i].containerName in world && b[i].image in script.pulls {
      assert b[i] in multiset(a);
      assert b[i] in a;
    }
    forall i, j | 0 <= i < j < |b| ensures b[i].containerName != b[j].containerName {
      if b[i] == b[j] {
        TwiceInB(b, i, j);
        TwiceInA(a, b[i]);
      } else {
        assert b[i] in multiset(a) && b[j] in multiset(a);
        assert b[i] in a && b[j] in a;
      }
    }
  }

  lemma TwiceInB(b: seq<Target>, i: nat, j: nat)
    requires i < j < |b| && b[i] == b[j]
    ensures multiset(b)[b[i]] >= 2
  {
    assert b == b[..i] + [b[i]] + b[i + 1..j] + [b[j]] + b[j + 1..];
  }

  lemma {:induction false} TwiceInA(a: seq<Target>, t: Target)
    requires UniqueNames(a)
    ensures multiset(a)[t] <= 1
  {
    if a == [] {
    } else {
      assert a == a[..|a| - 1] + [a[|a| - 1]];
      TwiceInA(a[..|a| - 1], t);
      if a[|a| - 1] == t {
        assert t !in a[..|a| - 1];
      }
    }
  }

  // ----- all or nothing -----

  /** What the reported state of a member says about its container: a failure is reported exactly where the update call
      or the restore call failed, and the image is then the one that call left behind. */
  predicate Agrees(state: State, answer: UpdateAnswer, restore: RestoreAnswer, before: Image, after: Image) {
    match state
    case UpdatedState => answer.Updated? && after == answer.image
    case CurrentState => answer.AlreadyCurrent? && after == before
    case SkippedState => after == before
    case RolledBackState => after == before && (answer.FailedRolledBack? || (answer.Updated? && restore.RestoredOk?))
    case FailedState =>
      if answer.Updated? then restore.RestoreFailedOn? && after == restore.image
      else (answer.FailedUntouched? && after == before) || (answer.FailedOn? && after == answer.image)
  }

  lemma StatesAgreeWithImages(targets: seq<Target>, world0: World, world: World, script: Script, states: seq<State>,
                              i: nat)
    requires Answers(script, targets) && Present(targets, world0) && Finished(targets, world0, world, script, states)
              && i < |targets|
    ensures Agrees(states[i], script.updates[i], script.restores[i], world0[targets[i].containerName],
                   world[targets[i].containerName])
  {
  }

  /** With rollback on every member, a failing member that kept its image and restores that succeed, every container of
      the host is back on the image it started with. */
  lemma FailedUpdateIsANoOp(targets: seq<Target>, world0: World, world: World, script: Script, states: seq<State>)
    requires Answers(script, targets) && Present(targets, world0) && Finished(targets, world0, world, script, states)
    requires var f := FirstFailure(script.updates);
             f < |targets| && (script.updates[f].FailedUntouched? || script.updates[f].FailedRolledBack?)
    requires AllRollback(targets) && forall i :: 0 <= i < |targets| ==> script.restores[i].RestoredOk?
    ensures world == world0
  {
    forall n | n in world ensures world[n] == world0[n] {
      if i :| 0 <= i < |targets| && targets[i].containerName == n {
        assert world[n] == FinalImage(script, targets, i, world0[n]);
      }
    }
  }

  /** The members around a failing one: those after it are left alone, and those updated before it are put back if every
      member allows a rollback, and keep their new image if one of them does not. */
  lemma RollbackIsForAllOrNone(targets: seq<Target>, world0: World, world: World, script: Script, states: seq<State>,
                               f: nat, i: nat)
    requires Answers(script, targets) && Present(targets, world0) && Finished(targets, world0, world, script, states)
    requires f < |targets| && !script.updates[f].Updated? && !script.updates[f].AlreadyCurrent?
    requires forall k :: 0 <= k < f ==> script.updates[k].Updated? || script.updates[k].AlreadyCurrent?
    requires i < |targets|
    ensures var before, after := world0[targets[i].containerName], world[targets[i].containerName];
            && (i > f ==> after == before && states[i] == SkippedState)
            && (i < f && script.updates[i].Updated? ==>
                if exists k :: 0 <= k < |targets| && !targets[k].rollbackEnabled
                then after == script.updates[i].image && states[i] == UpdatedState
                else match script.restores[i]
                     case RestoredOk => after == before && states[i] == RolledBackState
                     case RestoreFailedOn(image) => after == image && states[i] == FailedState)
  {
    assert FirstFailure(script.updates) == f;
  }

  /** Without a failure every member is updated or was already current. */
  lemma SuccessfulUpdateIsComplete(targets: seq<Target>, world0: World, world: World, script: Script,
                                   states: seq<State>, i: nat)
    requires Answers(script, targets) && Present(targets, world0) && Finished(targets, world0, world, script, states)
    requires FirstFailure(script.updates) == |targets| && i < |targets|
    ensures states[i] in {UpdatedState, CurrentState}
    ensures world[targets[i].containerName] == AfterUpdate(script.updates[i], world0[targets[i].containerName])
  {
  }
}
