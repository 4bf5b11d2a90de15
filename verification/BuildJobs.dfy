/** The manager of background image builds, over every interleaving of its atomic steps. */
module BuildJobs {
  import opened Common

  type Id = string
  type Host = string

  const MAX_RETAINED_BUILD_JOBS := 20
  const MAX_PENDING_BUILD_JOBS := 10
  const MAX_RUNNING := 2
  /** Six hours, in the unit of the clock. */
  const BUILD_JOB_RETENTION := 21600

  datatype Status = Queued | Running | Succeeded | Failed | Canceled

  datatype Job = Job(host: Host, status: Status, createdAt: int, completedAt: Option<int>)

  predicate Unfinished(j: Job) { j.status == Queued || j.status == Running }

  // ----- pruning -----

  predicate Expired(j: Job, now: int) {
    j.completedAt.Some? && now - j.completedAt.value > BUILD_JOB_RETENTION
  }

  ghost predicate WellFormed(jobs: map<Id, Job>) {
    forall id :: id in jobs ==> (jobs[id].completedAt.Some? <==> !Unfinished(jobs[id]))
  }

  function Finished(jobs: map<Id, Job>): set<Id> {
    set id | id in jobs && jobs[id].completedAt.Some?
  }

  /** What pruning may do, where `seen` are the jobs it found finished: it only drops those, all expired ones among
      them, then oldest first and no further than the limit asks for. */
  ghost predicate Prunes(jobs: map<Id, Job>, kept: map<Id, Job>, now: int, seen: set<Id>) {
    && (forall id :: id in kept ==> id in jobs && kept[id] == jobs[id])
    && (forall id :: id in jobs && id !in kept ==> id in seen)
    && (forall id :: id in kept && id in seen ==> !Expired(kept[id], now))
    && (|kept| <= MAX_RETAINED_BUILD_JOBS || forall id :: id in kept ==> id !in seen)
    && ((exists id :: id in jobs && id !in kept && !Expired(jobs[id], now)) ==> |kept| >= MAX_RETAINED_BUILD_JOBS)
    && (forall a, b :: a in jobs && a !in kept && !Expired(jobs[a], now) && b in kept && b in seen ==>
          jobs[a].createdAt <= kept[b].createdAt)
  }

  method DropExpired(jobs: map<Id, Job>, now: int) returns (kept: map<Id, Job>, completed: set<Id>)
    ensures kept == map id | id in jobs && !Expired(jobs[id], now) :: jobs[id]
    ensures completed == set id | id in kept && kept[id].completedAt.Some?
  {
    kept, completed := jobs, {};
    var todo := jobs.Keys;
    while todo != {}
      invariant todo <= jobs.Keys
      invariant forall id :: id in kept <==> id in jobs && (id in todo || !Expired(jobs[id], now))
      invariant forall id :: id in kept ==> kept[id] == jobs[id]
      invariant forall id :: id in completed <==> id in kept && id !in todo && kept[id].completedAt.Some?
    {
      var id :| id in todo;
      todo := todo - {id};
      if Expired(jobs[id], now) {
        kept := kept - {id};
      } else if jobs[id].completedAt.Some? {
        completed := completed + {id};
      }
    }
  }

  method Oldest(jobs: map<Id, Job>, among: set<Id>) returns (oldest: Id)
    requires among != {} && among <= jobs.Keys
    ensures oldest in among && forall id :: id in among ==> jobs[oldest].createdAt <= jobs[id].createdAt
  {
    oldest :| oldest in among;
    var todo := among - {oldest};
    while todo != {}
      invariant oldest in among && todo <= among
      invariant forall id :: id in among && id !in todo ==> jobs[oldest].createdAt <= jobs[id].createdAt
    {
      var id :| id in todo;
      todo := todo - {id};
      if jobs[id].createdAt < jobs[oldest].createdAt {
        oldest := id;
      }
    }
  }

  method PruneLocked(jobs: map<Id, Job>, now: int) returns (kept: map<Id, Job>)
    ensures Prunes(jobs, kept, now, Finished(jobs))
    ensures forall id :: id in kept && kept[id].completedAt.Some? ==> now - kept[id].completedAt.value <= 21_600
    ensures |kept| > 20 ==> forall id :: id in kept ==> kept[id].completedAt.None?
    ensures forall id :: id in jobs && jobs[id].completedAt.None? ==> id in kept
  {
    hide Expired;
    var completed;
    kept, completed := DropExpired(jobs, now);
    UnfinishedNeverExpires(jobs, now);
    if |kept| <= MAX_RETAINED_BUILD_JOBS { return; }
    while completed != {}
      invariant forall id :: id in kept ==> id in jobs && kept[id] == jobs[id] && !Expired(jobs[id], now)
      invariant forall id :: id in jobs && jobs[id].completedAt.None? && !Expired(jobs[id], now) ==> id in kept
      invariant forall id :: id in completed <==> id in kept && kept[id].completedAt.Some?
      invariant |kept| >= MAX_RETAINED_BUILD_JOBS
      invariant forall a, b :: a in jobs && a !in kept && !Expired(jobs[a], now) && b in completed ==>
                jobs[a].createdAt <= jobs[b].createdAt
    {
      if |kept| <= MAX_RETAINED_BUILD_JOBS { break; }
      var id := Oldest(jobs, completed);
      OneLess(kept, id);
      kept := kept - {id};
      completed := completed - {id};
    }
  }

  lemma OneLess(m: map<Id, Job>, id: Id)
    requires id in m
    ensures |m - {id}| == |m| - 1
  {
    assert (m - {id}).Keys == m.Keys - {id};
    assert |m.Keys - {id}| == |m.Keys| - 1;
  }

  lemma UnfinishedNeverExpires(jobs: map<Id, Job>, now: int)
    ensures forall id :: id in jobs && jobs[id].completedAt.None? ==> !Expired(jobs[id], now)
    ensures forall id :: id in jobs && jobs[id].completedAt.Some? ==>
              (Expired(jobs[id], now) <==> now - jobs[id].completedAt.value > 21_600)
  {
  }

  // ----- the manager -----

  /** What a start or a listing that holds the manager's lock is doing. While it prunes, `seen` are the jobs it found
      finished and `open` those it found unfinished; while it counts, `counted` are the pending ones of its host. */
  datatype Starter = Starter(id: Id, host: Host, todo: set<Id>, counted: set<Id>)
  datatype Goal = Goal(id: Id, host: Host)
  datatype Lock =
    | Free
    | Pruning(goal: Option<Goal>, todo: set<Id>, seen: set<Id>, open: set<Id>)
    | Counting(starter: Starter)

  /** `waiting` are goroutines that have not got a slot yet, `holders` the ones that hold one of the two slots. */
  datatype Manager = Manager(jobs: map<Id, Job>, waiting: set<Id>, holders: set<Id>, lock: Lock)

  const INITIAL := Manager(map[], {}, {}, Free)

  /** The manager's lock covers the steps of a start and a listing, each of which looks at one job after the other.
      Builds change their own status under their own locks, at any time in between. */
  datatype Step =
    | Begin(goal: Option<Goal>)
    | PruneLook(id: Id)
    | PruneEnd(now: int, kept: map<Id, Job>)
    | StartLook(id: Id)
    | StartInsert(createdAt: int)
    | Acquire(id: Id)
    | GiveUp(id: Id, now: int)
    | Run(id: Id)
    | Complete(id: Id, status: Status, now: int)
    | ReleaseSlot(id: Id)

  function Pending(jobs: map<Id, Job>, host: Host): set<Id> {
    set id | id in jobs && jobs[id].host == host && Unfinished(jobs[id])
  }

  predicate Unused(m: Manager, id: Id) {
    id !in m.jobs && id !in m.waiting && id !in m.holders
  }

  /** Identifiers are random and never repeat. */
  ghost predicate Enabled(m: Manager, s: Step) {
    match s
    case Begin(goal) => m.lock.Free? && (goal.Some? ==> Unused(m, goal.value.id))
    case PruneLook(id) => m.lock.Pruning? && id in m.lock.todo && id in m.jobs
    case PruneEnd(now, kept) => m.lock.Pruning? && m.lock.todo == {} && Prunes(m.jobs, kept, now, m.lock.seen)
    case StartLook(id) => m.lock.Counting? && id in m.lock.starter.todo && id in m.jobs
    case StartInsert(_) => m.lock.Counting? && m.lock.starter.todo == {}
    case Acquire(id) => id in m.waiting && |m.holders| < MAX_RUNNING
    case GiveUp(id, _) => id in m.waiting
    case Run(id) => id in m.holders && id in m.jobs && m.jobs[id].status == Queued
    case Complete(id, status, _) =>
      id in m.holders && id in m.jobs && m.jobs[id].status == Running && status in {Succeeded, Failed, Canceled}
    case ReleaseSlot(id) => id in m.holders && (id in m.jobs ==> !Unfinished(m.jobs[id]))
  }

  ghost function Next(m: Manager, s: Step): Manager
    requires Enabled(m, s)
  {
    match s
    case Begin(goal) => m.(lock := Pruning(goal, m.jobs.Keys, {}, {}))
    case PruneLook(id) => m.(lock := Sorted(m.lock, id, m.jobs[id]))
    case PruneEnd(_, kept) =>
      m.(jobs := kept,
         lock := if m.lock.goal.None? then Free
                 else Counting(Starter(m.lock.goal.value.id, m.lock.goal.value.host, kept.Keys, {})))
    case StartLook(id) => m.(lock := Counting(Looked(m.lock.starter, id, m.jobs[id])))
    case StartInsert(createdAt) =>
      var st := m.lock.starter;
      if |st.counted| >= MAX_PENDING_BUILD_JOBS then m.(lock := Free)
      else Manager(m.jobs[st.id := Job(st.host, Queued, createdAt, None)], m.waiting + {st.id}, m.holders, Free)
    case Acquire(id) => m.(waiting := m.waiting - {id}, holders := m.holders + {id})
    case GiveUp(id, now) =>
      if id in m.jobs then m.(jobs := m.jobs[id := Ended(m.jobs[id], Canceled, now)], waiting := m.waiting - {id})
      else m.(waiting := m.waiting - {id})
    case Run(id) => m.(jobs := m.jobs[id := m.jobs[id].(status := Running)])
    case Complete(id, status, now) => m.(jobs := m.jobs[id := Ended(m.jobs[id], status, now)])
    case ReleaseSlot(id) => m.(holders := m.holders - {id})
  }

  /** One more job is sorted into those found finished and those found unfinished. */
  function Sorted(lock: Lock, id: Id, j: Job): Lock
    requires lock.Pruning?
  {
    if j.completedAt.Some? then lock.(todo := lock.todo - {id}, seen := lock.seen + {id})
    else lock.(todo := lock.todo - {id}, open := lock.open + {id})
  }

  function Looked(st: Starter, id: Id, j: Job): Starter {
    st.(todo := st.todo - {id}, counted := if j.host == st.host && Unfinished(j) then st.counted + {id} else st.counted)
  }

  function Ended(j: Job, status: Status, now: int): Job {
    j.(status := status, completedAt := Some(now))
  }

  ghost predicate Slots(m: Manager) {
    && WellFormed(m.jobs)
    && |m.holders| <= MAX_RUNNING && m.waiting !! m.holders
    && (forall id :: id in m.waiting ==> id in m.jobs && m.jobs[id].status == Queued)
    && (forall id :: id in m.jobs && m.jobs[id].status == Running ==> id in m.holders)
    && (forall id :: id in m.jobs && m.jobs[id].status == Queued ==> id in m.waiting || id in m.holders)
  }

  ghost predicate Limits(m: Manager) {
    forall h :: |Pending(m.jobs, h)| <= MAX_PENDING_BUILD_JOBS
  }

  /** What a start under way has counted, together with what it has not looked at, covers every pending job of its host;
      and what a pruning has found finished is finished still. */
  ghost predicate Looking(m: Manager) {
    match m.lock
    case Free => true
    case Pruning(goal, todo, seen, open) =>
      && (goal.Some? ==> Unused(m, goal.value.id))
      && m.jobs.Keys == todo + seen + open
      && forall id :: id in seen ==> id in m.jobs && m.jobs[id].completedAt.Some?
    case Counting(st) =>
      && Unused(m, st.id) && st.todo <= m.jobs.Keys
      && forall id :: id in Pending(m.jobs, st.host) ==> id in st.counted || id in st.todo
  }

  ghost predicate Inv(m: Manager) {
    Slots(m) && Limits(m) && Looking(m)
  }

  lemma PrunedPending(jobs: map<Id, Job>, kept: map<Id, Job>, now: int, seen: set<Id>, h: Host)
    requires WellFormed(jobs) && Prunes(jobs, kept, now, seen)
    requires forall id :: id in seen && id in jobs ==> jobs[id].completedAt.Some?
    ensures WellFormed(kept) && Pending(kept, h) == Pending(jobs, h)
    ensures forall id :: id in kept ==> id in jobs && kept[id] == jobs[id]
    ensures forall id :: id in jobs && Unfinished(jobs[id]) ==> id in kept
  {
  }

  lemma AddedPending(jobs: map<Id, Job>, id: Id, host: Host, now: int, h: Host)
    requires id !in jobs
    ensures Pending(jobs[id := Job(host, Queued, now, None)], h) ==
            if h == host then Pending(jobs, h) + {id} else Pending(jobs, h)
    ensures id !in Pending(jobs, h)
  {
  }

  lemma PruneKeepsSlots(m: Manager, s: Step)
    requires Inv(m) && Enabled(m, s) && s.PruneEnd?
    ensures Slots(Next(m, s)) && Looking(Next(m, s))
  {
    hide Prunes, Pending, Limits;
    PrunedPending(m.jobs, s.kept, s.now, m.lock.seen, "");
    forall h ensures Pending(s.kept, h) <= s.kept.Keys { PendingIsListed(s.kept, h); }
  }

  lemma PendingIsListed(jobs: map<Id, Job>, h: Host)
    ensures Pending(jobs, h) <= jobs.Keys
  {
  }

  lemma PruneKeepsInv(m: Manager, s: Step)
    requires Inv(m) && Enabled(m, s) && s.PruneEnd?
    ensures Inv(Next(m, s))
  {
    hide Prunes, Pending, Slots, Looking;
    PruneKeepsSlots(m, s);
    forall h ensures |Pending(s.kept, h)| <= MAX_PENDING_BUILD_JOBS {
      PendingBeforeAndAfter(m, s, h);
    }
  }

  lemma PendingBeforeAndAfter(m: Manager, s: Step, h: Host)
    requires Inv(m) && Enabled(m, s) && s.PruneEnd?
    ensures Pending(s.kept, h) == Pending(m.jobs, h)
  {
    hide Prunes, Pending, Limits;
    PrunedPending(m.jobs, s.kept, s.now, m.lock.seen, h);
  }

  /** However builds end while it looks: after a pruning at most twenty jobs remain, or every one that remains was
      unfinished when it was looked at. */
  lemma SurplusWasUnfinished(steps: seq<Step>, s: Step)
    requires IsRun(INITIAL, steps) && Enabled(After(INITIAL, steps), s) && s.PruneEnd?
    ensures var m := After(INITIAL, steps);
            |Next(m, s).jobs| <= MAX_RETAINED_BUILD_JOBS || Next(m, s).jobs.Keys <= m.lock.open
  {
    forall g { EmptyPending(g); }
    RunKeepsInv(INITIAL, steps);
  }

  /** A job is put there only while it is unfinished. */
  lemma OpenWasUnfinished(m: Manager, s: Step, id: Id)
    requires Enabled(m, s) && m.lock.Pruning? && Next(m, s).lock.Pruning?
    requires id !in m.lock.open && id in Next(m, s).lock.open
    ensures s == PruneLook(id) && m.jobs[id].completedAt.None?
  {
  }

  lemma InsertKeepsSlots(m: Manager, s: Step)
    requires Inv(m) && Enabled(m, s) && s.StartInsert?
    ensures Slots(Next(m, s)) && Looking(Next(m, s))
  {
    hide Pending;
  }

  /** When everything was looked at, the jobs counted bound the pending ones. */
  lemma InsertKeepsLimits(m: Manager, s: Step)
    requires Inv(m) && Enabled(m, s) && s.StartInsert?
    ensures Limits(Next(m, s))
  {
    hide Pending, Slots;
    var st := m.lock.starter;
    forall h ensures |Pending(Next(m, s).jobs, h)| <= MAX_PENDING_BUILD_JOBS {
      AddedPending(m.jobs, st.id, st.host, s.createdAt, h);
      if h == st.host { SubsetSize(Pending(m.jobs, h), st.counted); }
    }
  }

  lemma FinishKeepsPending(jobs: map<Id, Job>, id: Id, j: Job, h: Host)
    requires id in jobs && j.host == jobs[id].host && (Unfinished(j) ==> Unfinished(jobs[id]))
    ensures Pending(jobs[id := j], h) <= Pending(jobs, h) && |Pending(jobs[id := j], h)| <= |Pending(jobs, h)|
  {
    SubsetSize(Pending(jobs[id := j], h), Pending(jobs, h));
  }

  /** A build that changes its status while somebody counts or prunes. */
  lemma BuildKeepsInv(m: Manager, s: Step)
    requires Inv(m) && Enabled(m, s) && (s.GiveUp? || s.Run? || s.Complete?)
    ensures Inv(Next(m, s))
  {
    var id := s.id;
    var j := if s.Run? then m.jobs[id].(status := Running)
             else Ended(m.jobs[id], if s.GiveUp? then Canceled else s.status, s.now);
    assert Next(m, s).jobs == m.jobs[id := j];
    forall h ensures Pending(Next(m, s).jobs, h) <= Pending(m.jobs, h)
                     && |Pending(Next(m, s).jobs, h)| <= MAX_PENDING_BUILD_JOBS {
      FinishKeepsPending(m.jobs, id, j, h);
    }
  }

  /** Taking and releasing a slot touches neither jobs nor lock. */
  lemma SlotKeepsInv(m: Manager, s: Step)
    requires Inv(m) && Enabled(m, s) && (s.Acquire? || s.ReleaseSlot?)
    ensures Inv(Next(m, s))
  {
    hide Pending, Prunes;
  }

  /** Looking changes what is known of the jobs, not the jobs. */
  lemma LookKeepsInv(m: Manager, s: Step)
    requires Inv(m) && Enabled(m, s) && (s.Begin? || s.PruneLook? || s.StartLook?)
    ensures Inv(Next(m, s))
  {
    hide Pending, Prunes;
    if s.StartLook? { PendingMember(m.jobs, m.lock.starter.host, s.id); }
  }

  lemma StepKeepsInv(m: Manager, s: Step)
    requires Inv(m) && Enabled(m, s)
    ensures Inv(Next(m, s))
  {
    hide Prunes, Pending, Slots, Limits, Looking;
    match s {
      case Begin(_) => LookKeepsInv(m, s);
      case PruneLook(_) => LookKeepsInv(m, s);
      case PruneEnd(_, _) => PruneKeepsInv(m, s);
      case StartLook(_) => LookKeepsInv(m, s);
      case StartInsert(_) =>
        InsertKeepsSlots(m, s);
        InsertKeepsLimits(m, s);
      case Acquire(_) => SlotKeepsInv(m, s);
      case GiveUp(_, _) => BuildKeepsInv(m, s);
      case Run(_) => BuildKeepsInv(m, s);
      case Complete(_, _, _) => BuildKeepsInv(m, s);
      case ReleaseSlot(_) => SlotKeepsInv(m, s);
    }
  }

  lemma PendingMember(jobs: map<Id, Job>, host: Host, id: Id)
    requires id in jobs
    ensures id in Pending(jobs, host) <==> jobs[id].host == host && Unfinished(jobs[id])
  {
  }

  ghost predicate IsRun(m: Manager, steps: seq<Step>)
    decreases |steps|
  {
    steps == [] || (Enabled(m, steps[0]) && IsRun(Next(m, steps[0]), steps[1..]))
  }

  ghost function After(m: Manager, steps: seq<Step>): Manager
    requires IsRun(m, steps)
    decreases |steps|
  {
    if steps == [] then m else After(Next(m, steps[0]), steps[1..])
  }

  lemma {:induction false} OneMoreStep(m: Manager, steps: seq<Step>, s: Step)
    requires IsRun(m, steps) && Enabled(After(m, steps), s)
    ensures IsRun(m, steps + [s]) && After(m, steps + [s]) == Next(After(m, steps), s)
    decreases |steps|
  {
    hide Next, Enabled;
    if steps == [] {
      assert [s][1..] == [] && steps + [s] == [s];
    } else {
      assert (steps + [s])[1..] == steps[1..] + [s];
      OneMoreStep(Next(m, steps[0]), steps[1..], s);
    }
  }

  lemma {:induction false} RunKeepsInv(m: Manager, steps: seq<Step>)
    requires Inv(m) && IsRun(m, steps)
    ensures Inv(After(m, steps))
    decreases |steps|
  {
    hide Inv, Next, Enabled;
    if steps == [] {
    } else {
      StepKeepsInv(m, steps[0]);
      RunKeepsInv(Next(m, steps[0]), steps[1..]);
    }
  }

  /** Over every run: at most ten queued or running builds on a host, at most two running on all hosts. */
  lemma LimitsHold(steps: seq<Step>, h: Host)
    requires IsRun(INITIAL, steps)
    ensures var m := After(INITIAL, steps);
            && |set id | id in m.jobs && m.jobs[id].host == h && m.jobs[id].status in {Queued, Running}| <= 10
            && |set id | id in m.jobs && m.jobs[id].status == Running| <= 2
  {
    forall g { EmptyPending(g); }
    RunKeepsInv(INITIAL, steps);
    var m := After(INITIAL, steps);
    assert (set id | id in m.jobs && m.jobs[id].host == h && m.jobs[id].status in {Queued, Running}) ==
           Pending(m.jobs, h);
    SubsetSize((set id | id in m.jobs && m.jobs[id].status == Running), m.holders);
  }

  lemma EmptyPending(h: Host)
    ensures Pending(map[], h) == {}
  {
  }

  /** The ways a status may go: a queued build starts or is cancelled, a running one ends. */
  predicate MayBecome(before: Status, after: Status) {
    || (before == Queued && after in {Running, Canceled})
    || (before == Running && after in {Succeeded, Failed, Canceled})
  }

  /** One step neither changes a finished job nor drops an unfinished one, and moves a status forward only. */
  lemma StepRespectsStatus(m: Manager, s: Step, id: Id)
    requires Inv(m) && Enabled(m, s) && id in m.jobs
    ensures id in Next(m, s).jobs && Next(m, s).jobs[id].status != m.jobs[id].status ==>
              MayBecome(m.jobs[id].status, Next(m, s).jobs[id].status)
    ensures !Unfinished(m.jobs[id]) && id in Next(m, s).jobs ==> Next(m, s).jobs[id] == m.jobs[id]
    ensures Unfinished(m.jobs[id]) ==> id in Next(m, s).jobs
    ensures id in Next(m, s).jobs ==>
              Next(m, s).jobs[id].host == m.jobs[id].host && Next(m, s).jobs[id].createdAt == m.jobs[id].createdAt
  {
    if s.PruneEnd? {
      assert id !in s.kept ==> id in m.lock.seen;
    }
  }

  predicate NotStarting(m: Manager, id: Id) {
    && (m.lock.Pruning? && m.lock.goal.Some? ==> m.lock.goal.value.id != id)
    && (m.lock.Counting? ==> m.lock.starter.id != id)
  }

  /** No start under way, and none of the run, uses the identifier. */
  ghost predicate Fresh(m: Manager, steps: seq<Step>, id: Id)
    requires IsRun(m, steps)
    decreases |steps|
  {
    && NotStarting(m, id)
    && (steps == [] || Fresh(Next(m, steps[0]), steps[1..], id))
  }

  lemma StepBringsNothingBack(m: Manager, s: Step, id: Id)
    requires Enabled(m, s) && id !in m.jobs && NotStarting(m, id)
    ensures id !in Next(m, s).jobs
  {
  }

  /** Over every run: once finished, a job keeps its status for as long as it is listed at all. */
  lemma {:induction false} FinishedIsFinal(m: Manager, steps: seq<Step>, id: Id, j: Job)
    requires Inv(m) && IsRun(m, steps) && Fresh(m, steps, id) && !Unfinished(j)
    requires id in m.jobs ==> m.jobs[id] == j
    ensures id in After(m, steps).jobs ==> After(m, steps).jobs[id] == j
    decreases |steps|
  {
    hide Inv, Enabled, Next;
    if steps == [] {
    } else {
      StepKeepsInv(m, steps[0]);
      if id in m.jobs {
        StepRespectsStatus(m, steps[0], id);
      } else {
        StepBringsNothingBack(m, steps[0], id);
      }
      FinishedIsFinal(Next(m, steps[0]), steps[1..], id, j);
    }
  }

  // ----- a start from beginning to end -----

  lemma {:induction false} RunsJoin(m: Manager, a: seq<Step>, b: seq<Step>)
    requires IsRun(m, a) && IsRun(After(m, a), b)
    ensures IsRun(m, a + b) && After(m, a + b) == After(After(m, a), b)
    decreases |a|
  {
    hide Next, Enabled;
    if a == [] {
      assert a + b == b;
    } else {
      assert (a + b)[1..] == a[1..] + b && (a + b)[0] == a[0];
      RunsJoin(Next(m, a[0]), a[1..], b);
    }
  }

  lemma OneStepRun(m: Manager, s: Step)
    requires Enabled(m, s)
    ensures IsRun(m, [s]) && After(m, [s]) == Next(m, s)
  {
    assert [s][1..] == [];
  }

  /** Undisturbed, a pruning sorts all jobs as they are. */
  lemma {:induction false} LookAtAll(m: Manager) returns (steps: seq<Step>)
    requires m.lock.Pruning? && m.lock.todo <= m.jobs.Keys
    ensures IsRun(m, steps)
    ensures After(m, steps) == m.(lock := Pruning(m.lock.goal, {}, m.lock.seen + m.lock.todo * Finished(m.jobs),
                                                  m.lock.open + (m.lock.todo - Finished(m.jobs))))
    decreases |m.lock.todo|
  {
    if m.lock.todo == {} {
      steps := [];
    } else {
      var id :| id in m.lock.todo;
      var next := Next(m, PruneLook(id));
      var rest := LookAtAll(next);
      steps := [PruneLook(id)] + rest;
      assert steps[1..] == rest;
      assert m.lock.seen + m.lock.todo * Finished(m.jobs) == next.lock.seen + next.lock.todo * Finished(m.jobs);
      assert m.lock.open + (m.lock.todo - Finished(m.jobs)) == next.lock.open + (next.lock.todo - Finished(m.jobs));
    }
  }

  /** Undisturbed, a count finds all pending jobs of the host. */
  lemma {:induction false} CountAll(m: Manager) returns (steps: seq<Step>)
    requires m.lock.Counting? && m.lock.starter.todo <= m.jobs.Keys
    ensures IsRun(m, steps)
    ensures var st := m.lock.starter;
            After(m, steps) ==
            m.(lock := Counting(Starter(st.id, st.host, {}, st.counted + st.todo * Pending(m.jobs, st.host))))
    decreases |m.lock.starter.todo|
  {
    var st := m.lock.starter;
    if st.todo == {} {
      steps := [];
    } else {
      var id :| id in st.todo;
      var next := Next(m, StartLook(id));
      var rest := CountAll(next);
      steps := [StartLook(id)] + rest;
      assert steps[1..] == rest;
      assert st.counted + st.todo * Pending(m.jobs, st.host) ==
             next.lock.starter.counted + next.lock.starter.todo * Pending(m.jobs, st.host);
    }
  }

  /** The steps of an undisturbed start, and where they end. */
  lemma UndisturbedStart(m: Manager, id: Id, host: Host, createdAt: int, now: int, kept: map<Id, Job>)
    returns (steps: seq<Step>)
    requires Inv(m) && m.lock.Free? && Unused(m, id) && Prunes(m.jobs, kept, now, Finished(m.jobs))
    ensures IsRun(m, steps)
    ensures After(m, steps) ==
            if |Pending(m.jobs, host)| >= MAX_PENDING_BUILD_JOBS then m.(jobs := kept)
            else Manager(kept[id := Job(host, Queued, createdAt, None)], m.waiting + {id}, m.holders, Free)
  {
    hide Prunes, Pending, IsRun, After, Slots, Limits;
    OneStepRun(m, Begin(Some(Goal(id, host))));
    steps := [Begin(Some(Goal(id, host)))];
    var looks := LookAtAll(After(m, steps));
    RunsJoin(m, steps, looks);
    steps := steps + looks;
    assert After(m, steps).lock.seen == Finished(m.jobs);
    OneStepRun(After(m, steps), PruneEnd(now, kept));
    RunsJoin(m, steps, [PruneEnd(now, kept)]);
    steps := steps + [PruneEnd(now, kept)];
    var counts := CountAll(After(m, steps));
    RunsJoin(m, steps, counts);
    steps := steps + counts;
    SamePending(m, kept, now, host);
    OneStepRun(After(m, steps), StartInsert(createdAt));
    RunsJoin(m, steps, [StartInsert(createdAt)]);
    steps := steps + [StartInsert(createdAt)];
  }

  lemma SamePending(m: Manager, kept: map<Id, Job>, now: int, host: Host)
    requires Inv(m) && Prunes(m.jobs, kept, now, Finished(m.jobs))
    ensures Pending(kept, host) == Pending(m.jobs, host) && {} + kept.Keys * Pending(kept, host) == Pending(kept, host)
  {
    hide Prunes;
    PrunedPending(m.jobs, kept, now, Finished(m.jobs), host);
  }

  /** Counting the queued and running builds of a host. */
  method CountPending(jobs: map<Id, Job>, host: Host) returns (pending: nat)
    ensures pending == |Pending(jobs, host)|
  {
    pending := 0;
    ghost var counted: set<Id> := {};
    var todo := jobs.Keys;
    while todo != {}
      invariant todo <= jobs.Keys
      invariant forall id :: id in counted <==> id !in todo && id in Pending(jobs, host)
      invariant pending == |counted|
    {
      var id :| id in todo;
      todo := todo - {id};
      if jobs[id].host == host && (jobs[id].status == Queued || jobs[id].status == Running) {
        pending := pending + 1;
        counted := counted + {id};
      }
    }
    assert counted == Pending(jobs, host);
  }

  /** The object: the method that holds its lock while it changes the job map. */
  class BuildJobManager {
    var jobs: map<Id, Job>
    ghost var waiting: set<Id>
    ghost var holders: set<Id>

    ghost function State(): Manager
      reads this
    {
      Manager(jobs, waiting, holders, Free)
    }

    constructor ()
      ensures State() == INITIAL
    {
      jobs, waiting, holders := map[], {}, {};
    }

    /** Left to itself, a start is a run of these steps, and accepts exactly below the limit. */
    method StartJob(id: Id, host: Host, createdAt: int, now: int) returns (accepted: bool, ghost steps: seq<Step>)
      requires Inv(State()) && Unused(State(), id)
      modifies this
      ensures IsRun(old(State()), steps) && State() == After(old(State()), steps) && Inv(State())
      ensures accepted <==> |Pending(old(jobs), host)| < 10
      ensures accepted ==> id in jobs && jobs[id] == Job(host, Queued, createdAt, None) && id in waiting
    {
      hide Prunes, Inv, Pending, IsRun, After;
      ghost var m := State();
      var kept := PruneLocked(jobs, now);
      steps := UndisturbedStart(m, id, host, createdAt, now, kept);
      SamePending(m, kept, now, host);
      RunKeepsInv(m, steps);
      jobs := kept;
      var pending := CountPending(jobs, host);
      if pending >= MAX_PENDING_BUILD_JOBS { return false, steps; }
      jobs := jobs[id := Job(host, Queued, createdAt, None)];
      waiting := waiting + {id};
      accepted := true;
    }
  }
}
