/** One container-event watcher per host, over every interleaving of watch, release and finish. */
module HostWatch {
  import opened Common

  type Host = string
  type Generation = nat

  /** `started` names the host of every watcher ever started, `releasing` the handles a release has taken out of
      the map but not cancelled yet, `finishing` the watchers that returned but have not taken the lock yet. */
  datatype Watchers = Watchers(
    active: map<Host, Generation>, generation: nat, parentDone: bool,
    started: map<Generation, Host>, cancelled: set<Generation>,
    releasing: set<Generation>, finishing: set<Generation>)

  const INITIAL := Watchers(map[], 0, false, map[], {}, {}, {})

  /** The atomic steps: everything between taking and leaving the lock, and each cancel call outside it. */
  datatype Step =
    | Watch(host: Host)
    | ReleaseTake(host: Host)
    | ReleaseCancel(gen: Generation)
    | FinishCancel(gen: Generation)
    | FinishLock(gen: Generation)
    | Shutdown

  predicate Enabled(w: Watchers, s: Step) {
    match s
    case ReleaseCancel(g) => g in w.releasing
    case FinishCancel(g) => g in w.started && g !in w.finishing
    case FinishLock(g) => g in w.finishing && g in w.started
    case _ => true
  }

  function Next(w: Watchers, s: Step): Watchers
    requires Enabled(w, s)
  {
    match s
    case Watch(h) =>
      if h == "" || w.parentDone then w
      else
        var g := w.generation + 1;
        w.(active := w.active[h := g], generation := g, started := w.started[g := h],
           cancelled := if h in w.active then w.cancelled + {w.active[h]} else w.cancelled)
    case ReleaseTake(h) =>
      if h in w.active then w.(active := w.active - {h}, releasing := w.releasing + {w.active[h]}) else w
    case ReleaseCancel(g) => w.(cancelled := w.cancelled + {g}, releasing := w.releasing - {g})
    case FinishCancel(g) => w.(cancelled := w.cancelled + {g}, finishing := w.finishing + {g})
    case FinishLock(g) =>
      w.(finishing := w.finishing - {g},
         active := if w.started[g] in w.active && w.active[w.started[g]] == g then w.active - {w.started[g]}
              else w.active)
    case Shutdown => w.(parentDone := true, cancelled := w.cancelled + w.started.Keys)
  }

  predicate Live(w: Watchers, g: Generation) {
    g in w.started && g !in w.cancelled
  }

  ghost predicate Inv(w: Watchers) {
    && (forall g :: g in w.started ==> 0 < g <= w.generation)
    && (forall h :: h in w.active ==> w.active[h] in w.started && w.started[w.active[h]] == h)
    && (forall h :: h in w.active ==> w.active[h] !in w.releasing)
    && (forall g :: g in w.releasing || g in w.cancelled ==> g in w.started)
    && (forall g :: g in w.finishing ==> g in w.started && g in w.cancelled)
    && (forall g :: Live(w, g) ==> g in w.releasing || (w.started[g] in w.active && w.active[w.started[g]] == g))
    && "" !in w.active && (w.parentDone ==> forall g :: g in w.started ==> g in w.cancelled)
    && (!w.parentDone ==> forall h :: h in w.active && w.active[h] in w.cancelled ==> w.active[h] in w.finishing)
  }

  lemma WatchKeepsInv(w: Watchers, h: Host)
    requires Inv(w)
    ensures Inv(Next(w, Watch(h)))
  {
  }

  lemma StepKeepsInv(w: Watchers, s: Step)
    requires Inv(w) && Enabled(w, s)
    ensures Inv(Next(w, s))
  {
    match s {
      case Watch(h) => WatchKeepsInv(w, h);
      case ReleaseTake(_) =>
      case ReleaseCancel(_) =>
      case FinishCancel(_) =>
      case FinishLock(_) =>
      case Shutdown =>
    }
  }

  ghost predicate IsRun(w: Watchers, steps: seq<Step>)
    decreases |steps|
  {
    steps == [] || (Enabled(w, steps[0]) && IsRun(Next(w, steps[0]), steps[1..]))
  }

  function After(w: Watchers, steps: seq<Step>): Watchers
    requires IsRun(w, steps)
    decreases |steps|
  {
    if steps == [] then w else After(Next(w, steps[0]), steps[1..])
  }

  lemma {:induction false} RunKeepsInv(w: Watchers, steps: seq<Step>)
    requires Inv(w) && IsRun(w, steps)
    ensures Inv(After(w, steps)) && w.generation <= After(w, steps).generation
    ensures forall g :: g in w.started ==> g in After(w, steps).started && After(w, steps).started[g] == w.started[g]
    decreases |steps|
  {
    hide Inv;
    if steps == [] {
    } else {
      StepKeepsInv(w, steps[0]);
      StepKeepsHistory(w, steps[0]);
      RunKeepsInv(Next(w, steps[0]), steps[1..]);
    }
  }

  /** A generation is given out once: a started watcher is never renamed, and a new one gets a new number. */
  lemma StepKeepsHistory(w: Watchers, s: Step)
    requires Inv(w) && Enabled(w, s)
    ensures w.generation <= Next(w, s).generation
    ensures forall g :: g in w.started ==> g in Next(w, s).started && Next(w, s).started[g] == w.started[g]
    ensures s.Watch? && s.host != "" && !w.parentDone ==> Next(w, s).active[s.host] !in w.started
  {
  }

  /** Over every run: each live watcher is the registered one of its host or is held by a release that is about to
      cancel it, so without a release under way a host has at most one. */
  lemma AtMostOneWatcherPerHost(steps: seq<Step>, g: Generation, g': Generation)
    requires IsRun(INITIAL, steps)
    ensures var w := After(INITIAL, steps);
            && (Live(w, g) ==> g in w.releasing || (w.started[g] in w.active && w.active[w.started[g]] == g))
            && (Live(w, g) && Live(w, g') && w.started[g] == w.started[g'] && g != g' ==>
                g in w.releasing || g' in w.releasing)
  {
    RunKeepsInv(INITIAL, steps);
  }

  /** Over every run: once the server shuts down no watcher lives, and none is started any more; a nameless host never
      has one. */
  lemma NothingLivesAfterShutdown(steps: seq<Step>, g: Generation, h: Host)
    requires IsRun(INITIAL, steps)
    ensures var w := After(INITIAL, steps);
            && "" !in w.active
            && (w.parentDone ==> !Live(w, g) && Next(w, Watch(h)) == w)
  {
    RunKeepsInv(INITIAL, steps);
  }

  /** An old watcher finishing never unregisters its successor: only its own entry can go. */
  lemma FinishingSparesTheSuccessor(w: Watchers, g: Generation, h: Host)
    requires Inv(w) && Enabled(w, FinishLock(g))
    requires h in w.active && w.active[h] != g
    ensures h in Next(w, FinishLock(g)).active && Next(w, FinishLock(g)).active[h] == w.active[h]
  {
  }

  ghost function LiveHosts(w: Watchers): set<Host> {
    set g | g in w.started && g !in w.cancelled :: w.started[g]
  }

  /** When nothing is half done and the server is up, the map names exactly the hosts with a live watcher. */
  lemma QuietMapIsExact(steps: seq<Step>)
    requires IsRun(INITIAL, steps)
    requires var w := After(INITIAL, steps); w.releasing == {} && w.finishing == {} && !w.parentDone
    ensures var w := After(INITIAL, steps); w.active.Keys == LiveHosts(w)
  {
    RunKeepsInv(INITIAL, steps);
    var w := After(INITIAL, steps);
    forall h ensures h in w.active <==> h in LiveHosts(w) {
      if h in w.active {
        assert Live(w, w.active[h]);
      }
      if h in LiveHosts(w) {
        var g :| g in w.started && g !in w.cancelled && w.started[g] == h;
        assert Live(w, g);
      }
    }
  }

  /** The object, one method per critical section. */
  class HostWatchers {
    var active: map<Host, Generation>
    var generation: nat
    var parentDone: bool
    ghost var started: map<Generation, Host>
    ghost var releasing: set<Generation>
    ghost var finishing: set<Generation>
    var cancelled: set<Generation>

    ghost function State(): Watchers
      reads this
    {
      Watchers(active, generation, parentDone, started, cancelled, releasing, finishing)
    }

    constructor ()
      ensures State() == INITIAL
    {
      active, generation, parentDone, cancelled := map[], 0, false, {};
      started, releasing, finishing := map[], {}, {};
    }

    method WatchHost(hostname: Host)
      requires Inv(State())
      modifies this
      ensures State() == Next(old(State()), Watch(hostname)) && Inv(State())
    {
      StepKeepsInv(State(), Watch(hostname));
      if hostname == "" { return; }
      if parentDone { return; }
      if hostname in active {
        cancelled := cancelled + {active[hostname]};
      }
      generation := generation + 1;
      started := started[generation := hostname];
      active := active[hostname := generation];
    }

    method ReleaseLocked(hostname: Host) returns (handle: Option<Generation>)
      requires Inv(State())
      modifies this
      ensures State() == Next(old(State()), ReleaseTake(hostname)) && Inv(State())
      ensures handle == if hostname in old(active) then Some(old(active)[hostname]) else None
    {
      StepKeepsInv(State(), ReleaseTake(hostname));
      handle := None;
      if hostname in active {
        handle := Some(active[hostname]);
        releasing := releasing + {active[hostname]};
        active := active - {hostname};
      }
    }

    method FinishedLocked(hostname: Host, gen: Generation)
      requires Inv(State()) && gen in finishing && gen in started && started[gen] == hostname
      modifies this
      ensures State() == Next(old(State()), FinishLock(gen)) && Inv(State())
    {
      StepKeepsInv(State(), FinishLock(gen));
      finishing := finishing - {gen};
      if hostname in active && active[hostname] == gen {
        active := active - {hostname};
      }
    }
  }
}
