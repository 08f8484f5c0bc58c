/** The whole server: the job protocol and the experiment lifecycle side by side, with crashes that end both and startups that
    bring both back.  After a crash `jobs` keeps the dead process's memory only for its rows; nothing happens until a startup
    has replaced it. */
module Recovery {
  import J = JobProtocol
  import JobInvariant
  import L = Lifecycle
  import LifecycleInvariant
  import opened LifecycleRecovery
  import opened Options

  datatype Server = Server(jobs: J.State, experiments: L.State, up: bool)

  datatype Event =
    | JobEvent(job: J.Event)
    | LifeEvent(life: L.Event)
    | Crash
    | Startup(now: nat)
    | StartupPartial(now: nat, reconciled: bool, removed: set<nat>, serves: bool)

  function Init(limit: nat, maxLive: nat): Server {
    Server(J.Init(limit), L.Init(maxLive), true)
  }

  /** startup reconciles the job rows first and sweeps containers after that.  It may die on the way, or serve although
      some removals failed. */
  function Enabled(s: Server, ev: Event): bool {
    match ev
    case JobEvent(j) => s.up && !j.Restart? && J.Enabled(s.jobs, j)
    case LifeEvent(l) => s.up && !l.Crash? && !StartsUp(l) && L.Enabled(s.experiments, l)
    case Crash => s.up
    case Startup(now) => !s.up && J.Enabled(s.jobs, J.Restart(now)) && L.Enabled(s.experiments, L.Startup)
    case StartupPartial(now, reconciled, removed, serves) =>
      !s.up && J.Enabled(s.jobs, J.Restart(now)) && L.Enabled(s.experiments, L.StartupInterrupted(removed))
      && (removed != {} || serves ==> reconciled)
  }

  function Next(s: Server, ev: Event): Server
    requires Enabled(s, ev)
  {
    match ev
    case JobEvent(j) => s.(jobs := J.Next(s.jobs, j))
    case LifeEvent(l) => s.(experiments := L.Next(s.experiments, l))
    case Crash => s.(experiments := L.Next(s.experiments, L.Crash), up := false)
    case Startup(now) => Server(J.Next(s.jobs, J.Restart(now)), L.Next(s.experiments, L.Startup), true)
    case StartupPartial(now, reconciled, removed, serves) =>
      Server(if reconciled then J.Next(s.jobs, J.Restart(now)) else s.jobs, L.Next(s.experiments, L.StartupInterrupted(removed)), serves)
  }

  function Run(s: Server, events: seq<Event>): Server {
    if events == [] then s
    else
      var before, ev := Run(s, events[..|events| - 1]), events[|events| - 1];
      if Enabled(before, ev) then Next(before, ev) else before
  }

  // --- The two histories of a run -------------------------------------------------------------------------------

  /** What happened to the jobs. */
  function JobHistory(s: Server, events: seq<Event>): seq<J.Event> {
    if events == [] then []
    else
      var earlier, before, ev := JobHistory(s, events[..|events| - 1]), Run(s, events[..|events| - 1]), events[|events| - 1];
      if !Enabled(before, ev) then earlier
      else
        match ev
        case JobEvent(j) => earlier + [j]
        case Startup(now) => earlier + [J.Restart(now)]
        case StartupPartial(now, reconciled, _, _) => if reconciled then earlier + [J.Restart(now)] else earlier
        case _ => earlier
  }

  /** What happened to the experiments. */
  function LifeHistory(s: Server, events: seq<Event>): seq<L.Event> {
    if events == [] then []
    else
      var earlier, before, ev := LifeHistory(s, events[..|events| - 1]), Run(s, events[..|events| - 1]), events[|events| - 1];
      if !Enabled(before, ev) then earlier
      else
        match ev
        case JobEvent(_) => earlier
        case LifeEvent(l) => earlier + [l]
        case Crash => earlier + [L.Crash]
        case Startup(_) => earlier + [L.Startup]
        case StartupPartial(_, _, removed, _) => earlier + [L.StartupInterrupted(removed)]
  }

  lemma JobsRunOn(start: J.State, history: seq<J.Event>, ev: J.Event)
    ensures J.Run(start, history + [ev]) ==
            var before := J.Run(start, history); if J.Enabled(before, ev) then J.Next(before, ev) else before
  {
    assert (history + [ev])[..|history|] == history;
  }

  lemma LivesRunOn(start: L.State, history: seq<L.Event>, ev: L.Event)
    ensures L.Run(start, history + [ev]) ==
            var before := L.Run(start, history); if L.Enabled(before, ev) then L.Next(before, ev) else before
  {
    assert (history + [ev])[..|history|] == history;
  }

  /** A run of the server is a run of the job protocol and a run of the lifecycle. */
  lemma {:induction false} JobsFollowHistory(s: Server, events: seq<Event>)
    ensures Run(s, events).jobs == J.Run(s.jobs, JobHistory(s, events))
  {
    if events != [] {
      var earlier := events[..|events| - 1];
      JobsFollowHistory(s, earlier);
      var before, ev, history := Run(s, earlier), events[|events| - 1], JobHistory(s, earlier);
      if Enabled(before, ev) {
        match ev
        case JobEvent(j) => JobsRunOn(s.jobs, history, j);
        case Startup(now) => JobsRunOn(s.jobs, history, J.Restart(now));
        case StartupPartial(now, reconciled, _, _) => JobsRunOn(s.jobs, history, J.Restart(now));
        case _ =>
      }
    }
  }

  lemma {:induction false} ExperimentsFollowHistory(s: Server, events: seq<Event>)
    ensures Run(s, events).experiments == L.Run(s.experiments, LifeHistory(s, events))
  {
    if events != [] {
      var earlier := events[..|events| - 1];
      ExperimentsFollowHistory(s, earlier);
      var before, ev, history := Run(s, earlier), events[|events| - 1], LifeHistory(s, earlier);
      if Enabled(before, ev) {
        match ev
        case JobEvent(_) =>
        case LifeEvent(l) => LivesRunOn(s.experiments, history, l);
        case Crash => LivesRunOn(s.experiments, history, L.Crash);
        case Startup(_) => LivesRunOn(s.experiments, history, L.Startup);
        case StartupPartial(_, _, removed, _) => LivesRunOn(s.experiments, history, L.StartupInterrupted(removed));
      }
    }
  }

  /** Along every run of the server with serial operations both invariants hold. */
  lemma ServerKeepsInvariants(limit: nat, maxLive: nat, events: seq<Event>)
    requires L.Serial(L.Init(maxLive), LifeHistory(Init(limit, maxLive), events))
    ensures var s := Run(Init(limit, maxLive), events); JobInvariant.Inv(s.jobs) && LifecycleInvariant.Inv(s.experiments)
  {
    JobsFollowHistory(Init(limit, maxLive), events);
    ExperimentsFollowHistory(Init(limit, maxLive), events);
    JobInvariant.InvInit(limit);
    JobInvariant.RunKeepsInv(J.Init(limit), JobHistory(Init(limit, maxLive), events));
    LifecycleInvariant.RunKeepsInv(L.Init(maxLive), LifeHistory(Init(limit, maxLive), events));
  }

  /** While the server is down no operation is in flight. */
  lemma {:induction false} DownIsIdle(s: Server, events: seq<Event>)
    requires s.up
    ensures !Run(s, events).up ==> Run(s, events).experiments.ops == map[]
  {
    if events != [] { DownIsIdle(s, events[..|events| - 1]); }
  }

  // --- Recovery -------------------------------------------------------------------------------------------------

  /** For any run of the server, with crashes and overlaps anywhere and at most 500 experiments, that ends in a startup:
      every container left is named by exactly one LIVE row; every LIVE row's container is left unless that experiment's own
      destroy or failed creation had been at it; no job row is PENDING or RUNNING, no task and no registry entry is left; and
      every row that was terminal is as it was. */
  lemma StartupRecoversEverything(limit: nat, maxLive: nat, events: seq<Event>, now: nat)
    requires Enabled(Run(Init(limit, maxLive), events), Startup(now))
    requires |Run(Init(limit, maxLive), events).experiments.rows| <= L.LIST_LIMIT
    ensures var before := Run(Init(limit, maxLive), events);
            var after := Run(Init(limit, maxLive), events + [Startup(now)]);
            && (forall c :: c in after.experiments.containers ==>
                  exists e :: Owns(after.experiments, e, c) && forall f :: Owns(after.experiments, f, c) ==> f == e)
            && (forall e, c :: Owns(after.experiments, e, c) ==>
                  c in after.experiments.containers
                  || TornDownIn(L.Init(maxLive), LifeHistory(Init(limit, maxLive), events) + [L.Startup], e, c))
            && after.jobs.tasks == map[] && after.jobs.registry == map[] && after.jobs.rows.Keys == before.jobs.rows.Keys
            && (forall id :: id in after.jobs.rows ==> after.jobs.rows[id].status.Terminal())
            && (forall id :: id in before.jobs.rows && before.jobs.rows[id].status.Terminal() ==> after.jobs.rows[id] == before.jobs.rows[id])
  {
    assert (events + [Startup(now)])[..|events|] == events;
    ContainersRecover(limit, maxLive, events, now);
    JobsRecover(Run(Init(limit, maxLive), events).jobs, now);
  }

  lemma JobsRecover(s: J.State, now: nat)
    requires J.Enabled(s, J.Restart(now))
    ensures var s' := J.Next(s, J.Restart(now));
            && s'.tasks == map[] && s'.registry == map[] && s'.rows.Keys == s.rows.Keys
            && (forall id :: id in s'.rows ==> s'.rows[id].status.Terminal())
            && (forall id :: id in s.rows && s.rows[id].status.Terminal() ==> s'.rows[id] == s.rows[id])
  {
  }

  /** The containers, seen from the server's own run. */
  lemma ContainersRecover(limit: nat, maxLive: nat, events: seq<Event>, now: nat)
    requires Enabled(Run(Init(limit, maxLive), events), Startup(now))
    requires |Run(Init(limit, maxLive), events).experiments.rows| <= L.LIST_LIMIT
    ensures var history := LifeHistory(Init(limit, maxLive), events) + [L.Startup];
            var s := L.Next(Run(Init(limit, maxLive), events).experiments, L.Startup);
            && (forall c :: c in s.containers ==> exists e :: Owns(s, e, c) && forall f :: Owns(s, f, c) ==> f == e)
            && (forall e, c :: Owns(s, e, c) ==> c in s.containers || TornDownIn(L.Init(maxLive), history, e, c))
  {
    var start := Init(limit, maxLive);
    var history := LifeHistory(start, events);
    ExperimentsFollowHistory(start, events);
    LivesRunOn(L.Init(maxLive), history, L.Startup);
    DownIsIdle(start, events);
    assert (history + [L.Startup])[..|history|] == history;
    StartupRecovers(maxLive, history + [L.Startup]);
  }
}
