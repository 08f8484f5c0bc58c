/** The experiment lifecycle as a step system: rows and audit log in the repository, managed containers in the backend, and
    operations in flight, each with its own copy of the experiment it works on.  One step is the code between two effects
    that outlive the process, so a crash can fall between any two of them. */
module Lifecycle {
  import opened Options
  import Jobs
  import opened ExperimentStates

  datatype Experiment = Experiment(
    status: Status,
    container: Option<nat>,
    error: Option<string>,
    hasSetup: bool,
    createdAt: nat,
    readyAt: Option<nat>,
    startedAt: Option<nat>,
    completedAt: Option<nat>,
    destroyedAt: Option<nat>)

  /** One audit entry. */
  datatype Edge = Edge(from: Option<Status>, to: Status)

  /** What an operation does next. */
  datatype Pc =
    | LogCreating                    // the row is saved; its audit entry is next
    | Provision                      // snapshot the project and start the container
    | Attach(container: nat)         // the container runs; save its id
    | Baseline                       // fingerprint the workspace
    | FailSave(reason: string)       // _fail_creation: save the error
    | FailCleanup                    // _fail_creation: remove the container, if the row names one
    | AfterReady                     // decide whether setup commands run
    | AwaitJob(setup: bool)          // a foreground or setup job is running
    | TearDown                       // destroy: remove the container
    | Move(target: Status, rest: Pc)  // _transition: check the table and save the row
    | Log(edge: Edge, rest: Pc)       // _transition: append the audit entry
    | Finish

  datatype Op = Op(id: string, local: Experiment, pc: Pc)

  /** The last three fields are history, read by no step: `torn` are the containers whose own experiment's destroy or
      failed creation removed them or tried to, `orphans` those that a crash or a failed start left unclaimed, and `gapped` the experiments
      whose row a crash separated from its audit entry. */
  datatype State = State(
    maxLive: nat,
    rows: map<string, Experiment>,
    log: map<string, seq<Edge>>,
    containers: set<nat>,
    ops: map<nat, Op>,
    clock: nat,
    nextContainer: nat,
    torn: set<nat>,
    orphans: set<nat>,
    gapped: set<string>)

  /** What the environment decides in a step: whether something raises, whether a removal works, also the backend's own
      after a failed start, and how the awaited job ended.  In a removal `raises` is an exception that is not the sandbox's
      own kind, which destroy and _fail_creation do not catch. */
  datatype Oracle = Oracle(raises: Option<string>, removalWorks: bool, jobStatus: Jobs.JobStatus, exitCode: Option<int>)

  datatype Event =
    | StartCreate(op: nat, id: string, hasSetup: bool)
    | StartExecute(op: nat, id: string, background: bool)
    | StartDestroy(op: nat, id: string)
    | OpStep(op: nat, oracle: Oracle)
    | Crash
    | Startup
    | StartupInterrupted(removed: set<nat>)

  function Init(maxLive: nat): State {
    State(maxLive, map[], map[], {}, map[], 0, 0, {}, {}, {})
  }

  // --- Queries of the repository --------------------------------------------------------------------------------

  const LIST_LIMIT := 500

  /** list_experiments(limit=500): ORDER BY created_at DESC LIMIT 500. */
  function Newest(rows: map<string, Experiment>): set<string> {
    set e | e in rows && |set f | f in rows && rows[f].createdAt > rows[e].createdAt| < LIST_LIMIT
  }

  function LiveRows(rows: map<string, Experiment>): set<string> {
    set e | e in rows && Live(rows[e].status)
  }

  /** The containers that startup leaves alone. */
  function LiveIds(rows: map<string, Experiment>): set<nat> {
    set e | e in rows && e in Newest(rows) && Live(rows[e].status) && rows[e].container.Some? :: rows[e].container.value
  }

  // --- _transition ----------------------------------------------------------------------------------------------

  function Entered(e: Experiment, target: Status, now: nat): Experiment {
    var moved := e.(status := target);
    if target == READY && e.readyAt.None? then moved.(readyAt := Some(now))
    else if target == RUNNING && e.startedAt.None? then moved.(startedAt := Some(now))
    else if target in {COMPLETED, FAILED, TIMEOUT, CANCELLED} then moved.(completedAt := Some(now))
    else if target == DESTROYED then moved.(destroyedAt := Some(now))
    else moved
  }

  // --- Steps ----------------------------------------------------------------------------------------------------

  function Advance(s: State, o: nat, op: Op): State {
    s.(ops := if op.pc.Finish? then s.ops - {o} else s.ops[o := op], clock := s.clock + 1)
  }

  function Save(s: State, id: string, e: Experiment): State {
    s.(rows := s.rows[id := e])
  }

  function LogOf(s: State, id: string): seq<Edge> {
    if id in s.log then s.log[id] else []
  }

  /** The removal of a container by the operation that owns it. */
  function RemoveOwn(s: State, c: Option<nat>, works: bool): State {
    match c
    case None => s
    case Some(c) => if works then s.(containers := s.containers - {c}, torn := s.torn + {c}) else s.(torn := s.torn + {c})
  }

  /** The backend cleans up after a container that would not start; if that fails, nobody knows the container. */
  function StartFailed(s: State, works: bool): State {
    if works then s
    else s.(containers := s.containers + {s.nextContainer}, nextContainer := s.nextContainer + 1, orphans := s.orphans + {s.nextContainer})
  }

  function Step(s: State, o: nat, oracle: Oracle): State
    requires o in s.ops
  {
    var op := s.ops[o];
    match op.pc
    case LogCreating =>
      Advance(s.(log := s.log[op.id := LogOf(s, op.id) + [Edge(None, CREATING)]]), o, op.(pc := Provision))
    case Provision =>
      if oracle.raises.Some? then Advance(StartFailed(s, oracle.removalWorks), o, op.(pc := FailSave(oracle.raises.value)))
      else Advance(s.(containers := s.containers + {s.nextContainer}, nextContainer := s.nextContainer + 1),
                   o, op.(pc := Attach(s.nextContainer)))
    case Attach(c) =>
      var e := op.local.(container := Some(c));
      Advance(Save(s, op.id, e), o, op.(local := e, pc := Baseline))
    case Baseline =>
      Advance(s, o, op.(pc := if oracle.raises.Some? then FailSave(oracle.raises.value) else Move(READY, AfterReady)))
    case FailSave(reason) =>
      var e := op.local.(error := Some(reason));
      Advance(Save(s, op.id, e), o, op.(local := e, pc := FailCleanup))
    case FailCleanup =>
      Advance(RemoveOwn(s, op.local.container, oracle.removalWorks), o,
              op.(pc := if op.local.container.Some? && oracle.raises.Some? then Finish else Move(FAILED, Finish)))
    case AfterReady =>
      Advance(s, o, op.(pc := if op.local.hasSetup then Move(RUNNING, AwaitJob(true)) else Finish))
    case AwaitJob(setup) =>
      var target :=
        if setup then (if oracle.jobStatus == Jobs.COMPLETED && oracle.exitCode == Some(0) then READY else FAILED)
        else SettleTarget(oracle.jobStatus, oracle.exitCode);
      Advance(s, o, op.(pc := Move(target, Finish)))
    case TearDown =>
      Advance(RemoveOwn(s, op.local.container, oracle.removalWorks), o,
              op.(pc := if oracle.raises.Some? then Finish else Move(DESTROYED, Finish)))
    case Move(target, rest) =>
      if !Accepted(op.local.status, target) then Advance(s, o, op.(pc := Finish))
      else if op.local.status == target then Advance(s, o, op.(pc := rest))
      else
        var e := Entered(op.local, target, s.clock);
        Advance(Save(s, op.id, e), o, op.(local := e, pc := Log(Edge(Some(op.local.status), target), rest)))
    case Log(edge, rest) =>
      Advance(s.(log := s.log[op.id := LogOf(s, op.id) + [edge]]), o, op.(pc := rest))
    case Finish => Advance(s, o, op)
  }

  function NewExperiment(hasSetup: bool, now: nat): Experiment {
    Experiment(CREATING, None, None, hasSetup, now, None, None, None, None)
  }

  /** get_live's checks; the row must exist, not be destroyed, and name a container. */
  predicate GetLive(s: State, id: string) {
    id in s.rows && s.rows[id].status != DESTROYED && s.rows[id].container.Some?
  }

  predicate HasCapacity(s: State) {
    |LiveRows(map e | e in s.rows && e in Newest(s.rows) :: s.rows[e])| < s.maxLive
  }

  /** An operation that is refused, by the capacity check or by get_live, has no effect and is not an event. */
  function Enabled(s: State, ev: Event): bool {
    match ev
    case StartCreate(o, id, _) => o !in s.ops && id !in s.rows && id !in s.log && HasCapacity(s)
    case StartExecute(o, id, _) => o !in s.ops && GetLive(s, id)
    case StartDestroy(o, id) => o !in s.ops && id in s.rows && s.rows[id].status != DESTROYED
    case OpStep(o, _) => o in s.ops
    case Crash => true
    case Startup => s.ops == map[]
    case StartupInterrupted(removed) => s.ops == map[] && removed <= s.containers - LiveIds(s.rows)
  }

  /** Experiments whose row is ahead of the audit log by the entry an operation is about to write. */
  function AwaitingAudit(s: State): set<string> {
    set o | o in s.ops && (s.ops[o].pc.LogCreating? || s.ops[o].pc.Log?) :: s.ops[o].id
  }

  /** Containers named by a row in a LIVE state. */
  function Claimed(rows: map<string, Experiment>): set<nat> {
    set e | e in rows && Live(rows[e].status) && rows[e].container.Some? :: rows[e].container.value
  }

  function Next(s: State, ev: Event): State
    requires Enabled(s, ev)
  {
    match ev
    case StartCreate(o, id, hasSetup) =>
      var e := NewExperiment(hasSetup, s.clock);
      Advance(Save(s, id, e), o, Op(id, e, LogCreating))
    case StartExecute(o, id, background) =>
      Advance(s, o, Op(id, s.rows[id], Move(RUNNING, if background then Finish else AwaitJob(false))))
    case StartDestroy(o, id) => Advance(s, o, Op(id, s.rows[id], TearDown))
    case OpStep(o, oracle) => Step(s, o, oracle)
    case Crash => s.(ops := map[], orphans := s.orphans + (s.containers - Claimed(s.rows)), gapped := s.gapped + AwaitingAudit(s))
    case Startup => s.(containers := s.containers * LiveIds(s.rows), orphans := {})
    case StartupInterrupted(removed) => s.(containers := s.containers - removed)
  }

  function Run(s: State, events: seq<Event>): State {
    if events == [] then s
    else
      var before := Run(s, events[..|events| - 1]);
      var ev := events[|events| - 1];
      if Enabled(before, ev) then Next(before, ev) else before
  }

  /** Operations on one experiment do not overlap: this is what makes an operation's copy trustworthy. */
  predicate SerialStart(s: State, ev: Event) {
    ev.StartExecute? || ev.StartDestroy? ==> forall o :: o in s.ops ==> s.ops[o].id != ev.id
  }

  ghost predicate Serial(s: State, events: seq<Event>) {
    forall i :: 0 <= i < |events| ==> SerialStart(Run(s, events[..i]), events[i])
  }
}
