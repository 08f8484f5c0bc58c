/** The job protocol as a step system.  One step is the code between two awaits.

    `jobs` holds the Job objects in memory, `registry` the live table, `rows` the durable table.  `instances` are the
    semaphores ever created; `current` says which of them the registry hands out for an experiment. */
module JobProtocol {
  import opened Options
  import opened Jobs
  import opened Semaphores

  /** Where a job's task is suspended. */
  datatype Pc =
    | Submitting                  // submit awaits its first save; there is no task yet
    | NotStarted                  // task created and registered, not scheduled yet
    | WaitingPermit(sem: nat)     // inside semaphore.acquire
    | SavingRunning(sem: nat)     // permit held, the RUNNING row is being written
    | Executing(sem: nat)         // permit held, awaiting the executor
    | FinalSave                   // permit returned, the final row is being written
    | CancelSave                  // in the cancellation handler, its row is being written
    | Done(entered: bool)         // over; `entered` says whether it ever ran a step of _run

  datatype Task = Task(pc: Pc, mustCancel: bool)

  datatype RunningJob = RunningJob(cancelledByUser: bool)

  /** One semaphore object, created for one experiment. */
  datatype Instance = Instance(experimentId: string, sem: Semaphore)

  datatype State = State(
    limit: nat,
    jobs: map<string, Job>,
    tasks: map<string, Task>,
    registry: map<string, RunningJob>,
    rows: map<string, Job>,
    instances: seq<Instance>,
    current: map<string, nat>)

  /** What the environment decides in a step: the executor's result, whether a save that is cancelled still reaches
      the table, and the clock. */
  datatype Oracle = Oracle(result: ExecResult, written: bool, now: nat)

  datatype Event =
    | SubmitBegin(id: string, job: Job)
    | SubmitEnd(id: string)
    | TaskStep(id: string, oracle: Oracle)
    | Cancel(id: string, now: nat)
    | Sweep(experimentId: string, order: seq<string>)
    | Discard(experimentId: string)
    | Restart(now: nat)

  function Init(limit: nat): State {
    State(limit, map[], map[], map[], map[], [], map[])
  }

  // --- Semaphores of the registry -------------------------------------------------------------------------------

  /** JobRegistry.semaphore: the experiment's semaphore, created on first use. */
  function WithSemaphore(s: State, experimentId: string): (r: (State, nat))
    requires forall e :: e in s.current ==> s.current[e] < |s.instances|
    ensures r.1 < |r.0.instances|
  {
    if experimentId in s.current then (s, s.current[experimentId])
    else
      (s.(instances := s.instances + [Instance(experimentId, Semaphore(s.limit, []))],
      current := s.current[experimentId := |s.instances|]), |s.instances|)
  }

  function SetSem(s: State, k: nat, sem: Semaphore): State
    requires k < |s.instances|
  {
    s.(instances := s.instances[k := s.instances[k].(sem := sem)])
  }

  /** Position of a task in a semaphore's line; the line's length when it is not in it. */
  function Position(ws: seq<Waiter>, id: string): (i: nat)
    ensures i <= |ws|
    ensures i < |ws| ==> ws[i].owner == id
    ensures forall j :: 0 <= j < i ==> ws[j].owner != id
  {
    if ws == [] || ws[0].owner == id then 0 else
      assert forall j :: 1 <= j < |ws| ==> ws[j] == ws[1..][j - 1];
      1 + Position(ws[1..], id)
  }

  function Put(s: State, id: string, job: Job, task: Task): State {
    s.(jobs := s.jobs[id := job], tasks := s.tasks[id := task])
  }

  function Unregister(s: State, id: string): State {
    s.(registry := s.registry - {id})
  }

  // --- Steps of _run --------------------------------------------------------------------------------------------

  /** A future the task waits on is done, so the event loop may run its next step. */
  predicate Runnable(s: State, id: string) {
    && id in s.tasks && id in s.jobs
    && match s.tasks[id].pc
       case Submitting => false
       case Done(_) => false
       case WaitingPermit(k) =>
         k < |s.instances| &&
         var ws := s.instances[k].sem.waiters;
         var i := Position(ws, id);
         i < |ws| && !ws[i].fut.Pending?
       case SavingRunning(k) => k < |s.instances|
       case Executing(k) => k < |s.instances|
       case _ => true
  }

  predicate WellFormed(s: State) {
    forall e :: e in s.current ==> s.current[e] < |s.instances|
  }

  /** First step: look up the semaphore and take a permit or line up. */
  function Enter(s: State, id: string, now: nat): State
    requires WellFormed(s) && id in s.tasks && id in s.jobs
  {
    var (s1, k) := WithSemaphore(s, s.jobs[id].experimentId);
    var sem := s1.instances[k].sem;
    if Locked(sem) then
      Put(SetSem(s1, k, Enqueue(sem, id)), id, s.jobs[id], Task(WaitingPermit(k), false))
    else
      Put(SetSem(s1, k, Take(sem)), id, Started(s.jobs[id], now), Task(SavingRunning(k), false))
  }

  function ResumePermit(s: State, id: string, k: nat, now: nat): State
    requires WellFormed(s) && Runnable(s, id) && s.tasks[id].pc == WaitingPermit(k)
  {
    var sem := s.instances[k].sem;
    var i := Position(sem.waiters, id);
    if s.tasks[id].mustCancel then
      Put(SetSem(s, k, Abandon(sem, i)), id, MarkCancelled(s.jobs[id], now), Task(CancelSave, false))
    else
      Put(SetSem(s, k, Resume(sem, i)), id, Started(s.jobs[id], now), Task(SavingRunning(k), false))
  }

  function AfterRunningSave(s: State, id: string, k: nat, o: Oracle): State
    requires id in s.tasks && id in s.jobs && k < |s.instances|
  {
    if s.tasks[id].mustCancel then
      var s1 := if o.written then s.(rows := s.rows[id := s.jobs[id]]) else s;
      Put(SetSem(s1, k, Release(s.instances[k].sem)), id, MarkCancelled(s.jobs[id], o.now), Task(CancelSave, false))
    else
      Put(s.(rows := s.rows[id := s.jobs[id]]), id, s.jobs[id], Task(Executing(k), false))
  }

  /** The executor is over, however it ended: the permit goes back and the record becomes final. */
  function AfterExecutor(s: State, id: string, k: nat, o: Oracle): State
    requires id in s.tasks && id in s.jobs && k < |s.instances|
  {
    var pc := if o.result.RaisedCancelled? then CancelSave else FinalSave;
    Put(SetSem(s, k, Release(s.instances[k].sem)), id, Finished(s.jobs[id], o.result, o.now), Task(pc, false))
  }

  /** The last save, on either path.  A cancellation here ends the task before it unregisters. */
  function AfterLastSave(s: State, id: string, o: Oracle): State
    requires id in s.tasks && id in s.jobs
  {
    if s.tasks[id].mustCancel then
      var s1 := if o.written then s.(rows := s.rows[id := s.jobs[id]]) else s;
      Put(s1, id, s.jobs[id], Task(Done(true), false))
    else
      Put(Unregister(s.(rows := s.rows[id := s.jobs[id]]), id), id, s.jobs[id], Task(Done(true), false))
  }

  function Step(s: State, id: string, o: Oracle): State
    requires WellFormed(s) && Runnable(s, id)
  {
    match s.tasks[id].pc
    case NotStarted =>
      if s.tasks[id].mustCancel then Put(s, id, s.jobs[id], Task(Done(false), false)) else Enter(s, id, o.now)
    case WaitingPermit(k) => ResumePermit(s, id, k, o.now)
    case SavingRunning(k) => AfterRunningSave(s, id, k, o)
    case Executing(k) => AfterExecutor(s, id, k, o)
    case FinalSave => AfterLastSave(s, id, o)
    case CancelSave => AfterLastSave(s, id, o)
    case _ => s
  }

  // --- Queries and control --------------------------------------------------------------------------------------

  function GetJob(s: State, id: string): Option<Job> {
    if id in s.registry && id in s.jobs then Some(s.jobs[id])
    else if id in s.rows then Some(s.rows[id])
    else None
  }

  /** task.cancel(): a finished task ignores it; otherwise the cancellation is delivered when the task next resumes,
      and the future it waits on is cancelled if that is still pending. */
  function CancelTask(s: State, id: string): State {
    if id !in s.tasks || s.tasks[id].pc.Done? then s
    else
      var s1 := s.(tasks := s.tasks[id := s.tasks[id].(mustCancel := true)]);
      match s.tasks[id].pc
      case WaitingPermit(k) =>
        if k < |s.instances| && Position(s.instances[k].sem.waiters, id) < |s.instances[k].sem.waiters| then
          SetSem(s1, k, Revoke(s.instances[k].sem, Position(s.instances[k].sem.waiters, id)))
        else s1
      case _ => s1
  }

  function MarkUser(s: State, id: string): State {
    if id in s.registry then s.(registry := s.registry[id := RunningJob(true)]) else s
  }

  /** The part of `cancel` up to its await. */
  function CancelStep(s: State, id: string, now: nat): State {
    match GetJob(s, id)
    case None => s
    case Some(job) =>
      if job.status.Terminal() then s
      else if id !in s.registry then
        s.(rows := s.rows[id := job.(status := CANCELLED, error := Some(CancelledWithoutTask), finishedAt := Some(now))])
      else CancelTask(MarkUser(s, id), id)
  }

  /** The registered jobs of an experiment. */
  function RegisteredFor(s: State, experimentId: string): set<string> {
    set id | id in s.registry && id in s.jobs && s.jobs[id].experimentId == experimentId
  }

  function Elements(order: seq<string>): set<string> {
    set id | id in order
  }

  predicate Enumerates(order: seq<string>, ids: set<string>) {
    && (forall i, j :: 0 <= i < j < |order| ==> order[i] != order[j])
    && Elements(order) == ids
  }

  /** The first loop of `cancel_experiment_jobs`, over the records in the order the table lists them. */
  function SweepSteps(s: State, order: seq<string>): State {
    if order == [] then s
    else
      var last := |order| - 1;
      CancelTask(MarkUser(SweepSteps(s, order[..last]), order[last]), order[last])
  }

  function Enabled(s: State, ev: Event): bool {
    WellFormed(s) &&
    match ev
    case SubmitBegin(id, job) =>
      id !in s.tasks && id !in s.jobs && id !in s.rows && id !in s.registry
      && job == NewJob(job.experimentId, job.command, job.workdir, job.kind, job.timeoutSeconds)
    case SubmitEnd(id) => id in s.tasks && id in s.jobs && s.tasks[id].pc.Submitting?
    case TaskStep(id, _) => Runnable(s, id)
    case Cancel(id, _) => !(id in s.tasks && s.tasks[id].pc.Submitting?)
    case Sweep(e, order) => Enumerates(order, RegisteredFor(s, e))
    case Discard(_) => true
    case Restart(_) => true
  }

  function Next(s: State, ev: Event): State
    requires Enabled(s, ev)
  {
    match ev
    case SubmitBegin(id, job) => Put(s, id, job, Task(Submitting, false))
    case SubmitEnd(id) =>
      Put(s.(rows := s.rows[id := s.jobs[id]], registry := s.registry[id := RunningJob(false)]),
          id, s.jobs[id], Task(NotStarted, false))
    case TaskStep(id, o) => Step(s, id, o)
    case Cancel(id, now) => CancelStep(s, id, now)
    case Sweep(_, order) => SweepSteps(s, order)
    case Discard(e) => s.(current := s.current - {e})
    case Restart(now) =>
      Init(s.limit).(rows := map id | id in s.rows :: Reconciled(s.rows[id], now))
  }

  /** A run: events that are not enabled when their turn comes change nothing. */
  function Run(s: State, events: seq<Event>): State {
    if events == [] then s
    else
      var before := Run(s, events[..|events| - 1]);
      var ev := events[|events| - 1];
      if Enabled(before, ev) then Next(before, ev) else before
  }
}
