/** What callers of the execution manager may rely on, for every interleaving. */
module JobTheorems {
  import opened Options
  import opened Jobs
  import opened Semaphores
  import opened JobProtocol
  import opened JobInvariant

  lemma RunOne(s: State, events: seq<Event>, ev: Event)
    ensures Run(s, events + [ev]) == var before := Run(s, events); if Enabled(before, ev) then Next(before, ev) else before
  {
    assert (events + [ev])[..|events|] == events;
  }

  lemma {:induction false} RunAppend(s: State, first: seq<Event>, second: seq<Event>)
    ensures Run(s, first + second) == Run(Run(s, first), second)
  {
    if second == [] {
      assert first + second == first;
    } else {
      var last := |second| - 1;
      RunAppend(s, first, second[..last]);
      assert first + second == (first + second[..last]) + [second[last]];
      RunOne(s, first + second[..last], second[last]);
    }
  }

  // --- One task's step -----------------------------------------------------------------------------------------

  /** The task has run at least one step of _run. */
  ghost predicate Begun(t: Task) {
    !t.pc.Submitting? && !t.pc.NotStarted? && t.pc != Done(false)
  }

  /** The task is going to end, or has ended, without running a single step. */
  ghost predicate Doomed(t: Task) {
    (t.pc.NotStarted? && t.mustCancel) || t.pc == Done(false)
  }

  /** The task works under a semaphore, or stands in line for it and has not been asked to stop. */
  ghost predicate StillRuns(t: Task) {
    t.pc.SavingRunning? || t.pc.Executing? || (t.pc.WaitingPermit? && !t.mustCancel)
  }

  /** How many more steps a task can take. */
  ghost function Rank(t: Task): nat {
    match t.pc
    case Submitting => 6
    case NotStarted => 5
    case WaitingPermit(_) => 4
    case SavingRunning(_) => 3
    case Executing(_) => 2
    case FinalSave => 1
    case CancelSave => 1
    case Done(_) => 0
  }

  /** What a step of task id may do to the state outside the semaphores. */
  ghost predicate StepOf(s: State, s': State, id: string)
    requires id in s.jobs && id in s.tasks
  {
    && s'.limit == s.limit
    && id in s'.jobs && s'.jobs == s.jobs[id := s'.jobs[id]]
    && Progresses(s.jobs[id], s'.jobs[id]) && s'.jobs[id].experimentId == s.jobs[id].experimentId
    && id in s'.tasks && s'.tasks == s.tasks[id := s'.tasks[id]]
    && (s'.rows == s.rows || s'.rows == s.rows[id := s.jobs[id]])
    && Rank(s'.tasks[id]) < Rank(s.tasks[id])
    && (Begun(s.tasks[id]) ==> Begun(s'.tasks[id]))
    && (Doomed(s.tasks[id]) ==> Doomed(s'.tasks[id]))
    && (forall e :: e in s.current ==> e in s'.current && s'.current[e] == s.current[e])
    && (StillRuns(s'.tasks[id]) ==>
          || (StillRuns(s.tasks[id]) && s.tasks[id].pc.sem == s'.tasks[id].pc.sem)
          || (s.jobs[id].experimentId in s'.current && s'.current[s.jobs[id].experimentId] == s'.tasks[id].pc.sem))
  }

  lemma EnterIsStepOf(s: State, id: string, now: nat)
    requires WellFormed(s) && id in s.tasks && id in s.jobs && s.tasks[id] == Task(NotStarted, false) && s.jobs[id].status == PENDING
    ensures StepOf(s, Enter(s, id, now), id)
  {
  }

  lemma ResumeIsStepOf(s: State, id: string, o: Oracle)
    requires WellFormed(s) && Runnable(s, id) && JobOk(s, id) && s.tasks[id].pc.WaitingPermit?
    ensures StepOf(s, Step(s, id, o), id)
  {
  }

  lemma LastSaveIsStepOf(s: State, id: string, o: Oracle)
    requires WellFormed(s) && Runnable(s, id) && JobOk(s, id) && (s.tasks[id].pc.FinalSave? || s.tasks[id].pc.CancelSave?)
    ensures StepOf(s, Step(s, id, o), id)
  {
  }

  lemma WorkingIsStepOf(s: State, id: string, o: Oracle)
    requires WellFormed(s) && Runnable(s, id) && JobOk(s, id) && (s.tasks[id].pc.SavingRunning? || s.tasks[id].pc.Executing?)
    ensures StepOf(s, Step(s, id, o), id)
  {
  }

  lemma FirstIsStepOf(s: State, id: string, o: Oracle)
    requires WellFormed(s) && Runnable(s, id) && JobOk(s, id) && s.tasks[id].pc.NotStarted?
    ensures StepOf(s, Step(s, id, o), id)
  {
    if !s.tasks[id].mustCancel { EnterIsStepOf(s, id, o.now); }
  }

  lemma StepIsStepOf(s: State, s': State, id: string, o: Oracle)
    requires WellFormed(s) && Runnable(s, id) && JobOk(s, id) && s' == Step(s, id, o)
    ensures StepOf(s, s', id)
  {
    match s.tasks[id].pc
    case NotStarted => FirstIsStepOf(s, id, o);
    case WaitingPermit(_) => ResumeIsStepOf(s, id, o);
    case SavingRunning(_) => WorkingIsStepOf(s, id, o);
    case Executing(_) => WorkingIsStepOf(s, id, o);
    case _ => LastSaveIsStepOf(s, id, o);
  }

  /** What one task step does to its own job and row. */
  lemma StepEffect(s: State, id: string, o: Oracle)
    requires Inv(s) && Runnable(s, id)
    ensures StepOf(s, Step(s, id, o), id) && id in s.rows
  {
    assert JobOk(s, id);
    StepIsStepOf(s, Step(s, id, o), id, o);
  }

  /** What an event may do, as far as records, rows, tasks and the limit are concerned. */
  ghost predicate Effect(s: State, s': State, ev: Event) {
    match ev
    case SubmitBegin(id, job) =>
      id !in s.jobs && id !in s.tasks && id !in s.rows && job.status == PENDING
      && s' == s.(jobs := s.jobs[id := job], tasks := s.tasks[id := Task(Submitting, false)])
    case SubmitEnd(id) =>
      id in s.jobs && id in s.tasks && id !in s.rows && s.tasks[id].pc.Submitting?
      && s'.limit == s.limit && s'.jobs == s.jobs && s'.current == s.current
      && s'.rows == s.rows[id := s.jobs[id]] && s'.tasks == s.tasks[id := Task(NotStarted, false)]
    case TaskStep(id, _) => id in s.jobs && id in s.tasks && id in s.rows && StepOf(s, s', id)
    case Cancel(id, _) => s' == s || AskedToStop(s, s', {id})
    case Sweep(_, order) => AskedToStop(s, s', Elements(order))
    case Discard(e) => s' == s.(current := s.current - {e})
    case Restart(now) => s' == Init(s.limit).(rows := map id | id in s.rows :: Reconciled(s.rows[id], now))
  }

  lemma EffectOf(s: State, ev: Event)
    requires Inv(s) && Enabled(s, ev)
    ensures Effect(s, Next(s, ev), ev)
  {
    match ev
    case SubmitEnd(id) => SubmitEndEffect(s, id);
    case TaskStep(id, o) => StepEffect(s, id, o);
    case Cancel(id, now) => CancelMovesNothing(s, id, now);
    case Sweep(_, order) => SweepAsks(s, order);
    case _ =>
  }

  lemma SubmitEndEffect(s: State, id: string)
    requires Inv(s) && Enabled(s, SubmitEnd(id))
    ensures Effect(s, Next(s, SubmitEnd(id)), SubmitEnd(id))
  {
    assert JobOk(s, id);
    assert s.jobs[id := s.jobs[id]] == s.jobs;
  }

  // --- The registry and the table together are one simple map ---------------------------------------------------

  /** The answer of get_job for every id that was ever returned by submit. */
  function View(s: State): map<string, Job> {
    map id | id in s.rows :: GetJob(s, id).value
  }

  /** At every await point: get_job gives the job's in-memory record, and a job that left the registry has that final
      record in its row. */
  lemma GetJobIsCurrent(s: State, id: string)
    requires Inv(s) && id in s.tasks && !s.tasks[id].pc.Submitting?
    ensures GetJob(s, id) == Some(s.jobs[id])
    ensures id !in s.registry ==> s.jobs[id].status.Terminal() && id in s.rows && s.rows[id] == s.jobs[id]
  {
    assert JobOk(s, id);
  }

  /** So in every run from the start. */
  lemma GetJobIsCurrentInEveryRun(limit: nat, events: seq<Event>, id: string)
    requires var s := Run(Init(limit), events); id in s.tasks && !s.tasks[id].pc.Submitting?
    ensures var s := Run(Init(limit), events);
            && id in s.jobs && GetJob(s, id) == Some(s.jobs[id])
            && (id !in s.registry ==> s.jobs[id].status.Terminal() && id in s.rows && s.rows[id] == s.jobs[id])
  {
    InvInit(limit);
    RunKeepsInv(Init(limit), events);
    GetJobIsCurrent(Run(Init(limit), events), id);
  }

  /** The simple map, read off the records in memory and, for earlier lives, off the table. */
  ghost predicate ViewIsRecords(s: State) {
    forall id :: id in s.rows ==> View(s)[id] == if id in s.jobs then s.jobs[id] else s.rows[id]
  }

  lemma InvViewIsRecords(s: State)
    requires Inv(s)
    ensures ViewIsRecords(s)
  {
    forall id | id in s.rows ensures View(s)[id] == if id in s.jobs then s.jobs[id] else s.rows[id] {
      if id in s.tasks { assert JobOk(s, id); }
    }
  }

  /** The simple machine: a map from id to job, in which a submit adds one PENDING job and a task's step moves its own
      job forward or does nothing; requesting a cancellation or sweeping changes no record by itself. */
  ghost predicate SimpleStep(v: map<string, Job>, v': map<string, Job>, ev: Event) {
    match ev
    case SubmitBegin(_, _) => v' == v
    case SubmitEnd(id) => id !in v && id in v' && v' == v[id := v'[id]] && v'[id].status == PENDING
    case TaskStep(id, _) => id in v && id in v' && v' == v[id := v'[id]] && Progresses(v[id], v'[id])
    case Cancel(_, _) => v' == v
    case Sweep(_, _) => v' == v
    case Discard(_) => v' == v
    case Restart(_) =>
      v'.Keys == v.Keys && forall id :: id in v ==> v'[id] == v[id] || v'[id].status == FAILED
  }

  lemma SameView(s: State, s': State)
    requires ViewIsRecords(s) && ViewIsRecords(s') && s'.rows == s.rows && s'.jobs == s.jobs
    ensures View(s') == View(s)
  {
    assert View(s').Keys == s.rows.Keys == View(s).Keys;
  }

  lemma StepOfSimulates(s: State, s': State, id: string, o: Oracle)
    requires ViewIsRecords(s) && ViewIsRecords(s')
    requires id in s.jobs && id in s.tasks && id in s.rows && StepOf(s, s', id)
    ensures SimpleStep(View(s), View(s'), TaskStep(id, o))
  {
    var v, v' := View(s), View(s');
    assert v.Keys == s.rows.Keys && v'.Keys == s'.rows.Keys == s.rows.Keys;
    assert v' == v[id := v'[id]];
  }

  lemma SubmitBeginSimulates(s: State, s': State, id: string)
    requires ViewIsRecords(s) && ViewIsRecords(s') && id !in s.rows
    requires s'.rows == s.rows && id in s'.jobs && s'.jobs == s.jobs[id := s'.jobs[id]]
    ensures View(s') == View(s)
  {
    assert View(s').Keys == s.rows.Keys == View(s).Keys;
  }

  lemma SubmitEndSimulates(s: State, s': State, id: string)
    requires ViewIsRecords(s) && ViewIsRecords(s') && id !in s.rows && id in s.jobs && s.jobs[id].status == PENDING
    requires s'.rows == s.rows[id := s.jobs[id]] && s'.jobs == s.jobs[id := s.jobs[id]]
    ensures SimpleStep(View(s), View(s'), SubmitEnd(id))
  {
    var v, v' := View(s), View(s');
    assert v.Keys == s.rows.Keys && v'.Keys == s'.rows.Keys;
    assert v' == v[id := v'[id]];
  }

  lemma RestartSimulates(s: State, now: nat)
    requires Inv(s) && Enabled(s, Restart(now))
    ensures SimpleStep(View(s), View(Next(s, Restart(now))), Restart(now))
  {
    InvViewIsRecords(s);
    var v, v' := View(s), View(Next(s, Restart(now)));
    forall id | id in v ensures v'[id] == v[id] || v'[id].status == FAILED {
      if id in s.jobs { RowBehindRecord(s, id); }
    }
  }

  /** Registry plus table refine the simple map, under every event. */
  lemma RefinesSimpleMap(s: State, ev: Event)
    requires Inv(s) && Enabled(s, ev)
    ensures SimpleStep(View(s), View(Next(s, ev)), ev)
  {
    var s' := Next(s, ev);
    NextKeepsInv(s, ev);
    EffectOf(s, ev);
    InvViewIsRecords(s);
    InvViewIsRecords(s');
    if ev.Restart? {
      RestartSimulates(s, ev.now);
    } else {
      if ev.SubmitEnd? { assert JobOk(s, ev.id); }
      EffectSimulates(s, s', ev);
    }
  }

  lemma EffectSimulates(s: State, s': State, ev: Event)
    requires ViewIsRecords(s) && ViewIsRecords(s') && Effect(s, s', ev) && !ev.Restart?
    requires ev.SubmitEnd? ==> s.jobs[ev.id].status == PENDING
    ensures SimpleStep(View(s), View(s'), ev)
  {
    match ev
    case SubmitBegin(id, _) => SubmitBeginSimulates(s, s', id);
    case SubmitEnd(id) =>
      assert s.jobs[id := s.jobs[id]] == s.jobs;
      SubmitEndSimulates(s, s', id);
    case TaskStep(id, o) => StepOfSimulates(s, s', id, o);
    case _ => SameView(s, s');
  }

  /** `cancel` never takes its "no live task was attached" branch: a job that is not over has a live task. */
  lemma CancelFindsTask(s: State, id: string)
    requires Inv(s) && !(id in s.tasks && s.tasks[id].pc.Submitting?)
    requires GetJob(s, id).Some? && !GetJob(s, id).value.status.Terminal()
    ensures id in s.registry && id in s.tasks
  {
    if id in s.tasks { assert JobOk(s, id); }
  }

  lemma CancelIs(s: State, id: string, now: nat)
    requires Inv(s) && Enabled(s, Cancel(id, now))
    ensures Next(s, Cancel(id, now)) == s || Next(s, Cancel(id, now)) == CancelTask(MarkUser(s, id), id)
  {
    if GetJob(s, id).Some? && !GetJob(s, id).value.status.Terminal() { CancelFindsTask(s, id); }
  }

  /** Requesting a cancellation changes no record and no row, and moves no task. */
  lemma CancelMovesNothing(s: State, id: string, now: nat)
    requires Inv(s) && Enabled(s, Cancel(id, now))
    ensures AskedToStop(s, Next(s, Cancel(id, now)), {id}) || Next(s, Cancel(id, now)) == s
  {
    CancelIs(s, id, now);
    var s1 := MarkUser(s, id);
    CancelTaskShape(s1, id);
    assert s1.registry.Keys == s.registry.Keys;
    AskOne(s, s1, CancelTask(s1, id), {}, id);
    assert {} + {id} == {id};
  }

  // --- Terminal is forever --------------------------------------------------------------------------------------

  ghost predicate NoRestart(events: seq<Event>) {
    forall i :: 0 <= i < |events| ==> !events[i].Restart?
  }

  lemma RowProgresses(s: State, s': State, ev: Event, id: string)
    requires Effect(s, s', ev) && id in s.rows && (id in s.jobs ==> Progresses(s.rows[id], s.jobs[id]))
    ensures id in s'.rows && Progresses(s.rows[id], s'.rows[id])
  {
  }

  lemma RowBehindRecord(s: State, id: string)
    requires Inv(s) && id in s.rows && id in s.jobs
    ensures Progresses(s.rows[id], s.jobs[id])
  {
    assert JobOk(s, id);
  }

  /** Through every run, restarts included, a row moves only forward along PENDING, RUNNING, terminal, and a terminal row
      keeps every field. */
  lemma {:induction false} RowMovesForward(s: State, events: seq<Event>, id: string)
    requires Inv(s) && id in s.rows
    ensures id in Run(s, events).rows && Progresses(s.rows[id], Run(s, events).rows[id])
  {
    if events != [] {
      var last := |events| - 1;
      RowMovesForward(s, events[..last], id);
      RunKeepsInv(s, events[..last]);
      var before := Run(s, events[..last]);
      if Enabled(before, events[last]) {
        EffectOf(before, events[last]);
        if id in before.jobs { RowBehindRecord(before, id); }
        RowProgresses(before, Next(before, events[last]), events[last], id);
      }
    }
  }

  lemma RecordProgresses(s: State, s': State, ev: Event, id: string)
    requires Effect(s, s', ev) && !ev.Restart? && id in s.jobs
    ensures id in s'.jobs && Progresses(s.jobs[id], s'.jobs[id])
  {
  }

  /** Within one server's life a record in memory moves only forward as well, and a terminal one never changes. */
  lemma {:induction false} RecordMovesForward(s: State, events: seq<Event>, id: string)
    requires Inv(s) && NoRestart(events) && id in s.jobs
    ensures id in Run(s, events).jobs && Progresses(s.jobs[id], Run(s, events).jobs[id])
  {
    if events != [] {
      var last := |events| - 1;
      RecordMovesForward(s, events[..last], id);
      RunKeepsInv(s, events[..last]);
      var before := Run(s, events[..last]);
      if Enabled(before, events[last]) {
        EffectOf(before, events[last]);
        RecordProgresses(before, Next(before, events[last]), events[last], id);
      }
    }
  }

  /** After a restart no row is PENDING or RUNNING, and get_job answers as before exactly for the jobs whose row was
      already final: a result that only memory knew is reported as abandoned. */
  lemma RestartReconciles(s: State, now: nat, id: string)
    requires Inv(s) && id in s.rows
    ensures var s' := Next(s, Restart(now));
            && (forall j :: j in s'.rows ==> s'.rows[j].status.Terminal())
            && (GetJob(s', id) == GetJob(s, id) <==> s.rows[id].status.Terminal())
  {
    if id in s.tasks { assert JobOk(s, id); }
  }

  // --- Permits --------------------------------------------------------------------------------------------------

  /** The RUNNING jobs whose task works under semaphore k. */
  function RunningUnder(s: State, k: nat): set<string> {
    set id | id in s.jobs && id in s.tasks && s.jobs[id].status == RUNNING && s.tasks[id].pc in {SavingRunning(k), Executing(k)}
  }

  lemma PermitsAddUp(s: State, k: nat)
    requires Inv(s) && k < |s.instances|
    ensures RunningUnder(s, k) == Holders(s.tasks, k)
    ensures s.instances[k].sem.value + GrantCount(s.instances[k].sem.waiters) + |RunningUnder(s, k)| == s.limit
  {
    forall id | id in s.tasks ensures Holds(s.tasks[id], k) <==> id in RunningUnder(s, k) {
      assert JobOk(s, id);
    }
    assert RunningUnder(s, k) == Holders(s.tasks, k);
    assert SemOk(s.instances[k].sem, s.tasks, k, s.limit);
  }

  /** For every semaphore ever created and every run: free permits, permits granted but not picked up, and RUNNING
      jobs under it add up to the configured maximum. */
  lemma PermitConservation(limit: nat, events: seq<Event>, k: nat)
    requires k < |Run(Init(limit), events).instances|
    ensures var s := Run(Init(limit), events);
            && s.instances[k].sem.value + GrantCount(s.instances[k].sem.waiters) + |RunningUnder(s, k)| == limit
            && |RunningUnder(s, k)| <= limit
  {
    InvInit(limit);
    RunKeepsInv(Init(limit), events);
    RunKeepsLimit(Init(limit), events);
    PermitsAddUp(Run(Init(limit), events), k);
  }

  lemma NextKeepsLimit(s: State, ev: Event)
    requires Inv(s) && Enabled(s, ev)
    ensures Next(s, ev).limit == s.limit
  {
    EffectOf(s, ev);
  }

  lemma {:induction false} RunKeepsLimit(s: State, events: seq<Event>)
    requires Inv(s)
    ensures Run(s, events).limit == s.limit
  {
    if events != [] {
      var last := |events| - 1;
      RunKeepsLimit(s, events[..last]);
      RunKeepsInv(s, events[..last]);
      var before := Run(s, events[..last]);
      if Enabled(before, events[last]) { NextKeepsLimit(before, events[last]); }
    }
  }

  function RunningOf(s: State, experimentId: string): set<string> {
    set id | id in s.jobs && s.jobs[id].experimentId == experimentId && s.jobs[id].status == RUNNING
  }

  // --- Cancellation ---------------------------------------------------------------------------------------------

  lemma FateKept(s: State, s': State, ev: Event, id: string)
    requires Effect(s, s', ev) && !ev.Restart? && id in s.tasks
    ensures id in s'.tasks
    ensures Begun(s.tasks[id]) ==> Begun(s'.tasks[id])
    ensures Doomed(s.tasks[id]) ==> Doomed(s'.tasks[id])
  {
  }

  lemma {:induction false} FateForever(s: State, events: seq<Event>, id: string)
    requires Inv(s) && NoRestart(events) && id in s.tasks
    ensures id in Run(s, events).tasks
    ensures Begun(s.tasks[id]) ==> Begun(Run(s, events).tasks[id])
    ensures Doomed(s.tasks[id]) ==> Doomed(Run(s, events).tasks[id])
  {
    if events != [] {
      var last := |events| - 1;
      FateForever(s, events[..last], id);
      RunKeepsInv(s, events[..last]);
      var before := Run(s, events[..last]);
      if Enabled(before, events[last]) {
        EffectOf(before, events[last]);
        FateKept(before, Next(before, events[last]), events[last], id);
      }
    }
  }

  /** When a task is over, get_job reports a terminal job exactly if the task ever entered _run. */
  lemma OverMeansTerminal(s: State, id: string)
    requires Inv(s) && id in s.tasks && s.tasks[id].pc.Done?
    ensures GetJob(s, id).Some? && (GetJob(s, id).value.status.Terminal() <==> Begun(s.tasks[id]))
  {
    assert JobOk(s, id);
  }

  /** `cancel` of a job that is not over: when the awaited task has ended, whatever happened in between, the job it
      returns is terminal if and only if the task had started when `cancel` was called. */
  lemma CancelReturnsTerminal(s: State, id: string, now: nat, events: seq<Event>)
    requires Inv(s) && Enabled(s, Cancel(id, now)) && NoRestart(events)
    requires id in s.tasks && !s.jobs[id].status.Terminal()
    requires var s2 := Run(Next(s, Cancel(id, now)), events); id in s2.tasks && s2.tasks[id].pc.Done?
    ensures var s2 := Run(Next(s, Cancel(id, now)), events);
            GetJob(s2, id).Some? && (GetJob(s2, id).value.status.Terminal() <==> Begun(s.tasks[id]))
  {
    assert JobOk(s, id);
    var s1 := Next(s, Cancel(id, now));
    NextKeepsInv(s, Cancel(id, now));
    CancelTaskShape(MarkUser(s, id), id);
    assert Begun(s.tasks[id]) ==> Begun(s1.tasks[id]);
    assert !Begun(s.tasks[id]) ==> Doomed(s1.tasks[id]);
    FateForever(s1, events, id);
    RunKeepsInv(s1, events);
    OverMeansTerminal(Run(s1, events), id);
  }

  /** A second `cancel` is harmless: it changes nothing, now or after anything else that happens, and keeps returning
      the same record. */
  lemma SecondCancelSameRecord(s: State, id: string, now: nat, events: seq<Event>)
    requires Inv(s) && Enabled(s, Cancel(id, now)) && NoRestart(events)
    requires id in s.tasks && s.jobs[id].status.Terminal()
    ensures Next(s, Cancel(id, now)) == s
    ensures GetJob(Run(s, events), id) == GetJob(s, id) == Some(s.jobs[id])
  {
    assert JobOk(s, id);
    GetJobIsCurrent(s, id);
    var s2 := Run(s, events);
    RecordMovesForward(s, events, id);
    RunKeepsInv(s, events);
    assert JobOk(s2, id);
    GetJobIsCurrent(s2, id);
  }

  lemma CancelledStep(s: State, id: string, o: Oracle)
    requires Inv(s) && id in s.tasks && Begun(s.tasks[id]) && s.tasks[id].mustCancel && !s.tasks[id].pc.Done?
    ensures Runnable(s, id)
    ensures Step(s, id, o).tasks[id].pc in {FinalSave, CancelSave, Done(true)} && id in Step(s, id, o).jobs
  {
    assert JobOk(s, id);
    if s.tasks[id].pc.WaitingPermit? {
      var ws := s.instances[s.tasks[id].pc.sem].sem.waiters;
      assert WaiterOk(ws[Position(ws, id)], s.tasks, s.tasks[id].pc.sem);
    }
  }

  lemma LastStep(s: State, id: string, o: Oracle)
    requires WellFormed(s) && id in s.tasks && id in s.jobs && s.tasks[id].pc in {FinalSave, CancelSave, Done(true)}
    ensures Enabled(s, TaskStep(id, o)) <==> !s.tasks[id].pc.Done?
    ensures Enabled(s, TaskStep(id, o)) ==> Next(s, TaskStep(id, o)).tasks[id].pc == Done(true)
  {
  }

  /** A cancelled task that has started is over within two of its own steps, whatever the executor answers. */
  lemma CancelledTaskEnds(s: State, id: string, o1: Oracle, o2: Oracle)
    requires Inv(s) && id in s.tasks && Begun(s.tasks[id]) && s.tasks[id].mustCancel && !s.tasks[id].pc.Done?
    ensures var s2 := Run(Run(s, [TaskStep(id, o1)]), [TaskStep(id, o2)]);
            id in s2.tasks && s2.tasks[id].pc == Done(true)
  {
    CancelledStep(s, id, o1);
    var s1 := Step(s, id, o1);
    StepKeepsInv(s, id, o1);
    RunOnly(s, TaskStep(id, o1));
    LastStepRuns(s1, id, o2);
  }

  lemma LastStepRuns(s: State, id: string, o: Oracle)
    requires WellFormed(s) && id in s.tasks && id in s.jobs && s.tasks[id].pc in {FinalSave, CancelSave, Done(true)}
    ensures var s' := Run(s, [TaskStep(id, o)]); id in s'.tasks && s'.tasks[id].pc == Done(true)
  {
    RunOnly(s, TaskStep(id, o));
    LastStep(s, id, o);
  }

  lemma RunOnly(s: State, ev: Event)
    ensures Run(s, [ev]) == if Enabled(s, ev) then Next(s, ev) else s
  {
    RunOne(s, [], ev);
    assert [] + [ev] == [ev];
  }
}
