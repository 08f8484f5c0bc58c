/** What becomes of a request: every answer of get_job goes back to the events that made it. */
module JobOutcomes {
  import opened Options
  import opened Jobs
  import opened JobProtocol
  import opened JobInvariant
  import opened JobTheorems

  // --- One job, one event ---------------------------------------------------------------------------------------

  /** The record is for the same request. */
  predicate SameRequest(a: Job, b: Job) {
    && a.experimentId == b.experimentId && a.command == b.command && a.workdir == b.workdir && a.kind == b.kind
    && a.timeoutSeconds == b.timeoutSeconds
  }

  predicate SameOutput(a: Job, b: Job) {
    && a.stdout == b.stdout && a.stderr == b.stderr && a.stdoutTruncated == b.stdoutTruncated && a.stderrTruncated == b.stderrTruncated
    && a.exitCode == b.exitCode
  }

  predicate SameEnd(a: Job, b: Job) {
    a.status == b.status && a.error == b.error && a.finishedAt == b.finishedAt && SameOutput(a, b)
  }

  /** The record says what the executor answered: a timeout exactly if the command was killed for its time, the exit code of
      a command that ended by itself, both streams with their flags, and the error of a failure by its origin. */
  predicate Tells(job: Job, result: ExecResult, now: nat) {
    && job.finishedAt == Some(now)
    && match result
       case Returned(out) =>
         && job.stdout == out.stdout && job.stderr == out.stderr
         && job.stdoutTruncated == out.stdoutTruncated && job.stderrTruncated == out.stderrTruncated
         && (job.status == TIMEOUT <==> out.timedOut)
         && (job.status == COMPLETED <==> !out.timedOut)
         && (out.timedOut ==> job.error == Some(TimedOutAfter(job.timeoutSeconds)) && job.exitCode == None)
         && (!out.timedOut ==> job.error == None && job.exitCode == out.exitCode)
       case RaisedSandboxError(message) => job.status == FAILED && job.error == Some(SandboxFailure(message)) && NoOutput(job)
       case RaisedOther(message) => job.status == FAILED && job.error == Some(InternalError(message)) && NoOutput(job)
       case RaisedCancelled => GivenUp(job, now)
  }

  predicate NoOutput(job: Job) {
    job.exitCode == None && job.stdout == "" && job.stderr == "" && !job.stdoutTruncated && !job.stderrTruncated
  }

  predicate GivenUp(job: Job, now: nat) {
    job.status == CANCELLED && job.error == Some(Cancelled) && job.finishedAt == Some(now) && NoOutput(job)
  }

  predicate LeftBehind(job: Job, now: nat) {
    job.status == FAILED && job.error == Some(Abandoned) && job.finishedAt == Some(now) && NoOutput(job)
  }

  /** Nothing has come of the job yet. */
  predicate Open(job: Job) {
    !job.status.Terminal() && job.error == None && job.finishedAt == None && NoOutput(job)
  }

  /** What the executor's answer makes of the record, whatever else goes on. */
  lemma ExecutorDecides(s: State, id: string, o: Oracle)
    requires Inv(s) && id in s.tasks && s.tasks[id].pc.Executing? && Open(s.jobs[id])
    ensures Enabled(s, TaskStep(id, o))
    ensures var s' := Next(s, TaskStep(id, o));
            && id in s'.jobs && Tells(s'.jobs[id], o.result, o.now)
            && SameRequest(s.jobs[id], s'.jobs[id]) && s'.jobs[id].startedAt == s.jobs[id].startedAt
  {
    assert JobOk(s, id);
  }

  /** Every request can be submitted under a fresh id, and the record starts out as asked and empty. */
  lemma RequestIsStored(s: State, id: string, experimentId: string, command: string, workdir: Option<string>, kind: string, timeout: nat)
    requires Inv(s) && id !in s.tasks && id !in s.rows
    ensures var submit := SubmitBegin(id, NewJob(experimentId, command, workdir, kind, timeout));
            && Enabled(s, submit)
            && var s' := Next(s, submit);
            && id in s'.jobs && s'.jobs[id].experimentId == experimentId && s'.jobs[id].command == command
            && s'.jobs[id].workdir == workdir && s'.jobs[id].kind == kind && s'.jobs[id].timeoutSeconds == timeout
            && s'.jobs[id].status == PENDING && s'.jobs[id].startedAt == None && Open(s'.jobs[id])
  {
  }

  // --- Who is behind a record -----------------------------------------------------------------------------------

  /** The event takes the job on. */
  ghost predicate Requests(s: State, ev: Event, id: string, job: Job) {
    Enabled(s, ev) && ev.SubmitBegin? && ev.id == id && SameRequest(ev.job, job)
  }

  /** The event starts the job's command at the given time. */
  ghost predicate Starts(s: State, ev: Event, id: string, now: nat) {
    && Enabled(s, ev) && ev.TaskStep? && ev.id == id && ev.oracle.now == now
    && s.jobs[id].status == PENDING && !s.tasks[id].mustCancel
  }

  /** The event ends the job with what the record says. */
  ghost predicate Ends(s: State, ev: Event, id: string, job: Job) {
    && Enabled(s, ev)
    && match ev
       case TaskStep(i, o) =>
         i == id && if s.tasks[id].pc.Executing? then Tells(job, o.result, o.now) else s.tasks[id].mustCancel && GivenUp(job, o.now)
       case Restart(now) => LeftBehind(job, now)
       case _ => false
  }

  ghost predicate AskedIn(start: State, events: seq<Event>, id: string, job: Job) {
    exists i :: 0 <= i < |events| && Requests(Run(start, events[..i]), events[i], id, job)
  }

  ghost predicate StartedIn(start: State, events: seq<Event>, id: string, now: nat) {
    exists i :: 0 <= i < |events| && Starts(Run(start, events[..i]), events[i], id, now)
  }

  ghost predicate EndedIn(start: State, events: seq<Event>, id: string, job: Job) {
    exists i :: 0 <= i < |events| && Ends(Run(start, events[..i]), events[i], id, job)
  }

  /** The record is explained by the run: who asked for it, when it started, and what ended it. */
  ghost predicate Explained(start: State, events: seq<Event>, id: string, job: Job) {
    && AskedIn(start, events, id, job)
    && (job.startedAt.Some? ==> StartedIn(start, events, id, job.startedAt.value))
    && (job.status == RUNNING ==> job.startedAt.Some?)
    && if job.status.Terminal() then EndedIn(start, events, id, job) else Open(job)
  }

  ghost predicate AllExplained(start: State, events: seq<Event>, s: State) {
    && (forall id :: id in s.jobs ==> Explained(start, events, id, s.jobs[id]))
    && (forall id :: id in s.rows ==> Explained(start, events, id, s.rows[id]))
  }

  lemma AskedLater(start: State, events: seq<Event>, ev: Event, id: string, job: Job, job': Job)
    requires AskedIn(start, events, id, job) && SameRequest(job, job')
    ensures AskedIn(start, events + [ev], id, job')
  {
    var more := events + [ev];
    var i :| 0 <= i < |events| && Requests(Run(start, events[..i]), events[i], id, job);
    assert more[..i] == events[..i] && more[i] == events[i];
    assert Requests(Run(start, more[..i]), more[i], id, job');
  }

  lemma StartedLater(start: State, events: seq<Event>, ev: Event, id: string, now: nat)
    requires StartedIn(start, events, id, now) || Starts(Run(start, events), ev, id, now)
    ensures StartedIn(start, events + [ev], id, now)
  {
    var more := events + [ev];
    var i := |events|;
    if StartedIn(start, events, id, now) { i :| 0 <= i < |events| && Starts(Run(start, events[..i]), events[i], id, now); }
    assert more[..i] == events[..i] && more[i] == if i < |events| then events[i] else ev;
    assert events[..|events|] == events;
    assert Starts(Run(start, more[..i]), more[i], id, now);
  }

  lemma EndedLater(start: State, events: seq<Event>, ev: Event, id: string, job: Job)
    requires EndedIn(start, events, id, job) || Ends(Run(start, events), ev, id, job)
    ensures EndedIn(start, events + [ev], id, job)
  {
    var more := events + [ev];
    var i := |events|;
    if EndedIn(start, events, id, job) { i :| 0 <= i < |events| && Ends(Run(start, events[..i]), events[i], id, job); }
    assert more[..i] == events[..i] && more[i] == if i < |events| then events[i] else ev;
    assert events[..|events|] == events;
    assert Ends(Run(start, more[..i]), more[i], id, job);
  }

  lemma ExplainedLater(start: State, events: seq<Event>, ev: Event, id: string, job: Job)
    requires Explained(start, events, id, job)
    ensures Explained(start, events + [ev], id, job)
  {
    AskedLater(start, events, ev, id, job, job);
    if job.startedAt.Some? { StartedLater(start, events, ev, id, job.startedAt.value); }
    if job.status.Terminal() { EndedLater(start, events, ev, id, job); }
  }

  /** What a task's step may do to its record, in terms of the event. */
  ghost predicate Accounts(s: State, ev: Event, id: string, job: Job, job': Job) {
    SameRequest(job, job') && (job' == job || EndedNow(s, ev, id, job, job') || StartedNow(s, ev, id, job, job'))
  }

  ghost predicate EndedNow(s: State, ev: Event, id: string, job: Job, job': Job) {
    job'.startedAt == job.startedAt && job'.status.Terminal() && Ends(s, ev, id, job')
  }

  ghost predicate StartedNow(s: State, ev: Event, id: string, job: Job, job': Job) {
    job'.status == RUNNING && job'.startedAt.Some? && Starts(s, ev, id, job'.startedAt.value) && Open(job')
  }

  lemma StepAccounts(s: State, id: string, o: Oracle)
    requires Inv(s) && Enabled(s, TaskStep(id, o)) && (s.jobs[id].status.Terminal() || Open(s.jobs[id]))
    ensures id in Step(s, id, o).jobs && Accounts(s, TaskStep(id, o), id, s.jobs[id], Step(s, id, o).jobs[id])
  {
    assert JobOk(s, id);
    match s.tasks[id].pc
    case NotStarted => EnterAccounts(s, id, o);
    case WaitingPermit(_) => ResumeAccounts(s, id, o);
    case Executing(_) => ExecutorDecides(s, id, o);
    case SavingRunning(_) => SavingAccounts(s, id, o);
    case _ =>
  }

  lemma EnterRecord(s: State, id: string, now: nat)
    requires WellFormed(s) && id in s.tasks && id in s.jobs
    ensures id in Enter(s, id, now).jobs
    ensures Enter(s, id, now).jobs[id] in {s.jobs[id], s.jobs[id].(status := RUNNING, startedAt := Some(now))}
  {
  }

  lemma EnterAccounts(s: State, id: string, o: Oracle)
    requires Inv(s) && Enabled(s, TaskStep(id, o)) && s.tasks[id].pc.NotStarted? && s.jobs[id].status == PENDING && Open(s.jobs[id])
    ensures id in Step(s, id, o).jobs && Accounts(s, TaskStep(id, o), id, s.jobs[id], Step(s, id, o).jobs[id])
  {
    if !s.tasks[id].mustCancel { EnterRecord(s, id, o.now); }
  }

  lemma ResumeRecord(s: State, id: string, o: Oracle)
    requires Inv(s) && Enabled(s, TaskStep(id, o)) && s.tasks[id].pc.WaitingPermit?
    ensures id in Step(s, id, o).jobs
    ensures Step(s, id, o).jobs[id] ==
            if s.tasks[id].mustCancel then s.jobs[id].(status := CANCELLED, error := Some(Cancelled), finishedAt := Some(o.now))
            else s.jobs[id].(status := RUNNING, startedAt := Some(o.now))
  {
  }

  lemma ResumeAccounts(s: State, id: string, o: Oracle)
    requires Inv(s) && Enabled(s, TaskStep(id, o)) && s.tasks[id].pc.WaitingPermit? && s.jobs[id].status == PENDING && Open(s.jobs[id])
    ensures id in Step(s, id, o).jobs && Accounts(s, TaskStep(id, o), id, s.jobs[id], Step(s, id, o).jobs[id])
  {
    ResumeRecord(s, id, o);
  }

  lemma SavingRecord(s: State, id: string, o: Oracle)
    requires Inv(s) && Enabled(s, TaskStep(id, o)) && s.tasks[id].pc.SavingRunning?
    ensures id in Step(s, id, o).jobs
    ensures Step(s, id, o).jobs[id] ==
            if s.tasks[id].mustCancel then s.jobs[id].(status := CANCELLED, error := Some(Cancelled), finishedAt := Some(o.now)) else s.jobs[id]
  {
  }

  lemma SavingAccounts(s: State, id: string, o: Oracle)
    requires Inv(s) && Enabled(s, TaskStep(id, o)) && s.tasks[id].pc.SavingRunning? && s.jobs[id].status == RUNNING && Open(s.jobs[id])
    ensures id in Step(s, id, o).jobs && Accounts(s, TaskStep(id, o), id, s.jobs[id], Step(s, id, o).jobs[id])
  {
    SavingRecord(s, id, o);
  }

  lemma AccountedIsExplained(start: State, events: seq<Event>, ev: Event, id: string, job: Job, job': Job)
    requires Explained(start, events, id, job) && Accounts(Run(start, events), ev, id, job, job')
    ensures Explained(start, events + [ev], id, job')
  {
    AskedLater(start, events, ev, id, job, job');
    if job' == job {
      ExplainedLater(start, events, ev, id, job);
    } else if EndedNow(Run(start, events), ev, id, job, job') {
      EndedLater(start, events, ev, id, job');
      if job.startedAt.Some? { StartedLater(start, events, ev, id, job.startedAt.value); }
    } else {
      StartedLater(start, events, ev, id, job'.startedAt.value);
    }
  }

  // --- Every run ------------------------------------------------------------------------------------------------

  lemma ReconciledIsExplained(start: State, events: seq<Event>, now: nat, id: string)
    requires Enabled(Run(start, events), Restart(now)) && id in Run(start, events).rows
    requires Explained(start, events, id, Run(start, events).rows[id])
    ensures Explained(start, events + [Restart(now)], id, Next(Run(start, events), Restart(now)).rows[id])
  {
    var s := Run(start, events);
    var job, job' := s.rows[id], Next(s, Restart(now)).rows[id];
    ExplainedLater(start, events, Restart(now), id, job);
    if !job.status.Terminal() {
      AskedLater(start, events, Restart(now), id, job, job');
      EndedLater(start, events, Restart(now), id, job');
    }
  }

  lemma RequestedIsExplained(start: State, events: seq<Event>, id: string, job: Job)
    requires Enabled(Run(start, events), SubmitBegin(id, job))
    ensures Explained(start, events + [SubmitBegin(id, job)], id, job)
  {
    var more, n := events + [SubmitBegin(id, job)], |events|;
    assert more[..n] == events && more[n] == SubmitBegin(id, job);
    assert Requests(Run(start, more[..n]), more[n], id, job);
  }

  lemma NextKeepsExplained(start: State, events: seq<Event>, ev: Event)
    requires Inv(Run(start, events)) && AllExplained(start, events, Run(start, events)) && Enabled(Run(start, events), ev)
    ensures AllExplained(start, events + [ev], Next(Run(start, events), ev))
  {
    var s := Run(start, events);
    var s' := Next(s, ev);
    EffectOf(s, ev);
    forall id | id in s'.jobs ensures Explained(start, events + [ev], id, s'.jobs[id]) {
      RecordStaysExplained(start, events, ev, id);
    }
    forall id | id in s'.rows ensures Explained(start, events + [ev], id, s'.rows[id]) {
      RowStaysExplained(start, events, ev, id);
    }
  }

  lemma RecordStaysExplained(start: State, events: seq<Event>, ev: Event, id: string)
    requires Inv(Run(start, events)) && AllExplained(start, events, Run(start, events)) && Enabled(Run(start, events), ev)
    requires Effect(Run(start, events), Next(Run(start, events), ev), ev) && id in Next(Run(start, events), ev).jobs
    ensures Explained(start, events + [ev], id, Next(Run(start, events), ev).jobs[id])
  {
    var s := Run(start, events);
    if ev.SubmitBegin? && ev.id == id {
      RequestedIsExplained(start, events, id, ev.job);
    } else if ev.TaskStep? && ev.id == id {
      StepAccounts(s, id, ev.oracle);
      AccountedIsExplained(start, events, ev, id, s.jobs[id], Step(s, id, ev.oracle).jobs[id]);
    } else {
      OtherRecordsStay(s, Next(s, ev), ev, id);
      ExplainedLater(start, events, ev, id, s.jobs[id]);
    }
  }

  lemma OtherRecordsStay(s: State, s': State, ev: Event, id: string)
    requires Effect(s, s', ev) && id in s'.jobs && !((ev.SubmitBegin? || ev.TaskStep?) && ev.id == id)
    ensures id in s.jobs && s'.jobs[id] == s.jobs[id]
  {
  }

  lemma RowsComeFrom(s: State, s': State, ev: Event, id: string)
    requires Effect(s, s', ev) && id in s'.rows && !ev.Restart?
    ensures (id in s.rows && s'.rows[id] == s.rows[id]) || (id in s.jobs && s'.rows[id] == s.jobs[id])
  {
  }

  /** A row is the one before, a record that was in memory, or reconciled. */
  lemma RowStaysExplained(start: State, events: seq<Event>, ev: Event, id: string)
    requires Inv(Run(start, events)) && AllExplained(start, events, Run(start, events)) && Enabled(Run(start, events), ev)
    requires Effect(Run(start, events), Next(Run(start, events), ev), ev) && id in Next(Run(start, events), ev).rows
    ensures Explained(start, events + [ev], id, Next(Run(start, events), ev).rows[id])
  {
    var s := Run(start, events);
    var row := Next(s, ev).rows[id];
    if ev.Restart? {
      ReconciledIsExplained(start, events, ev.now, id);
    } else {
      RowsComeFrom(s, Next(s, ev), ev, id);
      ExplainedLater(start, events, ev, id, row);
    }
  }

  lemma {:induction false} RunIsExplained(limit: nat, events: seq<Event>)
    ensures AllExplained(Init(limit), events, Run(Init(limit), events))
  {
    if events != [] {
      var earlier, ev := events[..|events| - 1], events[|events| - 1];
      RunIsExplained(limit, earlier);
      InvInit(limit);
      RunKeepsInv(Init(limit), earlier);
      assert earlier + [ev] == events;
      var s := Run(Init(limit), earlier);
      if Enabled(s, ev) {
        NextKeepsExplained(Init(limit), earlier, ev);
      } else {
        forall id | id in s.jobs ensures Explained(Init(limit), events, id, s.jobs[id]) { ExplainedLater(Init(limit), earlier, ev, id, s.jobs[id]); }
        forall id | id in s.rows ensures Explained(Init(limit), events, id, s.rows[id]) { ExplainedLater(Init(limit), earlier, ev, id, s.rows[id]); }
      }
    }
  }

  /** In every run, restarts included, every answer of get_job is for the request that was submitted under its id, carries the
      time of the step that started it, and if it is over says what the event that ended it says: the executor's answer, a
      cancellation, or the restart. */
  lemma AnswersAreExplained(limit: nat, events: seq<Event>, id: string)
    requires GetJob(Run(Init(limit), events), id).Some?
    ensures Explained(Init(limit), events, id, GetJob(Run(Init(limit), events), id).value)
  {
    RunIsExplained(limit, events);
  }

  /** Asking to stop sets the flag the user sees and the request the task finds when it resumes, for this job alone. */
  lemma CancelMarks(s: State, id: string, now: nat)
    requires Inv(s) && Enabled(s, Cancel(id, now)) && id in s.tasks && !s.jobs[id].status.Terminal() && !s.tasks[id].pc.Done?
    ensures var s' := Next(s, Cancel(id, now));
            && id in s'.registry && s'.registry == s.registry[id := s'.registry[id]] && s'.registry[id].cancelledByUser
            && id in s'.tasks && s'.tasks == s.tasks[id := s'.tasks[id]] && s'.tasks[id] == Task(s.tasks[id].pc, true)
  {
    assert JobOk(s, id);
    CancelIs(s, id, now);
  }

  /** A save reaches the table, unless it is cancelled on the way: then that is up to the moment. */
  lemma SaveReachesTable(s: State, id: string, o: Oracle)
    requires Inv(s) && Enabled(s, TaskStep(id, o)) && (s.tasks[id].pc.SavingRunning? || s.tasks[id].pc.FinalSave? || s.tasks[id].pc.CancelSave?)
    ensures Next(s, TaskStep(id, o)).rows == if s.tasks[id].mustCancel && !o.written then s.rows else s.rows[id := s.jobs[id]]
  {
    assert JobOk(s, id);
  }

  // --- Nobody is cancelled unasked ------------------------------------------------------------------------------

  predicate AsksToStop(ev: Event, id: string) {
    (ev.Cancel? && ev.id == id) || (ev.Sweep? && id in ev.order)
  }

  lemma AskedHere(s: State, ev: Event, id: string)
    requires Inv(s) && Enabled(s, ev) && !AsksToStop(ev, id) && id in Next(s, ev).tasks && Next(s, ev).tasks[id].mustCancel
    ensures id in s.tasks && s.tasks[id].mustCancel
  {
    if ev.TaskStep? && ev.id == id {
      assert JobOk(s, id);
      StepClearsRequest(s, id, ev.oracle);
    } else {
      EffectOf(s, ev);
      OtherAsksNobody(s, Next(s, ev), ev, id);
    }
  }

  lemma StepClearsRequest(s: State, id: string, o: Oracle)
    requires Inv(s) && Enabled(s, TaskStep(id, o))
    ensures id in Step(s, id, o).tasks && !Step(s, id, o).tasks[id].mustCancel
  {
    assert JobOk(s, id);
  }

  lemma OtherAsksNobody(s: State, s': State, ev: Event, id: string)
    requires Effect(s, s', ev) && !AsksToStop(ev, id) && !(ev.TaskStep? && ev.id == id) && id in s'.tasks && s'.tasks[id].mustCancel
    ensures id in s.tasks && s.tasks[id].mustCancel
  {
  }

  /** A task is asked to stop only by a cancel of its job or a sweep that lists it. */
  lemma {:induction false} StopWasAsked(limit: nat, events: seq<Event>, id: string)
    requires id in Run(Init(limit), events).tasks && Run(Init(limit), events).tasks[id].mustCancel
    ensures exists i :: 0 <= i < |events| && AsksToStop(events[i], id)
  {
    var earlier, ev := events[..|events| - 1], events[|events| - 1];
    var before := Run(Init(limit), earlier);
    InvInit(limit);
    RunKeepsInv(Init(limit), earlier);
    if AsksToStop(ev, id) {
      assert AsksToStop(events[|events| - 1], id);
    } else {
      if Enabled(before, ev) { AskedHere(before, ev, id); }
      StopWasAsked(limit, earlier, id);
      var i :| 0 <= i < |earlier| && AsksToStop(earlier[i], id);
      assert AsksToStop(events[i], id);
    }
  }
}
