/** What the fields of a job's record say together, in every run. */
module JobRecords {
  import opened Options
  import opened Jobs
  import opened JobProtocol
  import opened JobInvariant
  import opened JobTheorems

  /** The end time is set exactly when the job is over, the error exactly when it is over and did not complete, the exit
      code only for a completed job, output only where the executor returned some, and the start time whenever the
      executor was asked; only a job that was given up before it started is over without one. */
  predicate Consistent(job: Job) {
    && (job.finishedAt.Some? <==> job.status.Terminal())
    && (job.error.Some? <==> job.status.Terminal() && job.status != COMPLETED)
    && (job.exitCode.Some? ==> job.status == COMPLETED)
    && (job.stdout != "" || job.stderr != "" || job.stdoutTruncated || job.stderrTruncated ==> job.status in {COMPLETED, TIMEOUT})
    && (job.status == PENDING ==> job.startedAt.None?)
    && (job.status in {RUNNING, COMPLETED, TIMEOUT} ==> job.startedAt.Some?)
    && (job.status == CANCELLED <==> job.error == Some(Cancelled))
    && (job.status == TIMEOUT <==> job.error == Some(TimedOutAfter(job.timeoutSeconds)))
    && (job.status.Terminal() && job.startedAt.None? ==> job.error in {Some(Cancelled), Some(Abandoned)})
  }

  ghost predicate AllConsistent(s: State) {
    && (forall id :: id in s.jobs ==> Consistent(s.jobs[id]))
    && (forall id :: id in s.rows ==> Consistent(s.rows[id]))
  }

  lemma EnterKeepsConsistent(s: State, id: string, now: nat)
    requires WellFormed(s) && id in s.tasks && id in s.jobs && s.jobs[id].status == PENDING && Consistent(s.jobs[id])
    ensures id in Enter(s, id, now).jobs && Consistent(Enter(s, id, now).jobs[id])
  {
  }

  lemma StepKeepsConsistent(s: State, id: string, o: Oracle)
    requires WellFormed(s) && Runnable(s, id) && JobOk(s, id) && Consistent(s.jobs[id])
    ensures id in Step(s, id, o).jobs && Consistent(Step(s, id, o).jobs[id])
  {
    match s.tasks[id].pc
    case NotStarted => EnterKeepsConsistent(s, id, o.now);
    case Executing(_) => FinishedIsConsistent(s.jobs[id], o.result, o.now);
    case _ =>
  }

  lemma FinishedIsConsistent(job: Job, result: ExecResult, now: nat)
    requires job.status == RUNNING && Consistent(job)
    ensures Consistent(Finished(job, result, now))
  {
  }

  lemma NextKeepsConsistent(s: State, ev: Event)
    requires Inv(s) && AllConsistent(s) && Enabled(s, ev)
    ensures AllConsistent(Next(s, ev))
  {
    EffectOf(s, ev);
    match ev
    case TaskStep(id, o) =>
      assert JobOk(s, id);
      StepKeepsConsistent(s, id, o);
      OneRecordMoves(s, Next(s, ev), id);
    case Cancel(id, now) =>
    case Sweep(_, order) =>
    case _ => OtherKeepsConsistent(s, ev);
  }

  lemma OneRecordMoves(s: State, s': State, id: string)
    requires AllConsistent(s) && id in s.jobs && id in s.tasks && StepOf(s, s', id) && Consistent(s'.jobs[id])
    ensures AllConsistent(s')
  {
  }

  lemma OtherKeepsConsistent(s: State, ev: Event)
    requires AllConsistent(s) && Enabled(s, ev) && (ev.SubmitBegin? || ev.SubmitEnd? || ev.Discard? || ev.Restart?)
    ensures AllConsistent(Next(s, ev))
  {
  }

  lemma {:induction false} RunKeepsConsistent(s: State, events: seq<Event>)
    requires Inv(s) && AllConsistent(s)
    ensures AllConsistent(Run(s, events))
  {
    if events != [] {
      var last := |events| - 1;
      RunKeepsConsistent(s, events[..last]);
      RunKeepsInv(s, events[..last]);
      var before := Run(s, events[..last]);
      if Enabled(before, events[last]) { NextKeepsConsistent(before, events[last]); }
    }
  }

  /** In every run every record, in memory and in its row, is consistent, and so is every answer of get_job. */
  lemma RecordsAreConsistent(limit: nat, events: seq<Event>, id: string)
    ensures var s := Run(Init(limit), events);
            && (id in s.jobs ==> Consistent(s.jobs[id]))
            && (id in s.rows ==> Consistent(s.rows[id]))
            && (GetJob(s, id).Some? ==> Consistent(GetJob(s, id).value))
  {
    InvInit(limit);
    RunKeepsConsistent(Init(limit), events);
  }
}
