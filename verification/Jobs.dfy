/** A job: one command run inside a sandbox. */
module Jobs {
  import opened Options

  datatype JobStatus = PENDING | RUNNING | COMPLETED | FAILED | TIMEOUT | CANCELLED
  {
    predicate Terminal() { this !in {PENDING, RUNNING} }
  }

  /** The text in a job's `error` field, by the place that writes it. */
  datatype JobError =
    | TimedOutAfter(seconds: nat)
    | Cancelled
    | CancelledWithoutTask
    | SandboxFailure(message: string)
    | InternalError(message: string)
    | Abandoned

  datatype Job = Job(
    experimentId: string,
    command: string,
    workdir: Option<string>,
    kind: string,
    timeoutSeconds: nat,
    status: JobStatus,
    exitCode: Option<int>,
    stdout: string,
    stderr: string,
    stdoutTruncated: bool,
    stderrTruncated: bool,
    error: Option<JobError>,
    startedAt: Option<nat>,
    finishedAt: Option<nat>)

  /** A freshly submitted job. */
  function NewJob(experimentId: string, command: string, workdir: Option<string>, kind: string, timeoutSeconds: nat): Job {
    Job(experimentId, command, workdir, kind, timeoutSeconds, PENDING, None, "", "", false, false, None, None, None)
  }

  /** What the executor reports when the command is over. */
  datatype ExecOutcome = ExecOutcome(
    exitCode: Option<int>, stdout: string, stderr: string,
    stdoutTruncated: bool, stderrTruncated: bool, timedOut: bool)

  /** How awaiting the executor ends. */
  datatype ExecResult =
    | Returned(outcome: ExecOutcome)
    | RaisedSandboxError(message: string)
    | RaisedOther(message: string)
    | RaisedCancelled

  function Started(job: Job, now: nat): Job {
    job.(status := RUNNING, startedAt := Some(now))
  }

  function MarkCancelled(job: Job, now: nat): Job {
    job.(status := CANCELLED, error := Some(Cancelled), finishedAt := Some(now))
  }

  function Finished(job: Job, result: ExecResult, now: nat): Job {
    match result
    case Returned(o) =>
      var filled := job.(stdout := o.stdout, stderr := o.stderr,
      stdoutTruncated := o.stdoutTruncated, stderrTruncated := o.stderrTruncated, finishedAt := Some(now));
      if o.timedOut then filled.(status := TIMEOUT, error := Some(TimedOutAfter(job.timeoutSeconds)))
      else filled.(status := COMPLETED, exitCode := o.exitCode)
    case RaisedSandboxError(m) => job.(status := FAILED, error := Some(SandboxFailure(m)), finishedAt := Some(now))
    case RaisedOther(m) => job.(status := FAILED, error := Some(InternalError(m)), finishedAt := Some(now))
    case RaisedCancelled => MarkCancelled(job, now)
  }

  /** A row left behind by a server that died. */
  function Reconciled(job: Job, now: nat): Job {
    if job.status.Terminal() then job
    else job.(status := FAILED, error := Some(Abandoned), finishedAt := if job.finishedAt.None? then Some(now) else job.finishedAt)
  }

  /** Legal progress of one job: forward along PENDING, RUNNING, terminal, and never out of a terminal record. */
  predicate Progresses(before: Job, after: Job) {
    || after == before
    || (before.status == PENDING && after.status == RUNNING)
    || (!before.status.Terminal() && after.status.Terminal())
  }
}
