/** The execution manager as the object it is: dictionaries updated in place, one method for each piece of code between two
    awaits.  Every method is tied to the event of the step system it carries out, so what is proved there holds here. */
module ExecutionManagers {
  import opened Options
  import opened Jobs
  import opened Semaphores
  import opened JobProtocol
  import opened JobInvariant
  import opened JobTheorems
  import opened JobOutcomes

  /** The live table and the per-experiment semaphores.  `instances` are all semaphore objects ever made; a task keeps
      the index of the one it uses even after the registry has dropped it. */
  class JobRegistry {
    const maxPerExperiment: nat
    var running: map<string, RunningJob>
    var semaphores: map<string, nat>
    var instances: seq<Instance>

    constructor (maxPerExperiment: nat)
      ensures this.maxPerExperiment == maxPerExperiment && running == map[] && semaphores == map[] && instances == []
    {
      this.maxPerExperiment := maxPerExperiment;
      running, semaphores, instances := map[], map[], [];
    }

    method GetSemaphore(experimentId: string) returns (k: nat)
      requires forall e :: e in semaphores ==> semaphores[e] < |instances|
      modifies this`semaphores, this`instances
      ensures experimentId in semaphores && k == semaphores[experimentId] < |instances|
      ensures experimentId in old(semaphores) ==> semaphores == old(semaphores) && instances == old(instances)
      ensures experimentId !in old(semaphores) ==>
                && semaphores == old(semaphores)[experimentId := |old(instances)|]
                && instances == old(instances) + [Instance(experimentId, Semaphore(maxPerExperiment, []))]
    {
      if experimentId !in semaphores {
        semaphores := semaphores[experimentId := |instances|];
        instances := instances + [Instance(experimentId, Semaphore(maxPerExperiment, []))];
      }
      k := semaphores[experimentId];
    }

    method Update(k: nat, sem: Semaphore)
      requires k < |instances|
      modifies this`instances
      ensures instances == old(instances)[k := old(instances)[k].(sem := sem)]
    {
      instances := instances[k := instances[k].(sem := sem)];
    }

    method Add(id: string)
      modifies this`running
      ensures running == old(running)[id := RunningJob(false)]
    {
      running := running[id := RunningJob(false)];
    }

    method Remove(id: string)
      modifies this`running
      ensures running == old(running) - {id}
    {
      running := running - {id};
    }

    method MarkCancelled(id: string)
      modifies this`running
      ensures running == if id in old(running) then old(running)[id := RunningJob(true)] else old(running)
    {
      if id in running {
        running := running[id := RunningJob(true)];
      }
    }

    method DiscardExperiment(experimentId: string)
      modifies this`semaphores
      ensures semaphores == old(semaphores) - {experimentId}
    {
      semaphores := semaphores - {experimentId};
    }
  }

  class ExecutionManager {
    const registry: JobRegistry
    var jobs: map<string, Job>
    var tasks: map<string, Task>
    var rows: map<string, Job>

    /** The state the step system speaks about. */
    function View(): State
      reads this, registry
    {
      State(registry.maxPerExperiment, jobs, tasks, registry.running, rows, registry.instances, registry.semaphores)
    }

    constructor (limit: nat)
      ensures fresh(registry) && View() == Init(limit)
    {
      registry := new JobRegistry(limit);
      jobs, tasks, rows := map[], map[], map[];
    }

    method SaveJob(id: string)
      requires id in jobs
      modifies this`rows
      ensures rows == old(rows)[id := jobs[id]]
    {
      rows := rows[id := jobs[id]];
    }

    // --- submit -------------------------------------------------------------------------------------------------

    method SubmitBegin(id: string, experimentId: string, command: string, workdir: Option<string>, kind: string, timeout: nat)
      requires Enabled(View(), JobProtocol.SubmitBegin(id, NewJob(experimentId, command, workdir, kind, timeout)))
      modifies this
      ensures View() == Next(old(View()), JobProtocol.SubmitBegin(id, NewJob(experimentId, command, workdir, kind, timeout)))
      ensures id in jobs && jobs[id].experimentId == experimentId && jobs[id].command == command && jobs[id].workdir == workdir
      ensures jobs[id].kind == kind && jobs[id].timeoutSeconds == timeout && jobs[id].status == PENDING && Open(jobs[id])
    {
      jobs := jobs[id := NewJob(experimentId, command, workdir, kind, timeout)];
      tasks := tasks[id := Task(Submitting, false)];
    }

    method SubmitEnd(id: string) returns (job: Job)
      requires Enabled(View(), JobProtocol.SubmitEnd(id))
      modifies this, registry
      ensures View() == Next(old(View()), JobProtocol.SubmitEnd(id))
      ensures job == jobs[id]
    {
      SaveJob(id);
      tasks := tasks[id := Task(NotStarted, false)];
      registry.Add(id);
      job := jobs[id];
    }

    // --- _run, one method per stretch between two awaits ----------------------------------------------------------

    method RunFirst(id: string, o: Oracle)
      requires Enabled(View(), TaskStep(id, o)) && tasks[id].pc.NotStarted?
      modifies this, registry
      ensures View() == Next(old(View()), TaskStep(id, o))
    {
      if tasks[id].mustCancel {
        tasks := tasks[id := Task(Done(false), false)];
        return;
      }
      var k := registry.GetSemaphore(jobs[id].experimentId);
      var sem := registry.instances[k].sem;
      if Locked(sem) {
        registry.Update(k, Enqueue(sem, id));
        tasks := tasks[id := Task(WaitingPermit(k), false)];
      } else {
        registry.Update(k, sem.(value := sem.value - 1));
        jobs := jobs[id := jobs[id].(status := RUNNING, startedAt := Some(o.now))];
        tasks := tasks[id := Task(SavingRunning(k), false)];
      }
    }

    method RunAfterAcquire(id: string, k: nat, o: Oracle)
      requires Enabled(View(), TaskStep(id, o)) && tasks[id].pc == WaitingPermit(k)
      modifies this, registry
      ensures View() == Next(old(View()), TaskStep(id, o))
    {
      var sem := registry.instances[k].sem;
      var i := Position(sem.waiters, id);
      if tasks[id].mustCancel {
        registry.Update(k, Abandon(sem, i));
        HandleCancelled(id, o.now);
      } else {
        registry.Update(k, Resume(sem, i));
        jobs := jobs[id := jobs[id].(status := RUNNING, startedAt := Some(o.now))];
        tasks := tasks[id := Task(SavingRunning(k), false)];
      }
    }

    method RunAfterRunningSave(id: string, k: nat, o: Oracle)
      requires Enabled(View(), TaskStep(id, o)) && tasks[id].pc == SavingRunning(k)
      modifies this, registry
      ensures View() == Next(old(View()), TaskStep(id, o))
    {
      if !tasks[id].mustCancel || o.written {
        SaveJob(id);
      }
      if tasks[id].mustCancel {
        registry.Update(k, Release(registry.instances[k].sem));
        HandleCancelled(id, o.now);
      } else {
        tasks := tasks[id := Task(Executing(k), false)];
      }
    }

    method RunAfterExecutor(id: string, k: nat, o: Oracle)
      requires Enabled(View(), TaskStep(id, o)) && tasks[id].pc == Executing(k)
      modifies this, registry
      ensures View() == Next(old(View()), TaskStep(id, o))
      ensures id in jobs && (Open(old(jobs)[id]) ==> Tells(jobs[id], o.result, o.now) && SameRequest(old(jobs)[id], jobs[id]))
    {
      registry.Update(k, Release(registry.instances[k].sem));
      if o.result.RaisedCancelled? {
        HandleCancelled(id, o.now);
      } else {
        RecordResult(id, o.result, o.now);
        tasks := tasks[id := Task(FinalSave, false)];
      }
    }

    method RecordResult(id: string, result: ExecResult, now: nat)
      requires id in jobs && !result.RaisedCancelled?
      modifies this`jobs
      ensures jobs == old(jobs)[id := Finished(old(jobs)[id], result, now)]
      ensures Open(old(jobs)[id]) ==> Tells(jobs[id], result, now) && SameRequest(old(jobs)[id], jobs[id])
    {
      var job := jobs[id];
      match result {
        case Returned(outcome) =>
          job := job.(stdout := outcome.stdout, stderr := outcome.stderr,
          stdoutTruncated := outcome.stdoutTruncated, stderrTruncated := outcome.stderrTruncated);
          if outcome.timedOut {
            job := job.(status := TIMEOUT, error := Some(TimedOutAfter(job.timeoutSeconds)));
          } else {
            job := job.(status := COMPLETED, exitCode := outcome.exitCode);
          }
        case RaisedSandboxError(message) => job := job.(status := FAILED, error := Some(SandboxFailure(message)));
        case RaisedOther(message) => job := job.(status := FAILED, error := Some(InternalError(message)));
      }
      jobs := jobs[id := job.(finishedAt := Some(now))];
    }

    method HandleCancelled(id: string, now: nat)
      requires id in jobs
      modifies this`jobs, this`tasks
      ensures jobs == old(jobs)[id := Jobs.MarkCancelled(old(jobs)[id], now)]
      ensures tasks == old(tasks)[id := Task(CancelSave, false)]
    {
      jobs := jobs[id := jobs[id].(status := CANCELLED, error := Some(Cancelled), finishedAt := Some(now))];
      tasks := tasks[id := Task(CancelSave, false)];
    }

    method RunAfterLastSave(id: string, o: Oracle)
      requires Enabled(View(), TaskStep(id, o)) && (tasks[id].pc.FinalSave? || tasks[id].pc.CancelSave?)
      modifies this, registry
      ensures View() == Next(old(View()), TaskStep(id, o))
    {
      if !tasks[id].mustCancel || o.written {
        SaveJob(id);
      }
      if !tasks[id].mustCancel {
        registry.Remove(id);
      }
      assert jobs[id := jobs[id]] == jobs;
      tasks := tasks[id := Task(Done(true), false)];
    }

    // --- queries and control ------------------------------------------------------------------------------------

    /** None stands for the JobNotFoundError. */
    method GetJob(id: string) returns (job: Option<Job>)
      requires Inv(View())
      ensures job == JobProtocol.GetJob(View(), id)
      ensures id in tasks && !tasks[id].pc.Submitting? ==> job == Some(jobs[id])
    {
      if id in tasks && !tasks[id].pc.Submitting? { GetJobIsCurrent(View(), id); }
      if id in registry.running {
        assert id in View().registry.Keys;
        return Some(jobs[id]);
      }
      if id in rows { return Some(rows[id]); }
      return None;
    }

    method RequestCancel(id: string)
      requires id in tasks ==> (tasks[id].pc.WaitingPermit? ==> tasks[id].pc.sem < |registry.instances|)
      modifies this, registry
      ensures View() == CancelTask(old(View()), id)
    {
      if id !in tasks || tasks[id].pc.Done? { return; }
      match tasks[id].pc {
        case WaitingPermit(k) =>
          var sem := registry.instances[k].sem;
          var i := Position(sem.waiters, id);
          if i < |sem.waiters| { registry.Update(k, Revoke(sem, i)); }
        case _ =>
      }
      tasks := tasks[id := tasks[id].(mustCancel := true)];
    }

    method AskToStop(id: string)
      requires Inv(View()) && id in registry.running
      modifies this, registry
      ensures View() == CancelTask(MarkUser(old(View()), id), id) && Inv(View())
      ensures View().registry.Keys == old(View()).registry.Keys
    {
      AskOneKeepsInv(View(), id);
      registry.MarkCancelled(id);
      RequestCancel(id);
    }

    /** Up to the await.  `job` is the early answer for a job that is already over. */
    method CancelBegin(id: string, now: nat) returns (found: bool, job: Option<Job>)
      requires Inv(View()) && Enabled(View(), Cancel(id, now))
      modifies this, registry
      ensures View() == Next(old(View()), Cancel(id, now)) && Inv(View())
      ensures found <==> JobProtocol.GetJob(old(View()), id).Some?
      ensures found && JobProtocol.GetJob(old(View()), id).value.status.Terminal() ==>
                job == JobProtocol.GetJob(old(View()), id) && View() == old(View())
      ensures found && !JobProtocol.GetJob(old(View()), id).value.status.Terminal() ==> job == None && id in tasks
    {
      NextKeepsInv(View(), Cancel(id, now));
      job := GetJob(id);
      found := job.Some?;
      if !found || job.value.status.Terminal() { return; }
      if id !in registry.running {
        CancelFindsTask(View(), id);
        assert false;
      } else {
        CancelFindsTask(View(), id);
        AskToStop(id);
        job := None;
      }
    }

    /** The records of an experiment, in some order. */
    method ForExperiment(experimentId: string) returns (order: seq<string>)
      requires registry.running.Keys <= jobs.Keys
      ensures Enumerates(order, RegisteredFor(View(), experimentId))
    {
      order := [];
      var todo := registry.running.Keys;
      while todo != {}
        invariant todo <= registry.running.Keys
        invariant forall i, j :: 0 <= i < j < |order| ==> order[i] != order[j]
        invariant Elements(order) == set id | id in RegisteredFor(View(), experimentId) && id !in todo
        decreases todo
      {
        var id :| id in todo;
        todo := todo - {id};
        if jobs[id].experimentId == experimentId {
          assert id !in Elements(order);
          assert Elements(order + [id]) == Elements(order) + {id};
          order := order + [id];
        }
      }
    }

    /** The part of cancel_experiment_jobs before it awaits the tasks one after the other. */
    method CancelExperimentJobsBegin(experimentId: string) returns (order: seq<string>)
      requires Inv(View())
      modifies this, registry
      ensures Enabled(old(View()), Sweep(experimentId, order))
      ensures View() == Next(old(View()), Sweep(experimentId, order)) && Inv(View())
    {
      order := ForExperiment(experimentId);
      ghost var before := View();
      assert order[..|order|] == order;
      for i := 0 to |order|
        invariant View() == SweepSteps(before, order[..i])
        invariant Inv(View()) && View().registry.Keys == before.registry.Keys
      {
        assert order[i] in Elements(order);
        assert order[i] in View().registry.Keys;
        assert order[..i + 1][..i] == order[..i];
        AskToStop(order[i]);
      }
    }

    method CancelExperimentJobsEnd(experimentId: string)
      requires Enabled(View(), Discard(experimentId))
      modifies registry
      ensures View() == Next(old(View()), Discard(experimentId))
    {
      registry.DiscardExperiment(experimentId);
    }

    // --- after a restart ----------------------------------------------------------------------------------------

    /** A new process over the rows an old one left: no tasks, no registry, and every unfinished row reconciled. */
    constructor Restarted(before: ExecutionManager, now: nat)
      requires WellFormed(before.View())
      ensures fresh(registry)
      ensures View() == Next(before.View(), Restart(now))
      ensures forall id :: id in rows ==> rows[id].status.Terminal()
    {
      registry := new JobRegistry(before.registry.maxPerExperiment);
      jobs, tasks := map[], map[];
      rows := map id | id in before.rows :: Reconciled(before.rows[id], now);
    }
  }
}
