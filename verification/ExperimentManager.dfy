/** The experiment manager as the object it is: rows, audit log and containers updated in place.  The first half has one
    method for each stretch of code between two durable effects, tied to the step system; the second half runs create,
    execute and destroy from start to end, undisturbed, and states what they leave behind. */
module ExperimentManagers {
  import opened Options
  import Jobs
  import opened ExperimentStates
  import opened Lifecycle
  import opened LifecycleTheorems

  datatype Refusal = NotFound | Destroyed | NoSandbox | AtCapacity | Rejected(reason: string)

  /** How an operation ends: normally, with nothing to do, refused, or with an exception. */
  datatype Outcome = Accepted | AlreadyDestroyed | Refused(why: Refusal) | IllegalTransition | Failed(reason: string)

  class ExperimentManager {
    const maxLive: nat
    var rows: map<string, Experiment>
    var log: map<string, seq<Edge>>
    var containers: set<nat>
    var ops: map<nat, Op>
    var clock: nat
    var nextContainer: nat
    ghost var torn: set<nat>
    ghost var orphans: set<nat>
    ghost var gapped: set<string>

    ghost function View(): State
      reads this
    {
      State(maxLive, rows, log, containers, ops, clock, nextContainer, torn, orphans, gapped)
    }

    constructor (maxLive: nat)
      ensures View() == Init(maxLive)
    {
      this.maxLive := maxLive;
      rows, log, containers, ops, clock, nextContainer := map[], map[], {}, map[], 0, 0;
      torn, orphans, gapped := {}, {}, {};
    }

    method Continue(o: nat, op: Op)
      modifies this`ops, this`clock
      ensures ops == if op.pc.Finish? then old(ops) - {o} else old(ops)[o := op]
      ensures clock == old(clock) + 1
    {
      ops := if op.pc.Finish? then ops - {o} else ops[o := op];
      clock := clock + 1;
    }

    method RecordTransition(id: string, edge: Edge)
      modifies this`log
      ensures log == old(log)[id := (if id in old(log) then old(log)[id] else []) + [edge]]
    {
      log := log[id := (if id in log then log[id] else []) + [edge]];
    }

    /** The backend's removal of an operation's own container. */
    method RemoveContainer(container: Option<nat>, works: bool)
      modifies this`containers, this`torn
      ensures View() == RemoveOwn(old(View()), container, works)
    {
      if container.Some? {
        torn := torn + {container.value};
        if works { containers := containers - {container.value}; }
      }
    }

    // --- one method for each step -------------------------------------------------------------------------------

    /** The first half of _transition: check the table, set status and timestamps, save the row. */
    method Transition(o: nat, x: Oracle)
      requires o in ops && ops[o].pc.Move?
      modifies this
      ensures View() == Next(old(View()), OpStep(o, x))
    {
      var op := ops[o];
      var current, target := op.local.status, op.pc.target;
      if current == target {
        Continue(o, op.(pc := op.pc.rest));
      } else if !CanTransition(current, target) {
        Continue(o, op.(pc := Finish));
      } else {
        var experiment := op.local.(status := target);
        if target == READY && experiment.readyAt.None? {
          experiment := experiment.(readyAt := Some(clock));
        } else if target == RUNNING && experiment.startedAt.None? {
          experiment := experiment.(startedAt := Some(clock));
        } else if target in {COMPLETED, FAILED, TIMEOUT, CANCELLED} {
          experiment := experiment.(completedAt := Some(clock));
        } else if target == DESTROYED {
          experiment := experiment.(destroyedAt := Some(clock));
        }
        rows := rows[op.id := experiment];
        Continue(o, op.(local := experiment, pc := Log(Edge(Some(current), target), op.pc.rest)));
      }
    }

    /** The second half: the audit entry. */
    method Audit(o: nat, x: Oracle)
      requires o in ops && (ops[o].pc.Log? || ops[o].pc.LogCreating?)
      modifies this
      ensures View() == Next(old(View()), OpStep(o, x))
    {
      var op := ops[o];
      if op.pc.LogCreating? {
        RecordTransition(op.id, Edge(None, CREATING));
        Continue(o, op.(pc := Provision));
      } else {
        RecordTransition(op.id, op.pc.edge);
        Continue(o, op.(pc := op.pc.rest));
      }
    }

    /** The body of create's try block, piece by piece. */
    method CreateBody(o: nat, x: Oracle)
      requires o in ops && (ops[o].pc.Provision? || ops[o].pc.Attach? || ops[o].pc.Baseline? || ops[o].pc.AfterReady?)
      modifies this
      ensures View() == Next(old(View()), OpStep(o, x))
    {
      var op := ops[o];
      match op.pc {
        case Provision =>
          if x.raises.Some? {
            if !x.removalWorks {
              containers := containers + {nextContainer};
              orphans := orphans + {nextContainer};
              nextContainer := nextContainer + 1;
            }
            Continue(o, op.(pc := FailSave(x.raises.value)));
          } else {
            containers := containers + {nextContainer};
            Continue(o, op.(pc := Attach(nextContainer)));
            nextContainer := nextContainer + 1;
          }
        case Attach(c) =>
          var experiment := op.local.(container := Some(c));
          rows := rows[op.id := experiment];
          Continue(o, op.(local := experiment, pc := Baseline));
        case Baseline =>
          Continue(o, op.(pc := if x.raises.Some? then FailSave(x.raises.value) else Move(READY, AfterReady)));
        case AfterReady =>
          Continue(o, op.(pc := if op.local.hasSetup then Move(RUNNING, AwaitJob(true)) else Finish));
      }
    }

    /** _fail_creation, before its transition. */
    method FailCreation(o: nat, x: Oracle)
      requires o in ops && (ops[o].pc.FailSave? || ops[o].pc.FailCleanup?)
      modifies this
      ensures View() == Next(old(View()), OpStep(o, x))
    {
      var op := ops[o];
      if op.pc.FailSave? {
        var experiment := op.local.(error := Some(op.pc.reason));
        rows := rows[op.id := experiment];
        Continue(o, op.(local := experiment, pc := FailCleanup));
      } else {
        RemoveContainer(op.local.container, x.removalWorks);
        Continue(o, op.(pc := if op.local.container.Some? && x.raises.Some? then Finish else Move(FAILED, Finish)));
      }
    }

    /** The awaited job is over: _settle, or the verdict on the setup commands, picks the next state. */
    method Settle(o: nat, x: Oracle)
      requires o in ops && ops[o].pc.AwaitJob?
      modifies this
      ensures View() == Next(old(View()), OpStep(o, x))
    {
      var op := ops[o];
      var target := SettleTarget(x.jobStatus, x.exitCode);
      if op.pc.setup {
        target := if CommandFails(x) then FAILED else READY;
      }
      Continue(o, op.(pc := Move(target, Finish)));
    }

    method TearDownSandbox(o: nat, x: Oracle)
      requires o in ops && ops[o].pc.TearDown?
      modifies this
      ensures View() == Next(old(View()), OpStep(o, x))
    {
      var op := ops[o];
      RemoveContainer(op.local.container, x.removalWorks);
      Continue(o, op.(pc := if x.raises.Some? then Finish else Move(DESTROYED, Finish)));
    }

    /** The sweep of startup, container by container, after a crash.  The removal of the `stuck` containers fails. */
    method Startup(stuck: set<nat>)
      requires ops == map[]
      modifies this`containers, this`orphans
      ensures var doomed := old(containers) - LiveIds(rows);
              View() == Next(old(View()), if doomed !! stuck then Lifecycle.Startup else StartupInterrupted(doomed - stuck))
    {
      var liveIds := LiveIds(rows);
      var todo, left := containers, {};
      while todo != {}
        invariant todo <= old(containers) && orphans == old(orphans)
        invariant left == (old(containers) - todo - liveIds) * stuck
        invariant containers == set c | c in old(containers) && (c in todo || c in liveIds || c in stuck)
        decreases todo
      {
        var c :| c in todo;
        todo := todo - {c};
        if c in liveIds { continue; }
        if c in stuck { left := left + {c}; } else { containers := containers - {c}; }
      }
      ghost var doomed := old(containers) - liveIds;
      assert left == doomed * stuck;
      if left == {} {
        assert forall c :: c in doomed ==> c !in stuck by { assert forall c :: c in doomed && c in stuck ==> c in left; }
        assert containers == old(containers) * liveIds;
        orphans := {};
      } else {
        ghost var c :| c in left;
        assert c in doomed * stuck && !(doomed !! stuck);
        assert containers == old(containers) - (doomed - stuck);
      }
    }

    // --- whole operations, undisturbed --------------------------------------------------------------------------

    /** All of _transition for an operation the table lets through. */
    method EnterState(o: nat, x: Oracle)
      requires o in ops && ops[o].pc.Move? && ExperimentStates.Accepted(ops[o].local.status, ops[o].pc.target)
      modifies this
      ensures containers == old(containers) && torn == old(torn) && nextContainer == old(nextContainer)
      ensures var op := old(ops)[o];
              var local := if op.local.status == op.pc.target then op.local else Entered(op.local, op.pc.target, old(clock));
              && rows == (if op.local.status == op.pc.target then old(rows) else old(rows)[op.id := local])
              && log == (if op.local.status == op.pc.target then old(log)
                         else old(log)[op.id := LogOf(old(View()), op.id) + [Edge(Some(op.local.status), op.pc.target)]])
              && ops == if op.pc.rest.Finish? then old(ops) - {o} else old(ops)[o := Op(op.id, local, op.pc.rest)]
    {
      var move := ops[o].local.status != ops[o].pc.target;
      ghost var before := ops;
      Transition(o, x);
      if move {
        assert ops == before[o := ops[o]] && ops[o].pc.Log?;
        Audit(o, x);
        assert before[o := Op(before[o].id, rows[before[o].id],
                              Log(Edge(Some(before[o].local.status), before[o].pc.target), before[o].pc.rest))] - {o}
            == before - {o};
      }
    }

    /** create: refused at capacity, then by path or policy; otherwise the row and its trail say how far the creation got, and
        a container is left exactly if it got past the baseline or its removal failed. */
    method Create(o: nat, e: string, rejected: Option<string>, start: Oracle, baseline: Oracle, cleanup: Oracle, setup: seq<Oracle>)
      returns (outcome: Outcome)
      requires o !in ops && e !in rows && e !in log && nextContainer !in containers
      modifies this
      ensures outcome.Refused? ==> View() == old(View())
      ensures outcome == Refused(AtCapacity) <==> !HasCapacity(old(View()))
      ensures outcome == Refused(AtCapacity) <==> |Counted(old(rows))| >= maxLive
      ensures |old(rows)| <= 500 ==> (outcome == Refused(AtCapacity) <==> |AliveRows(old(rows))| >= maxLive)
      ensures HasCapacity(old(View())) && rejected.Some? ==> outcome == Refused(Rejected(rejected.value))
      ensures HasCapacity(old(View())) && rejected.None? ==> outcome == CreationOutcome(start, baseline, cleanup)
      ensures !outcome.Refused? ==> CreatedFrom(old(View()), View(), e, start, baseline, cleanup, setup)
    {
      var refusal := Admit(rejected);
      if refusal.Some? { return Refused(refusal.value); }
      CreateAdmitted(o, e, start, baseline, cleanup, setup);
      outcome := CreationOutcome(start, baseline, cleanup);
    }

    method CreateAdmitted(o: nat, e: string, start: Oracle, baseline: Oracle, cleanup: Oracle, setup: seq<Oracle>)
      requires o !in ops && e !in rows && e !in log && nextContainer !in containers
      modifies this
      ensures CreatedFrom(old(View()), View(), e, start, baseline, cleanup, setup)
    {
      BeginCreation(o, e, setup != [], start);
      TryBlock(o, e, start, baseline, cleanup, setup);
      assert ops == old(ops);
    }

    /** The checks before anything is saved: no more experiments than the maximum, then path and policy. */
    method Admit(rejected: Option<string>) returns (refusal: Option<Refusal>)
      ensures refusal == if !HasCapacity(View()) then Some(AtCapacity) else if rejected.Some? then Some(Rejected(rejected.value)) else None
      ensures refusal == Some(AtCapacity) <==> |Counted(rows)| >= maxLive
      ensures |rows| <= 500 ==> (refusal == Some(AtCapacity) <==> |AliveRows(rows)| >= maxLive)
    {
      RoomExactly(View());
      var room := HasCapacityNow();
      if !room { return Some(AtCapacity); }
      if rejected.Some? { return Some(Rejected(rejected.value)); }
      return None;
    }

    /** create's try block with its handlers, and the setup commands after it. */
    method TryBlock(o: nat, e: string, start: Oracle, baseline: Oracle, cleanup: Oracle, setup: seq<Oracle>)
      requires o in ops && e in rows && ops[o] == Op(e, rows[e], Provision) && nextContainer !in containers
      requires rows[e].status == CREATING && rows[e].container.None? && rows[e].error.None? && rows[e].hasSetup == (setup != [])
      modifies this
      ensures ops == old(ops) - {o}
      ensures e in rows && rows == old(rows)[e := rows[e]]
      ensures var trail := CreationTrail(start, baseline, cleanup, setup);
              LogOf(View(), e) == LogOf(old(View()), e) + trail && OnlyLogOf(old(log), log, e) && rows[e].status == EndOf(trail)
      ensures rows[e].container == (if start.raises.Some? then None else Some(old(nextContainer)))
      ensures rows[e].error == (if start.raises.Some? then start.raises else baseline.raises)
      ensures containers == if CreationLeaves(start, baseline, cleanup) then old(containers) + {old(nextContainer)} else old(containers)
    {
      if start.raises.Some? {
        CreateBody(o, start);
        assert ops == old(ops)[o := Op(e, rows[e], FailSave(start.raises.value))];
        AbortCreation(o, e, start.raises.value, cleanup);
      } else {
        ProvisionSandbox(o, e, start);
        FinishCreation(o, e, baseline, cleanup, setup);
      }
      assert ops == old(ops) - {o};
    }

    method BeginCreation(o: nat, e: string, hasSetup: bool, x: Oracle)
      requires o !in ops && e !in rows && e !in log
      modifies this
      ensures rows == old(rows)[e := NewExperiment(hasSetup, old(clock))]
      ensures log == old(log)[e := [Edge(None, CREATING)]]
      ensures ops == old(ops)[o := Op(e, NewExperiment(hasSetup, old(clock)), Provision)]
      ensures containers == old(containers) && nextContainer == old(nextContainer)
    {
      rows := rows[e := NewExperiment(hasSetup, clock)];
      Continue(o, Op(e, NewExperiment(hasSetup, clock), LogCreating));
      Audit(o, x);
      assert [] + [Edge(None, CREATING)] == [Edge(None, CREATING)];
    }

    /** Start the container and save its id. */
    method ProvisionSandbox(o: nat, e: string, x: Oracle)
      requires o in ops && e in rows && ops[o] == Op(e, rows[e], Provision) && x.raises.None?
      modifies this
      ensures e in rows && rows == old(rows)[e := old(rows)[e].(container := Some(old(nextContainer)))]
      ensures ops == old(ops)[o := Op(e, rows[e], Baseline)] && log == old(log)
      ensures containers == old(containers) + {old(nextContainer)}
    {
      ghost var before := ops;
      CreateBody(o, x);
      assert ops == before[o := Op(e, rows[e], Attach(nextContainer - 1))];
      CreateBody(o, x);
    }

    /** From the baseline on. */
    method FinishCreation(o: nat, e: string, baseline: Oracle, cleanup: Oracle, setup: seq<Oracle>)
      requires o in ops && e in rows && ops[o] == Op(e, rows[e], Baseline)
      requires rows[e].status == CREATING && rows[e].container.Some? && rows[e].error.None? && rows[e].hasSetup == (setup != [])
      modifies this
      ensures ops == old(ops) - {o}
      ensures e in rows && rows == old(rows)[e := rows[e]] && rows[e].container == old(rows)[e].container && rows[e].error == baseline.raises
      ensures var trail := TrailFrom(baseline, cleanup, setup);
              LogOf(View(), e) == LogOf(old(View()), e) + trail && OnlyLogOf(old(log), log, e) && rows[e].status == EndOf(trail)
      ensures containers == if baseline.raises.Some? && cleanup.removalWorks then old(containers) - {rows[e].container.value} else old(containers)
    {
      ghost var before := ops;
      CreateBody(o, baseline);
      if baseline.raises.Some? {
        assert ops == before[o := Op(e, rows[e], FailSave(baseline.raises.value))];
        AbortCreation(o, e, baseline.raises.value, cleanup);
      } else {
        assert ops == before[o := Op(e, rows[e], Move(READY, AfterReady))];
        BecomeReady(o, e, setup);
      }
      assert ops == before - {o};
    }

    method BecomeReady(o: nat, e: string, setup: seq<Oracle>)
      requires o in ops && e in rows && ops[o] == Op(e, rows[e], Move(READY, AfterReady))
      requires rows[e].status == CREATING && rows[e].hasSetup == (setup != [])
      modifies this
      ensures ops == old(ops) - {o} && containers == old(containers)
      ensures e in rows && rows == old(rows)[e := rows[e]] && rows[e].container == old(rows)[e].container && rows[e].error == old(rows)[e].error
      ensures LogOf(View(), e) == LogOf(old(View()), e) + ReadyTrail(setup) && OnlyLogOf(old(log), log, e)
      ensures rows[e].status == EndOf(ReadyTrail(setup))
    {
      ghost var before, trail := ops, LogOf(View(), e);
      EnterReady(o, e);
      if setup != [] {
        RunSetup(o, e, setup);
        assert trail + [Edge(Some(CREATING), READY)] + [Edge(Some(READY), RUNNING)] + [Edge(Some(RUNNING), SetupVerdict(setup))]
            == trail + ReadyTrail(setup);
      }
      assert ops == before - {o};
    }

    method EnterReady(o: nat, e: string)
      requires o in ops && e in rows && ops[o] == Op(e, rows[e], Move(READY, AfterReady)) && rows[e].status == CREATING
      modifies this
      ensures e in rows && rows == old(rows)[e := rows[e]] && rows[e].status == READY && containers == old(containers)
      ensures rows[e].container == old(rows)[e].container && rows[e].error == old(rows)[e].error && rows[e].hasSetup == old(rows)[e].hasSetup
      ensures log == old(log)[e := LogOf(old(View()), e) + [Edge(Some(CREATING), READY)]]
      ensures ops == if rows[e].hasSetup then old(ops)[o := Op(e, rows[e], Move(RUNNING, AwaitJob(true)))] else old(ops) - {o}
    {
      ghost var before := ops;
      var x := Oracle(None, true, Jobs.COMPLETED, Some(0));
      EnterState(o, x);
      assert ops == before[o := Op(e, rows[e], AfterReady)];
      CreateBody(o, x);
    }

    method HasCapacityNow() returns (room: bool)
      ensures room == HasCapacity(View())
    {
      var listed := map e | e in rows && e in Newest(rows) :: rows[e];
      room := |LiveRows(listed)| < maxLive;
    }

    /** _fail_creation.  An exception that escapes the removal leaves the row as it was saved. */
    method AbortCreation(o: nat, e: string, reason: string, x: Oracle)
      requires o in ops && e in rows && ops[o] == Op(e, rows[e], FailSave(reason)) && rows[e].status == CREATING
      modifies this
      ensures ops == old(ops) - {o}
      ensures e in rows && rows == old(rows)[e := rows[e]] && rows[e].container == old(rows)[e].container
      ensures rows[e].error == Some(reason)
      ensures var trail := FailureTrail(rows[e].container.Some?, x);
              LogOf(View(), e) == LogOf(old(View()), e) + trail && OnlyLogOf(old(log), log, e) && rows[e].status == EndOf(trail)
      ensures containers == if rows[e].container.Some? && x.removalWorks then old(containers) - {rows[e].container.value} else old(containers)
    {
      ghost var before := ops;
      BeginFailure(o, e, reason, x);
      if rows[e].container.None? || x.raises.None? { EnterState(o, x); }
      assert ops == before - {o};
    }

    /** The error is saved and the container's removal attempted. */
    method BeginFailure(o: nat, e: string, reason: string, x: Oracle)
      requires o in ops && e in rows && ops[o] == Op(e, rows[e], FailSave(reason))
      modifies this
      ensures e in rows && rows == old(rows)[e := old(rows)[e].(error := Some(reason))] && log == old(log)
      ensures ops == if rows[e].container.Some? && x.raises.Some? then old(ops) - {o}
                     else old(ops)[o := Op(e, rows[e], Move(FAILED, Finish))]
      ensures containers == if rows[e].container.Some? && x.removalWorks then old(containers) - {rows[e].container.value} else old(containers)
    {
      ghost var before := ops;
      FailCreation(o, x);
      assert ops == before[o := Op(e, rows[e], FailCleanup)];
      FailCreation(o, x);
    }

    /** The setup commands, after the experiment became READY: one after the other, up to the first that fails. */
    method RunSetup(o: nat, e: string, results: seq<Oracle>)
      requires o in ops && e in rows && ops[o] == Op(e, rows[e], Move(RUNNING, AwaitJob(true))) && rows[e].status == READY
      requires results != []
      modifies this
      ensures ops == old(ops) - {o} && containers == old(containers)
      ensures e in rows && rows == old(rows)[e := rows[e]] && rows[e].container == old(rows)[e].container && rows[e].error == old(rows)[e].error
      ensures rows[e].status == SetupVerdict(results)
      ensures rows[e].status == READY <==> forall i :: 0 <= i < |results| ==> results[i].jobStatus == Jobs.COMPLETED && results[i].exitCode == Some(0)
      ensures log == old(log)[e := LogOf(old(View()), e) + [Edge(Some(READY), RUNNING)] + [Edge(Some(RUNNING), SetupVerdict(results))]]
    {
      ghost var before := ops;
      EnterState(o, results[0]);
      assert ops == before[o := Op(e, rows[e], AwaitJob(true))];
      var failed, last := AwaitCommands(results);
      SettleSetup(o, e, last);
      assert ops == before - {o};
    }

    /** The loop over the setup commands, each awaited before the next starts. */
    method AwaitCommands(results: seq<Oracle>) returns (failed: bool, last: Oracle)
      requires results != []
      ensures failed == CommandFails(last) == (SetupVerdict(results) == FAILED)
    {
      failed, last := false, results[0];
      for i := 0 to |results|
        invariant !failed && forall j :: 0 <= j < i ==> !CommandFails(results[j])
        invariant last == results[if i == 0 then 0 else i - 1]
      {
        last := results[i];
        if CommandFails(last) {
          failed := true;
          return;
        }
      }
    }

    /** The verdict on the setup commands. */
    method SettleSetup(o: nat, e: string, x: Oracle)
      requires o in ops && e in rows && ops[o] == Op(e, rows[e], AwaitJob(true)) && rows[e].status == RUNNING
      modifies this
      ensures var verdict := if CommandFails(x) then FAILED else READY;
              && e in rows && rows[e].status == verdict
              && log == old(log)[e := LogOf(old(View()), e) + [Edge(Some(RUNNING), verdict)]]
      ensures ops == old(ops) - {o} && containers == old(containers)
      ensures e in rows && rows == old(rows)[e := rows[e]] && rows[e].container == old(rows)[e].container && rows[e].error == old(rows)[e].error
    {
      ghost var before := ops;
      Settle(o, x);
      assert ops == before[o := Op(e, rows[e], Move(if CommandFails(x) then FAILED else READY, Finish))];
      EnterState(o, x);
      assert ops == before - {o};
    }

    /** destroy: refused without a row and with no effect on a destroyed experiment; otherwise the row ends DESTROYED and the
        move is in the log, whether or not the backend managed to remove the container.  An exception that gets through leaves
        rows and log as they were. */
    method Destroy(o: nat, e: string, x: Oracle) returns (outcome: Outcome)
      requires o !in ops
      modifies this
      ensures outcome == Refused(NotFound) <==> e !in old(rows)
      ensures outcome == AlreadyDestroyed <==> e in old(rows) && old(rows)[e].status == DESTROYED
      ensures outcome.Refused? || outcome.AlreadyDestroyed? ==> View() == old(View())
      ensures e in old(rows) && old(rows)[e].status != DESTROYED ==>
                outcome == match x.raises case None => Accepted case Some(reason) => Failed(reason)
      ensures outcome.Accepted? ==> DestroyedFrom(old(View()), View(), e, x.removalWorks)
      ensures outcome.Failed? ==> rows == old(rows) && log == old(log) && ops == old(ops)
    {
      if e !in rows { return Refused(NotFound); }
      if rows[e].status == DESTROYED { return AlreadyDestroyed; }
      if x.raises.Some? {
        Continue(o, Op(e, rows[e], TearDown));
        TearDownSandbox(o, x);
        assert ops == old(ops);
        return Failed(x.raises.value);
      }
      DestroyLive(o, e, x);
      return Accepted;
    }

    method DestroyLive(o: nat, e: string, x: Oracle)
      requires o !in ops && e in rows && rows[e].status != DESTROYED && x.raises.None?
      modifies this
      ensures DestroyedFrom(old(View()), View(), e, x.removalWorks)
    {
      ghost var before := ops;
      BeginTearDown(o, e, x);
      EnterState(o, x);
      assert ops == before;
    }

    method BeginTearDown(o: nat, e: string, x: Oracle)
      requires o !in ops && e in rows && x.raises.None?
      modifies this
      ensures rows == old(rows) && log == old(log) && nextContainer == old(nextContainer)
      ensures ops == old(ops)[o := Op(e, rows[e], Move(DESTROYED, Finish))]
      ensures View() == RemoveOwn(old(View()), rows[e].container, x.removalWorks).(ops := ops, clock := clock)
    {
      Continue(o, Op(e, rows[e], TearDown));
      TearDownSandbox(o, x);
      assert ops == old(ops)[o := Op(e, rows[e], Move(DESTROYED, Finish))];
    }

    /** get_live's three refusals. */
    method GetLive(e: string) returns (refusal: Option<Refusal>)
      ensures refusal == if e !in rows then Some(NotFound) else if rows[e].status == DESTROYED then Some(Destroyed)
                         else if rows[e].container.None? then Some(NoSandbox) else None
      ensures refusal.None? <==> Lifecycle.GetLive(View(), e)
    {
      if e !in rows { return Some(NotFound); }
      if rows[e].status == DESTROYED { return Some(Destroyed); }
      if rows[e].container.None? { return Some(NoSandbox); }
      return None;
    }

    /** execute and run_tests: refused without a sandbox, an illegal start on a half-created experiment, and otherwise
        RUNNING followed, for a foreground job, by the state the job's result settles on. */
    method Execute(o: nat, e: string, background: bool, x: Oracle) returns (outcome: Outcome)
      requires o !in ops
      modifies this
      ensures outcome.Refused? <==> !Lifecycle.GetLive(old(View()), e)
      ensures outcome == IllegalTransition <==> Lifecycle.GetLive(old(View()), e) && old(rows)[e].status == CREATING
      ensures !outcome.Accepted? ==> rows == old(rows) && log == old(log)
      ensures ops == old(ops) && containers == old(containers)
      ensures outcome.Accepted? ==> ExecutedFrom(old(View()), View(), e, background, x)
      ensures outcome.Accepted? && !background && x.jobStatus.Terminal() ==>
                && e in rows && (rows[e].status == READY <==> x.jobStatus == Jobs.COMPLETED && x.exitCode == Some(0))
                && (rows[e].status == TIMEOUT <==> x.jobStatus == Jobs.TIMEOUT)
                && (rows[e].status == CANCELLED <==> x.jobStatus == Jobs.CANCELLED)
    {
      if x.jobStatus.Terminal() { SettlingIsFaithful(x.jobStatus, x.exitCode); }
      var refusal := GetLive(e);
      if refusal.Some? { return Refused(refusal.value); }
      ghost var before := ops;
      if !ExperimentStates.Accepted(rows[e].status, RUNNING) {
        Continue(o, Op(e, rows[e], Move(RUNNING, Finish)));
        Transition(o, x);
        assert ops == before;
        return IllegalTransition;
      }
      ExecuteLive(o, e, background, x);
      outcome := Accepted;
    }

    method ExecuteLive(o: nat, e: string, background: bool, x: Oracle)
      requires o !in ops && e in rows && ExperimentStates.Accepted(rows[e].status, RUNNING)
      modifies this
      ensures ops == old(ops) && containers == old(containers)
      ensures ExecutedFrom(old(View()), View(), e, background, x)
    {
      ghost var before := ops;
      StartRunning(o, e, if background then Finish else AwaitJob(false), x);
      if !background {
        SettleForeground(o, e, x);
        assert ops == before;
      }
    }

    method StartRunning(o: nat, e: string, rest: Pc, x: Oracle)
      requires o !in ops && e in rows && ExperimentStates.Accepted(rows[e].status, RUNNING)
      modifies this
      ensures containers == old(containers) && torn == old(torn)
      ensures e in rows && rows == old(rows)[e := rows[e]] && rows[e].container == old(rows)[e].container
      ensures rows[e].status == RUNNING && (old(rows)[e].status != RUNNING ==> rows[e].startedAt.Some?)
      ensures LogOf(View(), e) == LogOf(old(View()), e) + if old(rows)[e].status == RUNNING then [] else [Edge(Some(old(rows)[e].status), RUNNING)]
      ensures ops == if rest.Finish? then old(ops) else old(ops)[o := Op(e, rows[e], rest)]
      ensures OnlyLogOf(old(log), log, e)
    {
      ghost var before := ops;
      Continue(o, Op(e, rows[e], Move(RUNNING, rest)));
      EnterState(o, x);
      assert rest.Finish? ==> ops == before;
    }

    method SettleForeground(o: nat, e: string, x: Oracle)
      requires o in ops && e in rows && ops[o] == Op(e, rows[e], AwaitJob(false)) && rows[e].status == RUNNING
      modifies this
      ensures ops == old(ops) - {o} && containers == old(containers) && torn == old(torn)
      ensures e in rows && rows == old(rows)[e := rows[e]]
      ensures rows[e].container == old(rows)[e].container && rows[e].startedAt == old(rows)[e].startedAt
      ensures rows[e].status == SettleTarget(x.jobStatus, x.exitCode)
      ensures log == old(log)[e := LogOf(old(View()), e) + [Edge(Some(RUNNING), rows[e].status)]]
    {
      ghost var before := ops;
      Settle(o, x);
      assert ops == before[o := Op(e, rows[e], Move(SettleTarget(x.jobStatus, x.exitCode), Finish))];
      EnterState(o, x);
      assert before[o := Op(e, old(rows)[e], Move(SettleTarget(x.jobStatus, x.exitCode), Finish))] - {o} == before - {o};
    }
  }

  predicate CommandFails(x: Oracle) {
    x.jobStatus != Jobs.COMPLETED || x.exitCode != Some(0)
  }

  /** FAILED if any of the commands fails. */
  function SetupVerdict(results: seq<Oracle>): Status {
    if exists i :: 0 <= i < |results| && CommandFails(results[i]) then FAILED else READY
  }

  /** The state a creation ends in, by the moves it made. */
  function EndOf(trail: seq<Edge>): Status {
    if trail == [] then CREATING else trail[|trail| - 1].to
  }

  ghost predicate OnlyLogOf(before: map<string, seq<Edge>>, after: map<string, seq<Edge>>, e: string) {
    (e in before ==> e in after) && after == if e in after then before[e := after[e]] else before
  }

  /** The moves after a failure: none if an exception escapes the removal of the container. */
  function FailureTrail(hasContainer: bool, cleanup: Oracle): seq<Edge> {
    if hasContainer && cleanup.raises.Some? then [] else [Edge(Some(CREATING), FAILED)]
  }

  function ReadyTrail(setup: seq<Oracle>): seq<Edge> {
    if setup == [] then [Edge(Some(CREATING), READY)]
    else [Edge(Some(CREATING), READY), Edge(Some(READY), RUNNING), Edge(Some(RUNNING), SetupVerdict(setup))]
  }

  /** The moves of an undisturbed creation from its baseline on. */
  function TrailFrom(baseline: Oracle, cleanup: Oracle, setup: seq<Oracle>): seq<Edge> {
    if baseline.raises.Some? then FailureTrail(true, cleanup) else ReadyTrail(setup)
  }

  function CreationTrail(start: Oracle, baseline: Oracle, cleanup: Oracle, setup: seq<Oracle>): seq<Edge> {
    if start.raises.Some? then FailureTrail(false, cleanup) else TrailFrom(baseline, cleanup, setup)
  }

  /** A creation leaves a container behind if it got past the baseline, or if removing it failed. */
  predicate CreationLeaves(start: Oracle, baseline: Oracle, cleanup: Oracle) {
    if start.raises.Some? then !start.removalWorks else baseline.raises.None? || !cleanup.removalWorks
  }

  /** create raises what its body raised, unless the removal in the handler raises something else. */
  function CreationOutcome(start: Oracle, baseline: Oracle, cleanup: Oracle): Outcome {
    if start.raises.Some? then Failed(start.raises.value)
    else if baseline.raises.None? then Accepted
    else Failed(if cleanup.raises.Some? then cleanup.raises.value else baseline.raises.value)
  }

  /** So create succeeds exactly if neither start nor baseline raises, and otherwise raises the first reason, unless the removal
      after a failed baseline raises its own. */
  lemma OutcomeInWords(start: Oracle, baseline: Oracle, cleanup: Oracle)
    ensures CreationOutcome(start, baseline, cleanup) == Accepted <==> start.raises.None? && baseline.raises.None?
    ensures start.raises.Some? ==> CreationOutcome(start, baseline, cleanup) == Failed(start.raises.value)
    ensures start.raises.None? && baseline.raises.Some? ==>
              CreationOutcome(start, baseline, cleanup) ==
              match cleanup.raises case None => Failed(baseline.raises.value) case Some(reason) => Failed(reason)
  {
  }

  /** What a create that was not refused leaves: one new row and its trail, which say how far the creation got, and at most one
      new container. */
  ghost predicate CreatedFrom(s: State, s': State, e: string, start: Oracle, baseline: Oracle, cleanup: Oracle, setup: seq<Oracle>) {
    var c, trail := s.nextContainer, CreationTrail(start, baseline, cleanup, setup);
    && s'.ops == s.ops
    && e in s'.rows && s'.rows == s.rows[e := s'.rows[e]] && e in s'.log && s'.log == s.log[e := s'.log[e]]
    && s'.log[e] == [Edge(None, CREATING)] + trail && s'.rows[e].status == EndOf(trail)
    && s'.rows[e].container == (if start.raises.Some? then None else Some(c))
    && s'.rows[e].error == (if start.raises.Some? then start.raises else baseline.raises)
    && s'.containers == if CreationLeaves(start, baseline, cleanup) then s.containers + {c} else s.containers
  }

  /** What an accepted execute leaves: one row and one trail longer by the moves it made, and nothing else. */
  ghost predicate ExecutedFrom(s: State, s': State, e: string, background: bool, x: Oracle)
    requires e in s.rows
  {
    var start := s.rows[e].status;
    var target := SettleTarget(x.jobStatus, x.exitCode);
    && e in s'.rows && s'.rows == s.rows[e := s'.rows[e]]
    && s'.rows[e].status == (if background then RUNNING else target)
    && s'.rows[e].container == s.rows[e].container
    && (start != RUNNING ==> s'.rows[e].startedAt.Some?)
    && s'.containers == s.containers && s'.torn == s.torn && OnlyLogOf(s.log, s'.log, e)
    && LogOf(s', e) == LogOf(s, e) + (if start == RUNNING then [] else [Edge(Some(start), RUNNING)])
                       + (if background then [] else [Edge(Some(RUNNING), target)])
  }
}
