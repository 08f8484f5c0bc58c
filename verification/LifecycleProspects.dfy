/** Which experiments are LIVE or may still become so, with operations overlapping in any way. */
module LifecycleProspects {
  import opened Options
  import Jobs
  import opened ExperimentStates
  import opened Lifecycle

  function JobOutcomes(setup: bool): set<Status> {
    if setup then {READY, FAILED} else {READY, FAILED, TIMEOUT, CANCELLED}
  }

  /** The program counter leads, under some answers of the environment, to saving a copy that is not DESTROYED. */
  predicate SavesLater(pc: Pc, local: Experiment) {
    match pc
    case LogCreating => true
    case Provision => true
    case Attach(_) => true
    case Baseline => true
    case FailSave(_) => true
    case FailCleanup => CanTransition(local.status, FAILED)
    case AfterReady => local.hasSetup && Accepted(local.status, RUNNING)
    case AwaitJob(setup) => exists target :: target in JobOutcomes(setup) && CanTransition(local.status, target)
    case TearDown => false
    case Move(target, rest) =>
      if local.status == target then SavesLater(rest, local) else target != DESTROYED && CanTransition(local.status, target)
    case Log(_, rest) => SavesLater(rest, local)
    case Finish => false
  }

  /** An operation in flight that is still going to save its copy, which is not DESTROYED. */
  predicate SavesAlive(op: Op) {
    op.local.status != DESTROYED && SavesLater(op.pc, op.local)
  }

  /** The experiments whose row is LIVE or about to be made so. */
  ghost function Prospects(s: State): set<string> {
    LiveRows(s.rows) + Pending(s.ops)
  }

  ghost function Pending(ops: map<nat, Op>): set<string> {
    set o | o in ops && SavesAlive(ops[o]) :: ops[o].id
  }

  // --- Steps ----------------------------------------------------------------------------------------------------

  /** From s to s' operation o advanced and saved at most its own experiment's row.  It goes on to save only if it was going
      to before, and only then may it have saved a copy that is not DESTROYED. */
  ghost predicate Advanced(s: State, s': State, o: nat)
    requires o in s.ops
  {
    var id := s.ops[o].id;
    && (s'.rows == s.rows
        || (id in s'.rows && s'.rows == s.rows[id := s'.rows[id]] && (SavesAlive(s.ops[o]) || s'.rows[id].status == DESTROYED)))
    && if o in s'.ops then s'.ops == s.ops[o := s'.ops[o]] && s'.ops[o].id == id && (SavesAlive(s'.ops[o]) ==> SavesAlive(s.ops[o]))
       else s'.ops == s.ops - {o}
  }

  lemma StepAdvances(s: State, o: nat, oracle: Oracle)
    requires o in s.ops
    ensures Advanced(s, Step(s, o, oracle), o)
  {
    match s.ops[o].pc
    case AwaitJob(_) => AwaitAdvances(s, o, oracle);
    case Move(_, _) => MoveAdvances(s, o, oracle);
    case AfterReady => SetupAdvances(s, o, oracle);
    case FailSave(_) => FailureAdvances(s, o, oracle);
    case FailCleanup => FailureAdvances(s, o, oracle);
    case TearDown => FailureAdvances(s, o, oracle);
    case _ => OtherAdvances(s, o, oracle);
  }

  lemma MoveAdvances(s: State, o: nat, oracle: Oracle)
    requires o in s.ops && s.ops[o].pc.Move?
    ensures Advanced(s, Step(s, o, oracle), o)
  {
  }

  lemma FailureAdvances(s: State, o: nat, oracle: Oracle)
    requires o in s.ops && (s.ops[o].pc.FailSave? || s.ops[o].pc.FailCleanup? || s.ops[o].pc.TearDown?)
    ensures Advanced(s, Step(s, o, oracle), o)
  {
    assert !SavesLater(Finish, s.ops[o].local);
  }

  lemma SetupAdvances(s: State, o: nat, oracle: Oracle)
    requires o in s.ops && s.ops[o].pc.AfterReady?
    ensures Advanced(s, Step(s, o, oracle), o)
  {
  }

  lemma OtherAdvances(s: State, o: nat, oracle: Oracle)
    requires o in s.ops && !s.ops[o].pc.Move? && !s.ops[o].pc.AwaitJob? && !s.ops[o].pc.AfterReady?
    requires !s.ops[o].pc.FailSave? && !s.ops[o].pc.FailCleanup? && !s.ops[o].pc.TearDown?
    ensures Advanced(s, Step(s, o, oracle), o)
  {
    assert !SavesLater(Finish, s.ops[o].local);
  }

  lemma AwaitAdvances(s: State, o: nat, oracle: Oracle)
    requires o in s.ops && s.ops[o].pc.AwaitJob?
    ensures Advanced(s, Step(s, o, oracle), o)
  {
    var op, setup := Step(s, o, oracle).ops[o], s.ops[o].pc.setup;
    assert op.pc.target in JobOutcomes(setup);
    assert op.pc.rest == Finish && !SavesLater(Finish, op.local);
  }

  lemma AdvancedKeepsPending(s: State, s': State, o: nat)
    requires o in s.ops && Advanced(s, s', o)
    ensures Pending(s'.ops) <= Pending(s.ops) && LiveRows(s'.rows) <= Prospects(s)
  {
    forall e | e in Pending(s'.ops) ensures e in Pending(s.ops) {
      var p :| p in s'.ops && SavesAlive(s'.ops[p]) && s'.ops[p].id == e;
      assert SavesAlive(s.ops[p]) && s.ops[p].id == e;
    }
    assert SavesAlive(s.ops[o]) ==> s.ops[o].id in Pending(s.ops);
  }

  /** Nothing but a create adds to the prospects. */
  lemma NextAddsNoProspect(s: State, ev: Event)
    requires Enabled(s, ev) && !ev.StartCreate?
    ensures Prospects(Next(s, ev)) <= Prospects(s)
  {
    match ev
    case OpStep(o, oracle) =>
      StepAdvances(s, o, oracle);
      AdvancedKeepsPending(s, Next(s, ev), o);
    case StartExecute(o, id, _) => StartAddsNoProspect(s, ev);
    case StartDestroy(o, id) => StartAddsNoProspect(s, ev);
    case _ =>
  }

  /** An execute or destroy goes on from the row as it is. */
  lemma StartedSavesLiveOnly(s: State, ev: Event)
    requires Enabled(s, ev) && (ev.StartExecute? || ev.StartDestroy?)
    ensures SavesAlive(Next(s, ev).ops[ev.op]) ==> ev.id in LiveRows(s.rows)
  {
  }

  lemma StartAddsNoProspect(s: State, ev: Event)
    requires Enabled(s, ev) && (ev.StartExecute? || ev.StartDestroy?)
    ensures Prospects(Next(s, ev)) <= Prospects(s)
  {
    var s' := Next(s, ev);
    StartedSavesLiveOnly(s, ev);
    assert s'.ops == s.ops[ev.op := s'.ops[ev.op]] && s'.ops[ev.op].id == ev.id;
    forall e | e in Pending(s'.ops) ensures e in Prospects(s) {
      var p :| p in s'.ops && SavesAlive(s'.ops[p]) && s'.ops[p].id == e;
      if p != ev.op { assert s.ops[p] == s'.ops[p] && e in Pending(s.ops); }
    }
  }

  lemma PendingAdds(ops: map<nat, Op>, o: nat, op: Op)
    requires o !in ops && SavesAlive(op)
    ensures Pending(ops[o := op]) == Pending(ops) + {op.id}
  {
    var more := ops[o := op];
    assert more[o] == op;
    forall e | e in Pending(ops) ensures e in Pending(more) {
      var p :| p in ops && SavesAlive(ops[p]) && ops[p].id == e;
      assert more[p] == ops[p];
    }
    forall e | e in Pending(more) ensures e in Pending(ops) + {op.id} {
      var p :| p in more && SavesAlive(more[p]) && more[p].id == e;
      if p != o { assert more[p] == ops[p]; }
    }
  }

  lemma CreateAddsOneProspect(s: State, o: nat, id: string, hasSetup: bool)
    requires Enabled(s, StartCreate(o, id, hasSetup))
    ensures Prospects(Next(s, StartCreate(o, id, hasSetup))) == Prospects(s) + {id}
  {
    var s' := Next(s, StartCreate(o, id, hasSetup));
    PendingAdds(s.ops, o, Op(id, NewExperiment(hasSetup, s.clock), LogCreating));
    assert LiveRows(s'.rows) == LiveRows(s.rows);
  }

  ghost predicate NoCreate(events: seq<Event>) {
    forall i :: 0 <= i < |events| ==> !events[i].StartCreate?
  }

  lemma {:induction false} RunAddsNoProspect(s: State, events: seq<Event>)
    requires NoCreate(events)
    ensures Prospects(Run(s, events)) <= Prospects(s) && Run(s, events).maxLive == s.maxLive
  {
    if events != [] {
      var last := |events| - 1;
      RunAddsNoProspect(s, events[..last]);
      var before := Run(s, events[..last]);
      if Enabled(before, events[last]) {
        NextAddsNoProspect(before, events[last]);
        NextKeepsMaximum(before, events[last]);
      }
    }
  }

  lemma NextKeepsMaximum(s: State, ev: Event)
    requires Enabled(s, ev)
    ensures Next(s, ev).maxLive == s.maxLive
  {
  }
}
