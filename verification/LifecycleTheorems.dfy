/** What the lifecycle promises, over whole runs with crashes anywhere. */
module LifecycleTheorems {
  import opened Common
  import opened Options
  import Jobs
  import opened ExperimentStates
  import opened Lifecycle
  import opened LifecycleInvariant
  import opened LifecycleProspects

  // --- The audit log --------------------------------------------------------------------------------------------

  /** Whenever no operation works on an experiment, its recorded transitions form a walk along the table from CREATING
      to the row's status, and its timestamps say exactly which states were visited, unless a crash once fell between
      the row's save and its audit entry. */
  lemma AuditTrail(maxLive: nat, events: seq<Event>, e: string)
    requires Serial(Init(maxLive), events)
    requires var s := Run(Init(maxLive), events); e in s.rows && e !in s.gapped && forall o :: o in s.ops ==> s.ops[o].id != e
    ensures var s := Run(Init(maxLive), events); TrailOk(s.rows[e], LogOf(s, e))
  {
    RunKeepsInv(Init(maxLive), events);
  }

  ghost predicate NoCrash(events: seq<Event>) {
    forall i :: 0 <= i < |events| ==> !events[i].Crash?
  }

  /** Only a crash opens such a gap. */
  lemma {:induction false} NoCrashNoGap(s: State, events: seq<Event>)
    requires NoCrash(events)
    ensures Run(s, events).gapped == s.gapped
  {
    if events != [] { NoCrashNoGap(s, events[..|events| - 1]); }
  }

  /** The event is a crash, and an operation on the experiment has saved the row and not yet written its audit entry. */
  ghost predicate CutsTrail(s: State, ev: Event, e: string) {
    ev.Crash? && exists o :: o in s.ops && s.ops[o].id == e && (s.ops[o].pc.LogCreating? || s.ops[o].pc.Log?)
  }

  ghost predicate CutIn(start: State, events: seq<Event>, e: string) {
    exists i :: 0 <= i < |events| && CutsTrail(Run(start, events[..i]), events[i], e)
  }

  lemma CutLater(start: State, events: seq<Event>, ev: Event, e: string)
    ensures CutIn(start, events + [ev], e) <==> CutIn(start, events, e) || CutsTrail(Run(start, events), ev, e)
  {
    var more := events + [ev];
    assert more[..|events|] == events && more[|events|] == ev;
    if i :| 0 <= i < |more| && CutsTrail(Run(start, more[..i]), more[i], e) {
      if i < |events| { assert more[..i] == events[..i] && more[i] == events[i]; }
    }
    if i :| 0 <= i < |events| && CutsTrail(Run(start, events[..i]), events[i], e) {
      assert more[..i] == events[..i] && more[i] == events[i];
      assert CutsTrail(Run(start, more[..i]), more[i], e);
    } else if CutsTrail(Run(start, events), ev, e) {
      assert CutsTrail(Run(start, more[..|events|]), more[|events|], e);
    }
  }

  /** An experiment is exempt exactly if such a crash came over it. */
  lemma {:induction false} GapExactly(maxLive: nat, events: seq<Event>, e: string)
    ensures e in Run(Init(maxLive), events).gapped <==> CutIn(Init(maxLive), events, e)
  {
    if events != [] {
      var earlier, ev := events[..|events| - 1], events[|events| - 1];
      assert earlier + [ev] == events;
      GapExactly(maxLive, earlier, e);
      GapNow(Run(Init(maxLive), earlier), ev, e);
      CutLater(Init(maxLive), earlier, ev, e);
    }
  }

  lemma GapNow(s: State, ev: Event, e: string)
    ensures e in (if Enabled(s, ev) then Next(s, ev) else s).gapped <==> e in s.gapped || CutsTrail(s, ev, e)
  {
  }

  lemma LastEdge(log: seq<Edge>, edge: Edge)
    requires log != [] && PathOk(log + [edge])
    ensures edge.from == Some(log[|log| - 1].to) && CanTransition(log[|log| - 1].to, edge.to)
  {
    var t := log + [edge];
    assert t[|log|].from == Some(t[|log| - 1].to);
  }

  /** Without the owed entry the trail does not lead to the row's status. */
  lemma OwedIsMissed(e: Experiment, log: seq<Edge>, edge: Edge)
    requires TrailOk(e, log + [edge])
    ensures !TrailOk(e, log)
  {
    if log != [] {
      LastEdge(log, edge);
      assert (log + [edge])[|log|] == edge;
    }
  }

  /** After any serial run, a crash spoils a sound trail exactly if it falls between a row's save and the audit entry for it. */
  lemma CrashGap(maxLive: nat, events: seq<Event>, e: string)
    requires Serial(Init(maxLive), events)
    requires var s := Run(Init(maxLive), events); e in s.rows && e !in s.gapped
    ensures var s := Run(Init(maxLive), events); TrailOk(s.rows[e], LogOf(Next(s, Crash), e)) <==> e !in AwaitingAudit(s)
  {
    RunKeepsInv(Init(maxLive), events);
    CrashSpoils(Run(Init(maxLive), events), e);
  }

  lemma CrashSpoils(s: State, e: string)
    requires OpsOk(s) && AuditOk(s) && e in s.rows && e !in s.gapped
    ensures TrailOk(s.rows[e], LogOf(Next(s, Crash), e)) <==> e !in AwaitingAudit(s)
  {
    if e in AwaitingAudit(s) {
      var o :| o in s.ops && (s.ops[o].pc.LogCreating? || s.ops[o].pc.Log?) && s.ops[o].id == e;
      assert OpOk(s, o);
      OwedIsMissed(s.rows[e], LogOf(s, e), Owed(s.ops[o].pc)[0]);
    } else {
      CrashKeepsAudit(s);
    }
  }

  // --- States ---------------------------------------------------------------------------------------------------

  /** In every serial run, of whatever size, an operation meets an illegal transition exactly if it is an execute or run_tests
      on a row whose creation never finished. */
  lemma IllegalMovesExactly(maxLive: nat, events: seq<Event>, o: nat)
    requires Serial(Init(maxLive), events)
    requires var s := Run(Init(maxLive), events); o in s.ops && s.ops[o].pc.Move?
    ensures var op := Run(Init(maxLive), events).ops[o];
            Accepted(op.local.status, op.pc.target) <==> !(op.local.status == CREATING && op.pc.target == RUNNING)
  {
    RunKeepsOps(Init(maxLive), events);
    NoIllegalMove(Run(Init(maxLive), events), o);
  }

  /** COMPLETED is in the table, but no run ever gets an experiment there. */
  lemma CompletedUnreachable(maxLive: nat, events: seq<Event>, e: string)
    requires Serial(Init(maxLive), events) && e in Run(Init(maxLive), events).rows
    ensures Run(Init(maxLive), events).rows[e].status != COMPLETED
  {
    RunKeepsInv(Init(maxLive), events);
    assert RowOk(Run(Init(maxLive), events), e);
  }

  lemma DestroyedKept(s: State, ev: Event, e: string)
    requires OpsOk(s) && Enabled(s, ev) && SerialStart(s, ev) && e in s.rows && s.rows[e].status == DESTROYED
    ensures e in Next(s, ev).rows && Next(s, ev).rows[e] == s.rows[e]
  {
    match ev
    case OpStep(o, oracle) =>
      assert OpOk(s, o);
      StepIsOwn(s, o, oracle);
      assert s.ops[o].id == e ==> s.ops[o].pc.Log?;
    case _ =>
  }

  /** In serial runs, a destroyed experiment's row never changes again. */
  lemma {:induction false} DestroyedForever(s: State, events: seq<Event>, e: string)
    requires OpsOk(s) && Serial(s, events) && e in s.rows && s.rows[e].status == DESTROYED
    ensures e in Run(s, events).rows && Run(s, events).rows[e] == s.rows[e]
  {
    if events != [] {
      var last := |events| - 1;
      SerialPrefix(s, events, last);
      DestroyedForever(s, events[..last], e);
      RunKeepsOps(s, events[..last]);
      var before := Run(s, events[..last]);
      if Enabled(before, events[last]) { DestroyedKept(before, events[last], e); }
    }
  }

  /** A timestamp is set to the current time, and only together with the status it stands for; the first READY and the first
      RUNNING are kept. */
  ghost predicate StampsMove(row: Experiment, row': Experiment, now: nat) {
    && row'.createdAt == row.createdAt
    && (row'.readyAt == row.readyAt || (row.readyAt.None? && row'.readyAt == Some(now) && row'.status == READY))
    && (row'.startedAt == row.startedAt || (row.startedAt.None? && row'.startedAt == Some(now) && row'.status == RUNNING))
    && (row'.completedAt == row.completedAt || (row'.completedAt == Some(now) && row'.status in OUTCOMES))
    && (row'.destroyedAt == row.destroyedAt || (row'.destroyedAt == Some(now) && row'.status == DESTROYED))
    && (row'.status != row.status && row'.status in OUTCOMES ==> row'.completedAt == Some(now))
    && (row'.status != row.status && row'.status == DESTROYED ==> row'.destroyedAt == Some(now))
  }

  lemma MoveStamps(s: State, o: nat, oracle: Oracle)
    requires o in s.ops && OpOk(s, o)
    ensures s.ops[o].id in Step(s, o, oracle).rows
    ensures StampsMove(s.rows[s.ops[o].id], Step(s, o, oracle).rows[s.ops[o].id], s.clock)
  {
    if s.ops[o].pc.Move? { RealMoveStamps(s, o, oracle); }
  }

  lemma RealMoveStamps(s: State, o: nat, oracle: Oracle)
    requires o in s.ops && OpOk(s, o) && s.ops[o].pc.Move?
    ensures s.ops[o].id in Step(s, o, oracle).rows
    ensures StampsMove(s.rows[s.ops[o].id], Step(s, o, oracle).rows[s.ops[o].id], s.clock)
  {
    EnteredStamps(s.ops[o].local, s.ops[o].pc.target, s.clock);
  }

  lemma EnteredStamps(e: Experiment, target: Status, now: nat)
    ensures target != e.status ==> StampsMove(e, Entered(e, target, now), now)
  {
  }

  /** So with every event of a serial run. */
  lemma StampsAreNow(s: State, ev: Event, e: string)
    requires OpsOk(s) && Enabled(s, ev) && e in s.rows
    ensures e in Next(s, ev).rows && StampsMove(s.rows[e], Next(s, ev).rows[e], s.clock)
  {
    match ev
    case OpStep(o, oracle) =>
      assert OpOk(s, o);
      StepIsOwn(s, o, oracle);
      MoveStamps(s, o, oracle);
    case _ =>
  }

  lemma RunOne(s: State, events: seq<Event>, ev: Event)
    ensures Run(s, events + [ev]) == var before := Run(s, events); if Enabled(before, ev) then Next(before, ev) else before
  {
    assert (events + [ev])[..|events|] == events;
  }

  /** destroy works from every state but DESTROYED, whether or not the backend manages the removal, and leaves the row
      DESTROYED, the removal attempted and the move recorded.  On a destroyed experiment it is refused and changes nothing.
      An exception that is not the sandbox's own kind gets through: then row and log are as before. */
  lemma DestroyAlwaysWorks(s: State, o: nat, e: string, x: Oracle)
    requires o !in s.ops && e in s.rows
    ensures var s' := Run(s, [StartDestroy(o, e)] + [OpStep(o, x)] + [OpStep(o, x)] + [OpStep(o, x)]);
            if s.rows[e].status == DESTROYED then s' == s
            else if x.raises.Some? then s'.ops == s.ops && s'.rows == s.rows && s'.log == s.log
            else DestroyedFrom(s, s', e, x.removalWorks)
  {
    var e1 := [StartDestroy(o, e)];
    RunOne(s, [], StartDestroy(o, e));
    assert [] + e1 == e1;
    RunOne(s, e1, OpStep(o, x));
    RunOne(s, e1 + [OpStep(o, x)], OpStep(o, x));
    RunOne(s, e1 + [OpStep(o, x)] + [OpStep(o, x)], OpStep(o, x));
    if s.rows[e].status != DESTROYED {
      if x.raises.None? { ThreeStepsDestroy(s, o, e, x); } else { DestroyAborts(s, o, e, x); }
    }
  }

  lemma DestroyAborts(s: State, o: nat, e: string, x: Oracle)
    requires o !in s.ops && e in s.rows && s.rows[e].status != DESTROYED && x.raises.Some?
    ensures var s1 := Next(s, StartDestroy(o, e));
            var s2 := Step(s1, o, x);
            s2.ops == s.ops && s2.rows == s.rows && s2.log == s.log
  {
    assert Next(s, StartDestroy(o, e)).ops - {o} == s.ops;
  }

  ghost predicate DestroyedFrom(s: State, s': State, e: string, works: bool)
    requires e in s.rows
  {
    && s'.ops == s.ops
    && e in s'.rows && s'.rows[e].destroyedAt.Some?
    && s'.rows == s.rows[e := s.rows[e].(status := DESTROYED, destroyedAt := s'.rows[e].destroyedAt)]
    && s'.log == s.log[e := LogOf(s, e) + [Edge(Some(s.rows[e].status), DESTROYED)]]
    && match s.rows[e].container
       case None => s'.torn == s.torn && s'.containers == s.containers
       case Some(c) => s'.torn == s.torn + {c} && s'.containers == if works then s.containers - {c} else s.containers
  }

  lemma ThreeStepsDestroy(s: State, o: nat, e: string, x: Oracle)
    requires o !in s.ops && e in s.rows && s.rows[e].status != DESTROYED && x.raises.None?
    ensures var s1 := Next(s, StartDestroy(o, e));
            var s2 := Step(s1, o, x);
            o in s2.ops &&
            var s3 := Step(s2, o, x);
            o in s3.ops && DestroyedFrom(s, Step(s3, o, x), e, x.removalWorks)
  {
    var s2 := Step(Next(s, StartDestroy(o, e)), o, x);
    assert s2.ops == s.ops[o := Op(e, s.rows[e], Move(DESTROYED, Finish))];
    MoveThenLog(s2, o, x);
    LastMoveDestroys(s, s2, Step(Step(s2, o, x), o, x), o, e, x.removalWorks);
  }

  /** A move the table allows to another state, with its audit entry. */
  ghost predicate MovedAndLogged(s: State, s': State, o: nat)
    requires o in s.ops && s.ops[o].pc.Move?
  {
    var op := s.ops[o];
    var entered := Entered(op.local, op.pc.target, s.clock);
    s' == s.(rows := s.rows[op.id := entered],
             log := s.log[op.id := LogOf(s, op.id) + [Edge(Some(op.local.status), op.pc.target)]],
             ops := if op.pc.rest.Finish? then s.ops - {o} else s.ops[o := Op(op.id, entered, op.pc.rest)],
             clock := s.clock + 2)
  }

  lemma MoveThenLog(s: State, o: nat, x: Oracle)
    requires o in s.ops && s.ops[o].pc.Move? && s.ops[o].local.status != s.ops[o].pc.target
    requires CanTransition(s.ops[o].local.status, s.ops[o].pc.target)
    ensures var s1 := Step(s, o, x); o in s1.ops && MovedAndLogged(s, Step(s1, o, x), o)
  {
    var s1 := Step(s, o, x);
    assert s1.ops - {o} == s.ops - {o};
  }

  lemma LastMoveDestroys(s: State, s2: State, s4: State, o: nat, e: string, works: bool)
    requires o !in s.ops && e in s.rows
    requires s2 == RemoveOwn(s, s.rows[e].container, works).(ops := s.ops[o := Op(e, s.rows[e], Move(DESTROYED, Finish))], clock := s2.clock)
    requires MovedAndLogged(s2, s4, o)
    ensures DestroyedFrom(s, s4, e, works)
  {
    assert s2.ops - {o} == s.ops;
  }

  // --- Capacity -------------------------------------------------------------------------------------------------

  /** Every LIVE row is among the newest 500, and nothing else is about to become LIVE. */
  ghost predicate Settled(s: State) {
    LiveRows(s.rows) <= Newest(s.rows) && Pending(s.ops) <= LiveRows(s.rows)
  }

  /** Each create finds the server settled; everything else may interleave. */
  ghost predicate CreatesSettled(s: State, events: seq<Event>) {
    forall i :: 0 <= i < |events| && events[i].StartCreate? ==> Settled(Run(s, events[..i]))
  }

  /** The LIVE rows that fewer than 500 later rows hide: those past their creation and not destroyed. */
  ghost function Counted(rows: map<string, Experiment>): set<string> {
    set e | e in rows && rows[e].status != CREATING && rows[e].status != DESTROYED
            && |set f | f in rows && rows[f].createdAt > rows[e].createdAt| < 500
  }

  ghost function AliveRows(rows: map<string, Experiment>): set<string> {
    set e | e in rows && rows[e].status != CREATING && rows[e].status != DESTROYED
  }

  /** There is room exactly while fewer than the maximum are counted. */
  lemma RoomExactly(s: State)
    ensures HasCapacity(s) <==> |Counted(s.rows)| < s.maxLive
    ensures |s.rows| <= 500 ==> (HasCapacity(s) <==> |AliveRows(s.rows)| < s.maxLive)
  {
    var listed := map e | e in s.rows && e in Newest(s.rows) :: s.rows[e];
    assert LiveRows(listed) == Counted(s.rows);
    if |s.rows| <= 500 {
      FewRowsAllNewest(s.rows);
      assert AliveRows(s.rows) == Counted(s.rows);
    }
  }

  lemma CreateKeepsCapacity(s: State, o: nat, id: string, hasSetup: bool)
    requires Enabled(s, StartCreate(o, id, hasSetup)) && Settled(s)
    ensures |Prospects(Next(s, StartCreate(o, id, hasSetup)))| <= s.maxLive
  {
    CreateAddsOneProspect(s, o, id, hasSetup);
    ListedAreAll(s.rows);
    assert LiveRows(s.rows) == Prospects(s);
    assert |Prospects(s) + {id}| <= |Prospects(s)| + 1;
  }

  lemma ListedAreAll(rows: map<string, Experiment>)
    requires LiveRows(rows) <= Newest(rows)
    ensures LiveRows(map e | e in rows && e in Newest(rows) :: rows[e]) == LiveRows(rows)
  {
  }

  lemma {:induction false} RunKeepsCapacity(s: State, events: seq<Event>)
    requires |Prospects(s)| <= s.maxLive && CreatesSettled(s, events)
    ensures |Prospects(Run(s, events))| <= s.maxLive == Run(s, events).maxLive
  {
    if events != [] {
      var last := |events| - 1;
      assert forall i :: 0 <= i < last ==> events[..last][..i] == events[..i];
      RunKeepsCapacity(s, events[..last]);
      var before := Run(s, events[..last]);
      if Enabled(before, events[last]) { NextKeepsCapacity(before, events[last]); }
    }
  }

  lemma NextKeepsCapacity(s: State, ev: Event)
    requires |Prospects(s)| <= s.maxLive && Enabled(s, ev) && (ev.StartCreate? ==> Settled(s))
    ensures |Prospects(Next(s, ev))| <= s.maxLive == Next(s, ev).maxLive
  {
    NextKeepsMaximum(s, ev);
    if ev.StartCreate? {
      CreateKeepsCapacity(s, ev.op, ev.id, ev.hasSetup);
    } else {
      NextAddsNoProspect(s, ev);
      SubsetCount(Prospects(Next(s, ev)), Prospects(s));
    }
  }

  /** If each create finds the server settled, the number of LIVE rows never exceeds the configured maximum. */
  lemma AtMostMaxLive(maxLive: nat, events: seq<Event>)
    requires CreatesSettled(Init(maxLive), events)
    ensures |LiveRows(Run(Init(maxLive), events).rows)| <= maxLive
  {
    assert Prospects(Init(maxLive)) == {};
    RunKeepsCapacity(Init(maxLive), events);
    var s := Run(Init(maxLive), events);
    SubsetCount(LiveRows(s.rows), Prospects(s));
  }

  /** The operation is a create that has not brought its experiment to a LIVE state yet. */
  ghost predicate InCreation(op: Op) {
    || op.pc.LogCreating? || op.pc.Provision? || op.pc.Attach? || op.pc.Baseline? || op.pc.FailSave? || op.pc.FailCleanup?
    || (op.local.status == CREATING && op.pc in {Move(READY, AfterReady), Move(FAILED, Finish)})
  }

  /** create calls do not overlap each other, and the table's LIVE rows are all among the newest 500. */
  ghost predicate OneCreateAtATime(s: State, events: seq<Event>) {
    forall i :: 0 <= i < |events| && events[i].StartCreate? ==>
      (forall o :: o in Run(s, events[..i]).ops ==> !InCreation(Run(s, events[..i]).ops[o]))
      && LiveRows(Run(s, events[..i]).rows) <= Newest(Run(s, events[..i]).rows)
  }

  /** Where an operation's copy is its row, only a creation makes a row LIVE. */
  lemma NoCreationSettles(s: State)
    requires OpsOk(s) && (forall o :: o in s.ops ==> !InCreation(s.ops[o]))
    ensures Pending(s.ops) <= LiveRows(s.rows)
  {
    forall e | e in Pending(s.ops) ensures e in LiveRows(s.rows) {
      var o :| o in s.ops && SavesAlive(s.ops[o]) && s.ops[o].id == e;
      SaverIsLive(s, o);
    }
  }

  lemma SaverIsLive(s: State, o: nat)
    requires o in s.ops && OpOk(s, o) && SavesAlive(s.ops[o]) && !InCreation(s.ops[o])
    ensures s.ops[o].id in LiveRows(s.rows)
  {
    if s.ops[o].pc.Log? { assert !CanTransition(s.ops[o].pc.edge.from.value, CREATING); }
  }

  /** So in serial runs it is enough that creates do not overlap each other. */
  lemma SerialCreatesKeepMaximum(maxLive: nat, events: seq<Event>)
    requires Serial(Init(maxLive), events) && OneCreateAtATime(Init(maxLive), events)
    ensures |LiveRows(Run(Init(maxLive), events).rows)| <= maxLive
  {
    forall i | 0 <= i < |events| && events[i].StartCreate? ensures Settled(Run(Init(maxLive), events[..i])) {
      SerialPrefix(Init(maxLive), events, i);
      RunKeepsOps(Init(maxLive), events[..i]);
      NoCreationSettles(Run(Init(maxLive), events[..i]));
    }
    AtMostMaxLive(maxLive, events);
  }
}
