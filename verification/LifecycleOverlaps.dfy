/** When overlapping operations break the lifecycle's promises, and exactly when they can. */
module LifecycleOverlaps {
  import opened Common
  import opened Options
  import Jobs
  import opened ExperimentStates
  import opened Lifecycle
  import opened LifecycleInvariant
  import opened LifecycleTheorems
  import opened LifecycleProspects

  /** A run that has got from one state to another. */
  datatype Trip = Trip(events: seq<Event>, at: State)

  ghost predicate From(start: State, t: Trip) {
    Run(start, t.events) == t.at
  }

  lemma Extend(start: State, t: Trip, ev: Event) returns (t': Trip)
    requires From(start, t) && Enabled(t.at, ev)
    ensures From(start, t') && t' == Trip(t.events + [ev], Next(t.at, ev))
  {
    RunOne(start, t.events, ev);
    t' := Trip(t.events + [ev], Next(t.at, ev));
  }

  /** _transition to another state the table allows: two steps, and the row has it. */
  lemma MoveRuns(start: State, t: Trip, o: nat, x: Oracle, target: Status, rest: Pc) returns (t': Trip)
    requires From(start, t) && o in t.at.ops && t.at.ops[o].pc == Move(target, rest)
    requires CanTransition(t.at.ops[o].local.status, target) && t.at.ops[o].local.status != target
    ensures From(start, t') && t.events <= t'.events
    ensures var id := t.at.ops[o].id;
            && id in t'.at.rows && t'.at.rows[id].status == target && t'.at.rows == t.at.rows[id := t'.at.rows[id]]
            && if rest.Finish? then t'.at.ops == t.at.ops - {o}
               else o in t'.at.ops && t'.at.ops == t.at.ops[o := t.at.ops[o].(local := t'.at.rows[id], pc := rest)]
  {
    MoveThenLog(t.at, o, x);
    var saved := Extend(start, t, OpStep(o, x));
    t' := Extend(start, saved, OpStep(o, x));
  }

  // --- execute overlapping destroy ------------------------------------------------------------------------------

  /** execute up to the moment its job runs. */
  lemma ExecuteStarts(start: State, t: Trip, o: nat, e: string, x: Oracle) returns (t': Trip)
    requires From(start, t) && o !in t.at.ops && GetLive(t.at, e) && t.at.rows[e].status == READY
    ensures From(start, t') && t.events <= t'.events
    ensures o in t'.at.ops && t'.at.ops[o].id == e && t'.at.ops[o].pc == AwaitJob(false) && t'.at.ops.Keys == t.at.ops.Keys + {o}
    ensures e in t'.at.rows && t'.at.rows[e] == t'.at.ops[o].local && t'.at.rows[e].status == RUNNING
  {
    var t1 := Extend(start, t, StartExecute(o, e, false));
    t' := MoveRuns(start, t1, o, x, RUNNING, AwaitJob(false));
  }

  /** destroy, from start to end. */
  lemma DestroyRuns(start: State, t: Trip, o: nat, e: string, x: Oracle) returns (t': Trip)
    requires From(start, t) && o !in t.at.ops && e in t.at.rows && t.at.rows[e].status != DESTROYED && x.raises.None?
    ensures From(start, t') && t.events <= t'.events
    ensures t'.at.ops == t.at.ops && e in t'.at.rows && t'.at.rows[e].status == DESTROYED
  {
    var t1 := Extend(start, t, StartDestroy(o, e));
    var t2 := Extend(start, t1, OpStep(o, x));
    assert t2.at.ops == t1.at.ops[o := Op(e, t.at.rows[e], Move(DESTROYED, Finish))];
    t' := MoveRuns(start, t2, o, x, DESTROYED, Finish);
    assert t'.at.ops == t.at.ops;
  }

  /** execute settles: its job is over, and its own copy of the experiment, RUNNING, goes into the row. */
  lemma SettleWrites(start: State, t: Trip, o: nat, x: Oracle) returns (t': Trip)
    requires From(start, t) && o in t.at.ops && t.at.ops[o].pc == AwaitJob(false) && t.at.ops[o].local.status == RUNNING
    requires x.jobStatus == Jobs.CANCELLED
    ensures From(start, t') && t.events <= t'.events
    ensures t.at.ops[o].id in t'.at.rows && t'.at.rows[t.at.ops[o].id].status == CANCELLED
  {
    var t1 := Extend(start, t, OpStep(o, x));
    assert t1.at.ops == t.at.ops[o := t.at.ops[o].(pc := Move(CANCELLED, Finish))];
    t' := MoveRuns(start, t1, o, x, CANCELLED, Finish);
  }

  /** Why operations on one experiment must not overlap: from any state with a READY experiment, a destroy that runs
      while a foreground execute waits for its job is undone when the execute settles its stale copy. */
  lemma OverlapUndoesDestroy(s: State, e: string, o: nat, p: nat, x: Oracle) returns (events: seq<Event>, n: nat)
    requires o !in s.ops && p !in s.ops && o != p && GetLive(s, e) && s.rows[e].status == READY && x.jobStatus == Jobs.CANCELLED
    ensures n <= |events|
    ensures var destroyed := Run(s, events[..n]); e in destroyed.rows && destroyed.rows[e].status == DESTROYED
    ensures e in Run(s, events).rows && Run(s, events).rows[e].status == CANCELLED
  {
    var t1 := ExecuteStarts(s, Trip([], s), o, e, x);
    var t2 := DestroyRuns(s, t1, p, e, x.(raises := None));
    var t3 := SettleWrites(s, t2, o, x);
    events, n := t3.events, |t2.events|;
    assert events[..n] == t2.events;
  }

  // --- A prospect comes true ------------------------------------------------------------------------------------

  /** A bound on how many more steps the counter can take. */
  function Remaining(pc: Pc): nat {
    match pc
    case LogCreating => 9
    case Provision => 8
    case Attach(_) => 7
    case Baseline => 6
    case FailSave(_) => 3
    case FailCleanup => 2
    case AfterReady => 4
    case AwaitJob(_) => 2
    case TearDown => 2
    case Move(_, rest) => 1 + Remaining(rest)
    case Log(_, rest) => 1 + Remaining(rest)
    case Finish => 0
  }

  /** The environment's answers that lead a copy to its save. */
  function JobEnding(target: Status): Oracle {
    match target
    case READY => Oracle(None, true, Jobs.COMPLETED, Some(0))
    case TIMEOUT => Oracle(None, true, Jobs.TIMEOUT, None)
    case CANCELLED => Oracle(None, true, Jobs.CANCELLED, None)
    case _ => Oracle(None, true, Jobs.FAILED, None)
  }

  lemma AwaitedJobEnds(s: State, o: nat) returns (x: Oracle)
    requires o in s.ops && SavesAlive(s.ops[o]) && s.ops[o].pc.AwaitJob?
    ensures var s', op := Step(s, o, x), s.ops[o];
            o in s'.ops && s'.ops[o].id == op.id && SavesAlive(s'.ops[o]) && Remaining(s'.ops[o].pc) == 1
  {
    var op := s.ops[o];
    var target :| target in JobOutcomes(op.pc.setup) && CanTransition(op.local.status, target);
    x := JobEnding(target);
    var op' := Step(s, o, x).ops[o];
    assert op'.pc == Move(target, Finish) && op'.local == op.local;
    assert target != op.local.status && target != DESTROYED;
    assert SavesLater(op'.pc, op'.local);
  }

  lemma SetupStarts(s: State, o: nat, x: Oracle)
    requires o in s.ops && SavesAlive(s.ops[o]) && s.ops[o].pc.AfterReady?
    ensures var s', op := Step(s, o, x), s.ops[o];
            && o in s'.ops && s'.ops[o].id == op.id && SavesAlive(s'.ops[o])
            && Remaining(s'.ops[o].pc) < Remaining(op.pc)
  {
    var op, awaits := s.ops[o], AwaitJob(true);
    assert READY in JobOutcomes(true) && CanTransition(RUNNING, READY);
    assert op.local.status == RUNNING ==> SavesLater(awaits, op.local);
    var op' := Step(s, o, x).ops[o];
    assert op' == op.(pc := Move(RUNNING, awaits)) && SavesLater(op'.pc, op'.local);
    assert Remaining(awaits) == 2;
  }

  lemma SkippedMove(s: State, o: nat, x: Oracle)
    requires o in s.ops && SavesAlive(s.ops[o]) && s.ops[o].pc.Move? && s.ops[o].pc.target == s.ops[o].local.status
    ensures var s', op := Step(s, o, x), s.ops[o];
            o in s'.ops && s'.ops[o] == op.(pc := op.pc.rest) && SavesAlive(s'.ops[o])
  {
    var op := s.ops[o];
    assert SavesLater(op.pc.rest, op.local);
    assert !SavesLater(Finish, op.local);
  }

  /** An operation that is going to save can take a step that makes the row LIVE or brings it nearer to that. */
  lemma SaverMoves(s: State, o: nat) returns (x: Oracle)
    requires o in s.ops && SavesAlive(s.ops[o])
    ensures Nearer(s, Step(s, o, x), o)
  {
    var op := s.ops[o];
    match op.pc
    case AwaitJob(setup) => x := AwaitedJobEnds(s, o);
    case Move(target, rest) =>
      x := JobEnding(READY);
      if op.local.status == target { SkippedMove(s, o, x); } else { SavingMove(s, o, x); }
    case AfterReady =>
      x := JobEnding(READY);
      SetupStarts(s, o, x);
    case Log(_, rest) =>
      x := JobEnding(READY);
      assert SavesLater(rest, op.local) && !SavesLater(Finish, op.local);
    case _ =>
      x := Oracle(if op.pc.Provision? || op.pc.Baseline? then Some("failed") else None, true, Jobs.COMPLETED, None);
      CreationMoves(s, o, x);
  }

  ghost predicate Nearer(s: State, s': State, o: nat)
    requires o in s.ops
  {
    var e := s.ops[o].id;
    || (e in s'.rows && Live(s'.rows[e].status))
    || (o in s'.ops && SavesAlive(s'.ops[o]) && Remaining(s'.ops[o].pc) < Remaining(s.ops[o].pc))
  }

  lemma SavingMove(s: State, o: nat, x: Oracle)
    requires o in s.ops && SavesAlive(s.ops[o]) && s.ops[o].pc.Move? && s.ops[o].pc.target != s.ops[o].local.status
    ensures Nearer(s, Step(s, o, x), o)
  {
  }

  /** A creation gets there by failing at once. */
  lemma CreationMoves(s: State, o: nat, x: Oracle)
    requires o in s.ops && SavesAlive(s.ops[o])
    requires s.ops[o].pc in {LogCreating, Provision, Baseline, FailCleanup} || s.ops[o].pc.Attach? || s.ops[o].pc.FailSave?
    requires x.raises.Some? <==> s.ops[o].pc.Provision? || s.ops[o].pc.Baseline?
    ensures Nearer(s, Step(s, o, x), o)
  {
  }

  /** The events get experiment e LIVE through operation o and leave everything else as it is. */
  ghost predicate MadeLive(s: State, events: seq<Event>, o: nat, e: string) {
    var s' := Run(s, events);
    && NoCreate(events) && e in s'.rows && Live(s'.rows[e].status) && s'.rows == s.rows[e := s'.rows[e]]
    && forall p :: p in s.ops && p != o ==> p in s'.ops && s'.ops[p] == s.ops[p]
  }

  lemma {:induction false} SaverMakesLive(s: State, o: nat) returns (events: seq<Event>)
    requires o in s.ops && SavesAlive(s.ops[o])
    ensures MadeLive(s, events, o, s.ops[o].id)
    decreases Remaining(s.ops[o].pc)
  {
    var x := SaverMoves(s, o);
    var s', e := Step(s, o, x), s.ops[o].id;
    events := [OpStep(o, x)];
    StepAdvances(s, o, x);
    RunOne(s, [], OpStep(o, x));
    assert [] + events == events;
    if !(e in s'.rows && Live(s'.rows[e].status)) {
      var rest := SaverMakesLive(s', o);
      RunAppend(s, events, rest);
      StepFirst(s, s', events, rest, o);
      events := events + rest;
    }
  }

  lemma StepFirst(s: State, s': State, first: seq<Event>, rest: seq<Event>, o: nat)
    requires o in s.ops && Advanced(s, s', o) && NoCreate(first) && o in s'.ops && MadeLive(s', rest, o, s.ops[o].id)
    requires Run(s, first + rest) == Run(s', rest)
    ensures MadeLive(s, first + rest, o, s.ops[o].id)
  {
  }

  /** All the prospects can come true together. */
  lemma {:induction false} ProspectsComeTrue(s: State) returns (events: seq<Event>)
    ensures NoCreate(events) && LiveRows(Run(s, events).rows) == Prospects(s)
    decreases Prospects(s) - LiveRows(s.rows)
  {
    if Prospects(s) == LiveRows(s.rows) {
      events := [];
    } else {
      var e :| e in Pending(s.ops) && e !in LiveRows(s.rows);
      var o :| o in s.ops && SavesAlive(s.ops[o]) && s.ops[o].id == e;
      var first := SaverMakesLive(s, o);
      var s' := Run(s, first);
      OnePasses(s, s', first, o, e);
      var rest := ProspectsComeTrue(s');
      events := first + rest;
      RunAppend(s, first, rest);
    }
  }

  lemma OnePasses(s: State, s': State, events: seq<Event>, o: nat, e: string)
    requires o in s.ops && s.ops[o].id == e && e in Prospects(s) && MadeLive(s, events, o, e) && s' == Run(s, events)
    ensures Prospects(s') == Prospects(s) && LiveRows(s'.rows) == LiveRows(s.rows) + {e}
  {
    RunAddsNoProspect(s, events);
    forall f | f in Prospects(s) ensures f in Prospects(s') {
      if f != e && f in Pending(s.ops) {
        var p :| p in s.ops && SavesAlive(s.ops[p]) && s.ops[p].id == f;
        assert s'.ops[p] == s.ops[p];
      }
    }
  }

  lemma {:induction false} RunAppend(s: State, first: seq<Event>, second: seq<Event>)
    ensures Run(s, first + second) == Run(Run(s, first), second)
  {
    if second == [] {
      assert first + second == first;
    } else {
      var last := |second| - 1;
      RunAppend(s, first, second[..last]);
      assert first + second == (first + second[..last]) + [second[last]];
      RunOne(s, first + second[..last], second[last]);
    }
  }

  // --- Exactly when a destroyed experiment can come back --------------------------------------------------------

  ghost predicate Revived(s: State, events: seq<Event>, e: string) {
    var s' := Run(s, events);
    e in s'.rows && s'.rows[e].status != DESTROYED
  }

  ghost predicate Buried(s: State, e: string) {
    && e in s.rows && s.rows[e].status == DESTROYED
    && forall o :: o in s.ops && s.ops[o].id == e ==> !SavesAlive(s.ops[o])
  }

  lemma NextKeepsBuried(s: State, ev: Event, e: string)
    requires Buried(s, e) && Enabled(s, ev)
    ensures Buried(Next(s, ev), e)
  {
    if ev.OpStep? { StepAdvances(s, ev.op, ev.oracle); }
  }

  lemma {:induction false} RunKeepsBuried(s: State, events: seq<Event>, e: string)
    requires Buried(s, e)
    ensures Buried(Run(s, events), e)
  {
    if events != [] {
      var last := |events| - 1;
      RunKeepsBuried(s, events[..last], e);
      var before, ev := Run(s, events[..last]), events[last];
      if Enabled(before, ev) { NextKeepsBuried(before, ev, e); }
    }
  }

  /** With operations overlapping in any way: a destroyed experiment can come back exactly if some operation in flight on it
      holds a copy from before that it is still going to save. */
  lemma RevivesExactly(s: State, e: string)
    requires e in s.rows && s.rows[e].status == DESTROYED
    ensures (exists events :: Revived(s, events, e)) <==> exists o :: o in s.ops && s.ops[o].id == e && SavesAlive(s.ops[o])
  {
    if o :| o in s.ops && s.ops[o].id == e && SavesAlive(s.ops[o]) {
      var events := SaverMakesLive(s, o);
      assert Revived(s, events, e);
    } else {
      forall events ensures !Revived(s, events, e) {
        RunKeepsBuried(s, events, e);
      }
    }
  }

  // --- Exactly when the maximum can be exceeded -----------------------------------------------------------------

  ghost predicate Exceeds(s: State, events: seq<Event>) {
    NoCreate(events) && |LiveRows(Run(s, events).rows)| > s.maxLive
  }

  /** With operations overlapping in any way: LIVE rows can get to be more than the maximum, without any further create,
      exactly if the experiments that are LIVE or about to be made so are already more than that. */
  lemma ExceedsExactly(s: State)
    ensures (exists events :: Exceeds(s, events)) <==> |Prospects(s)| > s.maxLive
  {
    if |Prospects(s)| > s.maxLive {
      var events := ProspectsComeTrue(s);
      assert Exceeds(s, events);
    }
    forall events | Exceeds(s, events) ensures |Prospects(s)| > s.maxLive {
      RunAddsNoProspect(s, events);
      SubsetCount(LiveRows(Run(s, events).rows), Prospects(s));
    }
  }

  /** Why creates must not overlap: both pass the capacity check, and a maximum of one ends in two LIVE rows. */
  lemma OverlappingCreatesExceedCapacity() returns (events: seq<Event>)
    ensures LiveRows(Run(Init(1), events).rows) == {"a", "b"}
  {
    var begun := TwoCreatesBegin();
    var rest := ProspectsComeTrue(begun.at);
    RunAppend(Init(1), begun.events, rest);
    events := begun.events + rest;
  }

  lemma TwoCreatesBegin() returns (t: Trip)
    ensures From(Init(1), t) && Prospects(t.at) == {"a", "b"}
  {
    RoomForOne(Init(1));
    var t1 := Extend(Init(1), Trip([], Init(1)), StartCreate(1, "a", false));
    CreateAddsOneProspect(Init(1), 1, "a", false);
    RoomForOne(t1.at);
    t := Extend(Init(1), t1, StartCreate(2, "b", false));
    CreateAddsOneProspect(t1.at, 2, "b", false);
  }

  lemma RoomForOne(s: State)
    requires s.maxLive == 1 && LiveRows(s.rows) == {}
    ensures HasCapacity(s)
  {
    assert LiveRows(map e | e in s.rows && e in Newest(s.rows) :: s.rows[e]) <= LiveRows(s.rows);
  }
}
