/** Crash recovery: which containers live on, over whole runs with crashes anywhere and operations overlapping in any way. */
module LifecycleRecovery {
  import opened Common
  import opened Options
  import opened ExperimentStates
  import opened Lifecycle
  import opened LifecycleInvariant
  import opened LifecycleProspects

  /** A row in a LIVE state names the container. */
  ghost predicate Owns(s: State, e: string, c: nat) {
    e in s.rows && Live(s.rows[e].status) && s.rows[e].container == Some(c)
  }

  // --- One container, one experiment ----------------------------------------------------------------------------

  predicate Attaches(pc: Pc, c: nat) {
    match pc
    case Attach(d) => d == c
    case Move(_, rest) => Attaches(rest, c)
    case Log(_, rest) => Attaches(rest, c)
    case _ => false
  }

  predicate OpHolds(op: Op, c: nat) {
    op.local.container == Some(c) || Attaches(op.pc, c)
  }

  /** The experiment's row names the container, or an operation on it does. */
  ghost predicate Holds(s: State, e: string, c: nat) {
    || (e in s.rows && s.rows[e].container == Some(c))
    || (exists o :: o in s.ops && s.ops[o].id == e && OpHolds(s.ops[o], c))
  }

  /** Without a container an experiment never gets further than a failed creation. */
  predicate BareRow(e: Experiment) {
    e.container.None? ==> e.readyAt.None? && e.status in {CREATING, FAILED, DESTROYED}
  }

  predicate BarePc(pc: Pc) {
    || pc.LogCreating? || pc.Provision? || pc.Attach? || pc.FailSave? || pc.FailCleanup? || pc.TearDown? || pc.Finish?
    || pc == Move(FAILED, Finish) || pc == Move(DESTROYED, Finish) || (pc.Log? && pc.rest.Finish?)
  }

  predicate BareOp(op: Op) {
    BareRow(op.local) && (op.local.container.None? ==> BarePc(op.pc))
  }

  ghost predicate NamesOk(s: State) {
    && (forall e: string, c: nat :: Holds(s, e, c) ==> c < s.nextContainer)
    && (forall e: string, f: string, c: nat :: Holds(s, e, c) && Holds(s, f, c) ==> e == f)
    && (forall c :: c in s.torn ==> c < s.nextContainer)
    && (forall o :: o in s.ops ==> s.ops[o].id in s.rows && BareOp(s.ops[o]))
    && (forall e :: e in s.rows ==> BareRow(s.rows[e]))
  }

  /** What one step does to its own operation and row, as far as containers go. */
  ghost predicate PassesOn(s: State, s': State, o: nat)
    requires o in s.ops
  {
    var op := s.ops[o];
    && s.nextContainer <= s'.nextContainer
    && (s'.rows == s.rows || (op.id in s'.rows && s'.rows == s.rows[op.id := s'.rows[op.id]]
                              && (forall c: nat :: s'.rows[op.id].container == Some(c) ==> OpHolds(op, c))))
    && (if o in s'.ops then s'.ops == s.ops[o := s'.ops[o]] && s'.ops[o].id == op.id else s'.ops == s.ops - {o})
    && (o in s'.ops ==> forall c: nat :: OpHolds(s'.ops[o], c) ==> OpHolds(op, c) || s.nextContainer == c < s'.nextContainer)
  }

  lemma MovesAttachNothing()
    ensures forall target: Status, rest: Pc, c: nat :: rest.Finish? || rest.AfterReady? || rest.AwaitJob? ==> !Attaches(Move(target, rest), c)
  {
  }

  lemma StepPassesOn(s: State, o: nat, oracle: Oracle)
    requires o in s.ops
    ensures PassesOn(s, Step(s, o, oracle), o)
  {
    match s.ops[o].pc
    case Move(_, _) => MovePassesOn(s, o, oracle);
    case Log(_, _) => LogPassesOn(s, o, oracle);
    case FailSave(_) => EndPassesOn(s, o, oracle);
    case FailCleanup => EndPassesOn(s, o, oracle);
    case TearDown => EndPassesOn(s, o, oracle);
    case AwaitJob(_) => EndPassesOn(s, o, oracle);
    case _ => CreationPassesOn(s, o, oracle);
  }

  lemma MovePassesOn(s: State, o: nat, oracle: Oracle)
    requires o in s.ops && s.ops[o].pc.Move?
    ensures PassesOn(s, Step(s, o, oracle), o)
  {
  }

  lemma LogPassesOn(s: State, o: nat, oracle: Oracle)
    requires o in s.ops && s.ops[o].pc.Log?
    ensures PassesOn(s, Step(s, o, oracle), o)
  {
  }

  lemma EndPassesOn(s: State, o: nat, oracle: Oracle)
    requires o in s.ops
    requires s.ops[o].pc.FailSave? || s.ops[o].pc.FailCleanup? || s.ops[o].pc.TearDown? || s.ops[o].pc.AwaitJob?
    ensures PassesOn(s, Step(s, o, oracle), o)
  {
    MovesAttachNothing();
  }

  lemma CreationPassesOn(s: State, o: nat, oracle: Oracle)
    requires o in s.ops && !s.ops[o].pc.Move? && !s.ops[o].pc.AwaitJob? && !s.ops[o].pc.Log?
    requires !s.ops[o].pc.FailSave? && !s.ops[o].pc.FailCleanup? && !s.ops[o].pc.TearDown?
    ensures PassesOn(s, Step(s, o, oracle), o)
  {
    MovesAttachNothing();
  }

  ghost predicate StaysBare(s: State, s': State, o: nat)
    requires o in s.ops
  {
    var id := s.ops[o].id;
    && (o in s'.ops ==> BareOp(s'.ops[o]))
    && (s'.rows == s.rows || (id in s'.rows && s'.rows == s.rows[id := s'.rows[id]] && BareRow(s'.rows[id])))
  }

  lemma StepStaysBare(s: State, o: nat, oracle: Oracle)
    requires o in s.ops && BareOp(s.ops[o])
    ensures StaysBare(s, Step(s, o, oracle), o)
  {
    match s.ops[o].pc
    case Move(_, _) => MoveStaysBare(s, o, oracle);
    case FailSave(_) => EndStaysBare(s, o, oracle);
    case FailCleanup => EndStaysBare(s, o, oracle);
    case TearDown => EndStaysBare(s, o, oracle);
    case _ => OtherStaysBare(s, o, oracle);
  }

  lemma MoveStaysBare(s: State, o: nat, oracle: Oracle)
    requires o in s.ops && BareOp(s.ops[o]) && s.ops[o].pc.Move?
    ensures StaysBare(s, Step(s, o, oracle), o)
  {
  }

  lemma OtherStaysBare(s: State, o: nat, oracle: Oracle)
    requires o in s.ops && BareOp(s.ops[o]) && !s.ops[o].pc.Move?
    requires !s.ops[o].pc.FailSave? && !s.ops[o].pc.FailCleanup? && !s.ops[o].pc.TearDown?
    ensures StaysBare(s, Step(s, o, oracle), o)
  {
  }

  lemma EndStaysBare(s: State, o: nat, oracle: Oracle)
    requires o in s.ops && BareOp(s.ops[o]) && (s.ops[o].pc.FailSave? || s.ops[o].pc.FailCleanup? || s.ops[o].pc.TearDown?)
    ensures StaysBare(s, Step(s, o, oracle), o)
  {
  }

  /** A step hands a container on to no other experiment, and takes only a fresh one. */
  lemma PassedOnHolds(s: State, s': State, o: nat, e: string, c: nat)
    requires o in s.ops && PassesOn(s, s', o) && Holds(s', e, c)
    ensures Holds(s, e, c) || (e == s.ops[o].id && s.nextContainer == c < s'.nextContainer)
  {
    if p :| p in s'.ops && s'.ops[p].id == e && OpHolds(s'.ops[p], c) {
      if p != o { assert s.ops[p] == s'.ops[p]; }
    }
  }

  lemma StepKeepsNames(s: State, o: nat, oracle: Oracle)
    requires NamesOk(s) && o in s.ops
    ensures NamesOk(Step(s, o, oracle))
  {
    var s' := Step(s, o, oracle);
    StepPassesOn(s, o, oracle);
    StepStaysBare(s, o, oracle);
    forall e: string, c: nat | Holds(s', e, c) ensures Holds(s, e, c) || (e == s.ops[o].id && s.nextContainer == c < s'.nextContainer) {
      PassedOnHolds(s, s', o, e, c);
    }
    forall c | c in s'.torn ensures c < s'.nextContainer {
      if c !in s.torn { assert OpHolds(s.ops[o], c) && Holds(s, s.ops[o].id, c); }
    }
  }

  /** An operation starts from its row, or with a new one. */
  lemma StartHolds(s: State, ev: Event, e: string, c: nat)
    requires Enabled(s, ev) && (ev.StartCreate? || ev.StartExecute? || ev.StartDestroy?) && Holds(Next(s, ev), e, c)
    ensures Holds(s, e, c)
  {
    var s' := Next(s, ev);
    MovesAttachNothing();
    assert s'.ops == s.ops[ev.op := s'.ops[ev.op]] && !Attaches(s'.ops[ev.op].pc, c);
    assert s'.rows == if ev.StartCreate? then s.rows[ev.id := NewExperiment(ev.hasSetup, s.clock)] else s.rows;
    if p :| p in s'.ops && s'.ops[p].id == e && OpHolds(s'.ops[p], c) {
      if p == ev.op { assert s'.ops[p].id == ev.id && s'.ops[p].local == s'.rows[ev.id]; } else { assert s.ops[p] == s'.ops[p]; }
    }
  }

  lemma StartKeepsNames(s: State, ev: Event)
    requires NamesOk(s) && Enabled(s, ev) && (ev.StartCreate? || ev.StartExecute? || ev.StartDestroy?)
    ensures NamesOk(Next(s, ev)) && forall e: string, c: nat :: Holds(Next(s, ev), e, c) ==> Holds(s, e, c)
  {
    forall e: string, c: nat | Holds(Next(s, ev), e, c) ensures Holds(s, e, c) {
      StartHolds(s, ev, e, c);
    }
  }

  lemma SameHolds(s: State, s': State, e: string, c: nat)
    requires s'.rows == s.rows && (s'.ops == s.ops || s'.ops == map[]) && Holds(s', e, c)
    ensures Holds(s, e, c)
  {
  }

  lemma NextKeepsNames(s: State, ev: Event)
    requires NamesOk(s) && Enabled(s, ev)
    ensures NamesOk(Next(s, ev))
  {
    match ev
    case OpStep(o, oracle) => StepKeepsNames(s, o, oracle);
    case StartCreate(_, _, _) => StartKeepsNames(s, ev);
    case StartExecute(_, _, _) => StartKeepsNames(s, ev);
    case StartDestroy(_, _) => StartKeepsNames(s, ev);
    case _ => RestKeepsNames(s, ev);
  }

  lemma RestKeepsNames(s: State, ev: Event)
    requires NamesOk(s) && Enabled(s, ev) && (ev.Crash? || StartsUp(ev))
    ensures NamesOk(Next(s, ev)) && forall e: string, c: nat :: Holds(Next(s, ev), e, c) ==> Holds(s, e, c)
  {
    forall e: string, c: nat | Holds(Next(s, ev), e, c) ensures Holds(s, e, c) {
      SameHolds(s, Next(s, ev), e, c);
    }
  }

  /** In every run, of any size and with any overlap, no two experiments ever hold one container. */
  lemma {:induction false} RunKeepsNames(maxLive: nat, events: seq<Event>)
    ensures NamesOk(Run(Init(maxLive), events))
  {
    if events != [] {
      var before, ev := Run(Init(maxLive), events[..|events| - 1]), events[|events| - 1];
      RunKeepsNames(maxLive, events[..|events| - 1]);
      if Enabled(before, ev) { NextKeepsNames(before, ev); }
    }
  }

  // --- Who removes a container ----------------------------------------------------------------------------------

  /** The experiment's own destroy or failed creation removes the container that its copy names. */
  ghost predicate TearsDown(s: State, ev: Event, e: string, c: nat) {
    && ev.OpStep? && ev.op in s.ops && s.ops[ev.op].id == e && (s.ops[ev.op].pc.TearDown? || s.ops[ev.op].pc.FailCleanup?)
    && s.ops[ev.op].local.container == Some(c)
  }

  ghost predicate TornDownIn(start: State, events: seq<Event>, e: string, c: nat) {
    exists i :: 0 <= i < |events| && TearsDown(Run(start, events[..i]), events[i], e, c)
  }

  lemma TornDownBefore(start: State, events: seq<Event>, e: string, c: nat)
    requires events != [] && TornDownIn(start, events[..|events| - 1], e, c)
    ensures TornDownIn(start, events, e, c)
  {
    var last := |events| - 1;
    var i :| 0 <= i < last && TearsDown(Run(start, events[..last][..i]), events[..last][i], e, c);
    assert events[..last][..i] == events[..i];
    assert TearsDown(Run(start, events[..i]), events[i], e, c);
  }

  lemma RunStep(start: State, events: seq<Event>, i: nat)
    requires i < |events|
    ensures var before := Run(start, events[..i]);
            Run(start, events[..i + 1]) == if Enabled(before, events[i]) then Next(before, events[i]) else before
  {
    assert events[..i + 1][..i] == events[..i];
  }

  /** Nobody comes to hold a container that was handed out before. */
  lemma HolderWasHolder(s: State, ev: Event, e: string, c: nat)
    requires NamesOk(s) && Enabled(s, ev) && Holds(Next(s, ev), e, c) && c < s.nextContainer
    ensures Holds(s, e, c)
  {
    match ev
    case OpStep(o, oracle) =>
      StepPassesOn(s, o, oracle);
      PassedOnHolds(s, Next(s, ev), o, e, c);
    case StartCreate(_, _, _) => StartHolds(s, ev, e, c);
    case StartExecute(_, _, _) => StartHolds(s, ev, e, c);
    case StartDestroy(_, _) => StartHolds(s, ev, e, c);
    case _ => SameHolds(s, Next(s, ev), e, c);
  }

  lemma TornNow(s: State, ev: Event, c: nat)
    requires Enabled(s, ev) && c !in s.torn && c in Next(s, ev).torn
    ensures ev.OpStep? && TearsDown(s, ev, s.ops[ev.op].id, c) && Holds(s, s.ops[ev.op].id, c)
  {
    assert OpHolds(s.ops[ev.op], c);
  }

  /** In every run a container counted as torn down was removed by a step of one experiment, and no other experiment ever holds
      it. */
  lemma {:induction false} TornHasCause(maxLive: nat, events: seq<Event>, c: nat) returns (e: string)
    requires c in Run(Init(maxLive), events).torn
    ensures TornDownIn(Init(maxLive), events, e, c)
    ensures c < Run(Init(maxLive), events).nextContainer && forall f :: Holds(Run(Init(maxLive), events), f, c) ==> f == e
  {
    var start, last := Init(maxLive), |events| - 1;
    var before := Run(start, events[..last]);
    RunKeepsNames(maxLive, events[..last]);
    RunKeepsNames(maxLive, events);
    if c in before.torn {
      e := TornHasCause(maxLive, events[..last], c);
      TornDownBefore(start, events, e, c);
    } else {
      TornNow(before, events[last], c);
      e := before.ops[events[last].op].id;
      assert TearsDown(Run(start, events[..last]), events[last], e, c);
    }
    if Enabled(before, events[last]) {
      forall f | Holds(Next(before, events[last]), f, c) ensures f == e { HolderWasHolder(before, events[last], f, c); }
    }
  }

  /** In serial runs a row that names a container names it for good. */
  lemma ContainerStays(s: State, ev: Event, e: string)
    requires Inv(s) && Enabled(s, ev) && e in s.rows && s.rows[e].container.Some?
    ensures e in Next(s, ev).rows && Next(s, ev).rows[e].container == s.rows[e].container
  {
    if ev.OpStep? {
      var o := ev.op;
      assert OpOk(s, o) && AttachOk(s, o) && RowOk(s, s.ops[o].id);
      StepIsOwn(s, o, ev.oracle);
      if !s.ops[o].pc.Provision? { StepIsContainerStep(s, o, ev.oracle); }
    }
  }

  lemma {:induction false} TornIsNamed(maxLive: nat, events: seq<Event>, c: nat) returns (e: string)
    requires Serial(Init(maxLive), events) && c in Run(Init(maxLive), events).torn
    ensures var s := Run(Init(maxLive), events); e in s.rows && s.rows[e].container == Some(c)
  {
    var last := |events| - 1;
    var before := Run(Init(maxLive), events[..last]);
    SerialPrefix(Init(maxLive), events, last);
    RunKeepsInv(Init(maxLive), events[..last]);
    if c in before.torn {
      e := TornIsNamed(maxLive, events[..last], c);
    } else {
      TornNow(before, events[last], c);
      e := before.ops[events[last].op].id;
      assert OpOk(before, events[last].op);
    }
    if Enabled(before, events[last]) { ContainerStays(before, events[last], e); }
  }

  /** In serial runs that experiment's row still names it. */
  lemma SerialTornHasCause(maxLive: nat, events: seq<Event>, c: nat) returns (e: string)
    requires Serial(Init(maxLive), events) && c in Run(Init(maxLive), events).torn
    ensures TornDownIn(Init(maxLive), events, e, c)
    ensures var s := Run(Init(maxLive), events); e in s.rows && s.rows[e].container == Some(c)
  {
    e := TornIsNamed(maxLive, events, c);
    assert Holds(Run(Init(maxLive), events), e, c);
    var f := TornHasCause(maxLive, events, c);
  }

  // --- A LIVE row's container is there --------------------------------------------------------------------------

  /** The container of an experiment that is or may become LIVE is there, unless it was torn down. */
  ghost predicate AllPresent(s: State) {
    forall e: string, c: nat :: Holds(s, e, c) && e in Prospects(s) ==> c in s.containers + s.torn
  }

  ghost predicate ContainersGrow(s: State, s': State) {
    && s.containers + s.torn <= s'.containers + s'.torn
    && (s.nextContainer < s'.nextContainer ==> s.nextContainer in s'.containers)
  }

  lemma StepContainersGrow(s: State, o: nat, oracle: Oracle)
    requires o in s.ops
    ensures ContainersGrow(s, Step(s, o, oracle))
  {
    if s.ops[o].pc.Move? { MoveLeavesContainers(s, o, oracle); } else { OtherContainersGrow(s, o, oracle); }
  }

  lemma MoveLeavesContainers(s: State, o: nat, oracle: Oracle)
    requires o in s.ops && s.ops[o].pc.Move?
    ensures ContainersGrow(s, Step(s, o, oracle))
  {
  }

  lemma OtherContainersGrow(s: State, o: nat, oracle: Oracle)
    requires o in s.ops && !s.ops[o].pc.Move?
    ensures ContainersGrow(s, Step(s, o, oracle))
  {
  }

  lemma StepKeepsPresent(s: State, o: nat, oracle: Oracle)
    requires AllPresent(s) && o in s.ops
    ensures AllPresent(Step(s, o, oracle))
  {
    var s' := Step(s, o, oracle);
    StepPassesOn(s, o, oracle);
    StepContainersGrow(s, o, oracle);
    NextAddsNoProspect(s, OpStep(o, oracle));
    forall e: string, c: nat | Holds(s', e, c) && e in Prospects(s') ensures c in s'.containers + s'.torn {
      PassedOnHolds(s, s', o, e, c);
    }
  }

  lemma StartKeepsPresent(s: State, ev: Event)
    requires NamesOk(s) && AllPresent(s) && Enabled(s, ev) && (ev.StartCreate? || ev.StartExecute? || ev.StartDestroy?)
    ensures AllPresent(Next(s, ev))
  {
    var s' := Next(s, ev);
    StartKeepsNames(s, ev);
    if ev.StartCreate? { CreateAddsOneProspect(s, ev.op, ev.id, ev.hasSetup); } else { NextAddsNoProspect(s, ev); }
    forall e: string, c: nat | Holds(s', e, c) && e in Prospects(s') ensures c in s'.containers + s'.torn {
      assert Holds(s, e, c);
      assert e in s.rows;
    }
  }

  lemma NextKeepsPresent(s: State, ev: Event)
    requires NamesOk(s) && AllPresent(s) && Enabled(s, ev) && |s.rows| <= LIST_LIMIT
    ensures AllPresent(Next(s, ev))
  {
    if ev.OpStep? {
      StepKeepsPresent(s, ev.op, ev.oracle);
    } else if ev.Crash? || StartsUp(ev) {
      RestKeepsPresent(s, ev);
    } else {
      StartKeepsPresent(s, ev);
    }
  }

  lemma RestKeepsPresent(s: State, ev: Event)
    requires AllPresent(s) && Enabled(s, ev) && |s.rows| <= LIST_LIMIT && (ev.Crash? || StartsUp(ev))
    ensures AllPresent(Next(s, ev))
  {
    var s' := Next(s, ev);
    FewRowsAllNewest(s.rows);
    NextAddsNoProspect(s, ev);
    forall e: string, c: nat | Holds(s', e, c) && e in Prospects(s') ensures c in s'.containers + s'.torn {
      SameHolds(s, s', e, c);
      if StartsUp(ev) { assert c in LiveIds(s.rows); }
    }
  }

  lemma RowsGrow(s: State, ev: Event)
    requires Enabled(s, ev)
    ensures s.rows.Keys <= Next(s, ev).rows.Keys
  {
  }

  lemma {:induction false} PrefixRowsFewer(s: State, events: seq<Event>, i: nat)
    requires i <= |events|
    ensures |Run(s, events[..i]).rows| <= |Run(s, events).rows|
  {
    if i < |events| {
      var earlier := events[..|events| - 1];
      PrefixRowsFewer(s, earlier, i);
      assert earlier[..i] == events[..i];
      var before, ev := Run(s, earlier), events[|events| - 1];
      if Enabled(before, ev) {
        RowsGrow(before, ev);
        SubsetCount(before.rows.Keys, Next(before, ev).rows.Keys);
      }
    } else {
      assert events[..i] == events;
    }
  }

  lemma {:induction false} RunKeepsPresent(maxLive: nat, events: seq<Event>)
    requires |Run(Init(maxLive), events).rows| <= LIST_LIMIT
    ensures AllPresent(Run(Init(maxLive), events))
  {
    if events != [] {
      var last := |events| - 1;
      PrefixRowsFewer(Init(maxLive), events, last);
      RunKeepsPresent(maxLive, events[..last]);
      RunKeepsNames(maxLive, events[..last]);
      var before := Run(Init(maxLive), events[..last]);
      if Enabled(before, events[last]) { NextKeepsPresent(before, events[last]); }
    }
  }

  /** In runs with at most 500 rows, the container a LIVE row names exists unless the experiment's own destroy or failed
      creation has been at it; a LIVE row without one is a creation that failed before it had any. */
  lemma LiveSandboxExists(maxLive: nat, events: seq<Event>, e: string)
    requires |Run(Init(maxLive), events).rows| <= LIST_LIMIT
    requires var s := Run(Init(maxLive), events); e in s.rows && Live(s.rows[e].status)
    ensures var s := Run(Init(maxLive), events);
            match s.rows[e].container
            case None => s.rows[e].status == FAILED && s.rows[e].readyAt.None?
            case Some(c) => c in s.containers || TornDownIn(Init(maxLive), events, e, c)
  {
    var s := Run(Init(maxLive), events);
    RunKeepsNames(maxLive, events);
    RunKeepsPresent(maxLive, events);
    assert BareRow(s.rows[e]);
    if s.rows[e].container.Some? {
      var c := s.rows[e].container.value;
      assert Holds(s, e, c) && e in Prospects(s);
      if c in s.torn { var f := TornHasCause(maxLive, events, c); }
    }
  }

  // --- Startup --------------------------------------------------------------------------------------------------

  predicate StartsUp(ev: Event) { ev.Startup? || ev.StartupInterrupted? }

  /** Nothing that a LIVE row named was removed on the way from s to s'. */
  ghost predicate KeepsOwned(s: State, s': State) {
    forall e, c :: Owns(s, e, c) && c in s.containers ==> c in s'.containers
  }

  lemma StartupKeepsOwned(s: State, ev: Event)
    requires Enabled(s, ev) && StartsUp(ev) && |s.rows| <= LIST_LIMIT
    ensures KeepsOwned(s, Next(s, ev))
  {
    FewRowsAllNewest(s.rows);
    forall e, c | Owns(s, e, c) && c in s.containers ensures c in Next(s, ev).containers {
      assert c in LiveIds(s.rows);
    }
  }

  lemma OwnersHold(s: State, e: string, f: string, c: nat)
    requires NamesOk(s) && Owns(s, e, c) && Owns(s, f, c)
    ensures e == f
  {
    assert Holds(s, e, c) && Holds(s, f, c);
  }

  /** Recovery, for any run with crashes and overlaps anywhere that ends in a startup and has at most 500 rows: every container
      left is named by exactly one LIVE row, every LIVE row's container is left unless that experiment's own destroy or failed
      creation had been at it, and no startup of the whole run, finished or interrupted, took a container a LIVE row named. */
  lemma StartupRecovers(maxLive: nat, events: seq<Event>)
    requires |Run(Init(maxLive), events).rows| <= LIST_LIMIT
    requires events != [] && events[|events| - 1] == Startup && Run(Init(maxLive), events[..|events| - 1]).ops == map[]
    ensures var s := Run(Init(maxLive), events);
            && (forall c :: c in s.containers ==> exists e :: Owns(s, e, c) && forall f :: Owns(s, f, c) ==> f == e)
            && (forall e, c :: Owns(s, e, c) ==> c in s.containers || TornDownIn(Init(maxLive), events, e, c))
            && (forall i :: 0 <= i < |events| && StartsUp(events[i]) ==>
                  KeepsOwned(Run(Init(maxLive), events[..i]), Run(Init(maxLive), events[..i + 1])))
  {
    var start, s := Init(maxLive), Run(Init(maxLive), events);
    RunKeepsNames(maxLive, events);
    forall c | c in s.containers ensures exists e :: Owns(s, e, c) && forall f :: Owns(s, f, c) ==> f == e {
      var e :| e in s.rows && e in Newest(s.rows) && Live(s.rows[e].status) && s.rows[e].container == Some(c);
      assert Owns(s, e, c);
      forall f | Owns(s, f, c) ensures f == e { OwnersHold(s, e, f, c); }
    }
    forall e, c | Owns(s, e, c) ensures c in s.containers || TornDownIn(start, events, e, c) {
      LiveSandboxExists(maxLive, events, e);
    }
    forall i | 0 <= i < |events| && StartsUp(events[i]) ensures KeepsOwned(Run(start, events[..i]), Run(start, events[..i + 1])) {
      PrefixRowsFewer(start, events, i);
      RunStep(start, events, i);
      if Enabled(Run(start, events[..i]), events[i]) { StartupKeepsOwned(Run(start, events[..i]), events[i]); }
    }
  }

  /** After any run, with a table of any size, a startup leaves a LIVE row's container exactly if that row is among the newest
      500. */
  lemma StartupKeepsNewestOnly(maxLive: nat, events: seq<Event>, e: string, c: nat)
    requires var s := Run(Init(maxLive), events); s.ops == map[] && Owns(s, e, c) && c in s.containers
    ensures var s := Run(Init(maxLive), events); c in Next(s, Startup).containers <==> e in Newest(s.rows)
  {
    var s := Run(Init(maxLive), events);
    RunKeepsNames(maxLive, events);
    forall f | Owns(s, f, c) ensures f == e { OwnersHold(s, e, f, c); }
    NewestKeepTheirs(Run(Init(maxLive), events), e, c);
  }

  lemma NewestKeepTheirs(s: State, e: string, c: nat)
    requires Owns(s, e, c) && forall f :: Owns(s, f, c) ==> f == e
    ensures c in LiveIds(s.rows) <==> e in Newest(s.rows)
  {
    if c in LiveIds(s.rows) {
      var f :| f in s.rows && f in Newest(s.rows) && Live(s.rows[f].status) && s.rows[f].container.Some? && s.rows[f].container.value == c;
      assert Owns(s, f, c);
    }
  }

  /** Which rows those are, as ORDER BY created_at DESC LIMIT 500 says it: after any run that ends idle, a startup leaves a LIVE
      row's container exactly if fewer than 500 rows were created later. */
  lemma StartupKeepsLatest(maxLive: nat, events: seq<Event>, e: string, c: nat)
    requires var s := Run(Init(maxLive), events); s.ops == map[] && Owns(s, e, c) && c in s.containers
    ensures var s := Run(Init(maxLive), events);
            c in Next(s, Startup).containers <==> |set f | f in s.rows && s.rows[f].createdAt > s.rows[e].createdAt| < 500
  {
    StartupKeepsNewestOnly(maxLive, events, e, c);
  }

  /** A container disappears, or is counted as torn down, only at the hands of an operation on the experiment whose row
      names it, or of a startup when no LIVE row among the newest 500 names it. */
  lemma RemovalHasReason(s: State, ev: Event, c: nat)
    requires Inv(s) && Enabled(s, ev) && SerialStart(s, ev)
    requires (c in s.containers && c !in Next(s, ev).containers) || (c !in s.torn && c in Next(s, ev).torn)
    ensures || (ev.OpStep? && TearsDown(s, ev, s.ops[ev.op].id, c)
                && s.ops[ev.op].id in s.rows && s.rows[s.ops[ev.op].id].container == Some(c))
            || (StartsUp(ev) && forall e :: Owns(s, e, c) ==> e !in Newest(s.rows))
  {
    if ev.OpStep? {
      assert OpOk(s, ev.op);
    } else {
      forall e | Owns(s, e, c) ensures e !in Newest(s.rows) {
        assert forall f :: Owns(s, f, c) ==> f == e;
        NewestKeepTheirs(s, e, c);
      }
    }
  }

  // --- No leak --------------------------------------------------------------------------------------------------

  /** No crash, and every removal works. */
  ghost predicate Smooth(start: State, events: seq<Event>) {
    forall i :: 0 <= i < |events| ==> SmoothEvent(Run(start, events[..i]), events[i])
  }

  ghost predicate SmoothEvent(s: State, ev: Event) {
    && !ev.Crash?
    && (ev.OpStep? && ev.op in s.ops && (s.ops[ev.op].pc.TearDown? || s.ops[ev.op].pc.FailCleanup? || s.ops[ev.op].pc.Provision?) ==>
          ev.oracle.removalWorks)
  }

  /** Torn-down containers are never handed out again. */
  ghost predicate TornOld(s: State) {
    forall c :: c in s.torn ==> c < s.nextContainer
  }

  lemma SmoothStep(s: State, ev: Event)
    requires OpsOk(s) && TornOld(s) && Enabled(s, ev) && SmoothEvent(s, ev)
    requires s.orphans == {} && s.torn !! s.containers
    ensures Next(s, ev).orphans == {} && Next(s, ev).torn !! Next(s, ev).containers
  {
    if ev.OpStep? { assert OpOk(s, ev.op) && s.nextContainer !in s.torn; }
  }

  lemma {:induction false} SmoothRun(s: State, events: seq<Event>)
    requires Inv(s) && TornOld(s) && Serial(s, events) && Smooth(s, events)
    requires s.orphans == {} && s.torn !! s.containers
    ensures var s' := Run(s, events); s'.orphans == {} && s'.torn !! s'.containers && TornOld(s')
  {
    if events != [] {
      var last := |events| - 1;
      SerialPrefix(s, events, last);
      assert forall i :: 0 <= i < last ==> events[..last][..i] == events[..i];
      SmoothRun(s, events[..last]);
      RunKeepsInv(s, events[..last]);
      var before := Run(s, events[..last]);
      if Enabled(before, events[last]) {
        SmoothStep(before, events[last]);
        NextKeepsTornOld(before, events[last]);
      }
    }
  }

  lemma NextKeepsTornOld(s: State, ev: Event)
    requires Inv(s) && TornOld(s) && Enabled(s, ev)
    ensures TornOld(Next(s, ev))
  {
    if ev.OpStep? {
      assert OpOk(s, ev.op) && RowOk(s, s.ops[ev.op].id);
    }
  }

  /** In serial runs of any size without crashes and failed removals nothing leaks: at every moment each container is named
      by a LIVE row or in the hands of the operation that is creating its experiment. */
  lemma NoLeak(maxLive: nat, events: seq<Event>, c: nat)
    requires Serial(Init(maxLive), events) && Smooth(Init(maxLive), events)
    requires c in Run(Init(maxLive), events).containers
    ensures var s := Run(Init(maxLive), events);
            (exists e :: Owns(s, e, c)) || (exists o :: o in s.ops && Creating(s.ops[o], c))
  {
    var s := Run(Init(maxLive), events);
    RunKeepsInv(Init(maxLive), events);
    SmoothRun(Init(maxLive), events);
    assert Accounted(s, c);
    if e :| e in s.rows && Live(s.rows[e].status) && s.rows[e].container == Some(c) { assert Owns(s, e, c); }
  }
}
