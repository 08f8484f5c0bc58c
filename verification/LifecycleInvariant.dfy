/** What holds in every serial run of the lifecycle, crashes included. */
module LifecycleInvariant {
  import opened Common
  import opened Options
  import opened ExperimentStates
  import opened Lifecycle

  // --- Operations in flight -------------------------------------------------------------------------------------

  /** What an operation may have left to do, given the status of its experiment. */
  ghost predicate ShapeOk(pc: Pc, status: Status) {
    match pc
    case LogCreating => status == CREATING
    case Provision => status == CREATING
    case Attach(_) => status == CREATING
    case Baseline => status == CREATING
    case FailSave(_) => status == CREATING
    case FailCleanup => status == CREATING
    case AfterReady => status == READY
    case AwaitJob(_) => status == RUNNING
    case TearDown => status != DESTROYED
    case Move(target, rest) =>
      || (target == READY && rest == AfterReady && status == CREATING)
      || (target == FAILED && rest == Finish && status == CREATING)
      || (target == RUNNING && rest == AwaitJob(true) && status == READY)
      || (target == RUNNING && rest in {Finish, AwaitJob(false)} && status != DESTROYED)
      || (target in {READY, FAILED, TIMEOUT, CANCELLED} && rest == Finish && status == RUNNING)
      || (target == DESTROYED && rest == Finish && status != DESTROYED)
    case Log(edge, rest) =>
      && edge.to == status && edge.from.Some? && CanTransition(edge.from.value, edge.to)
      && (rest == Finish || (rest == AfterReady && status == READY) || (rest.AwaitJob? && status == RUNNING))
    case Finish => false
  }

  /** The operation's copy is its row, and its program is one of the few that exist. */
  ghost predicate OpOk(s: State, o: nat)
    requires o in s.ops
  {
    var op := s.ops[o];
    op.id in s.rows && op.local == s.rows[op.id] && ShapeOk(op.pc, op.local.status)
  }

  ghost predicate OpsOk(s: State) {
    && (forall o :: o in s.ops ==> OpOk(s, o))
    && (forall o, p :: o in s.ops && p in s.ops && s.ops[o].id == s.ops[p].id ==> o == p)
  }

  /** From s to s' operation o advanced, saving at most its own experiment's row. */
  ghost predicate OwnStep(s: State, s': State, o: nat)
    requires o in s.ops
  {
    var id := s.ops[o].id;
    && id in s'.rows && (s'.rows == s.rows || s'.rows == s.rows[id := s'.rows[id]])
    && if o in s'.ops then s'.ops == s.ops[o := s'.ops[o]] && s'.ops[o].id == id && OpOk(s', o)
       else s'.ops == s.ops - {o}
  }

  lemma MoveIsOwn(s: State, o: nat, oracle: Oracle)
    requires o in s.ops && OpOk(s, o) && (s.ops[o].pc.Move? || s.ops[o].pc.Log?)
    ensures OwnStep(s, Step(s, o, oracle), o)
  {
  }

  lemma StepIsOwn(s: State, o: nat, oracle: Oracle)
    requires o in s.ops && OpOk(s, o)
    ensures OwnStep(s, Step(s, o, oracle), o)
  {
    if s.ops[o].pc.Move? || s.ops[o].pc.Log? {
      MoveIsOwn(s, o, oracle);
    } else if s.ops[o].pc.FailSave? || s.ops[o].pc.FailCleanup? || s.ops[o].pc.TearDown? {
      EndingIsOwn(s, o, oracle);
    } else {
      CreatingIsOwn(s, o, oracle);
    }
  }

  lemma EndingIsOwn(s: State, o: nat, oracle: Oracle)
    requires o in s.ops && OpOk(s, o) && (s.ops[o].pc.FailSave? || s.ops[o].pc.FailCleanup? || s.ops[o].pc.TearDown?)
    ensures OwnStep(s, Step(s, o, oracle), o)
  {
  }

  lemma CreatingIsOwn(s: State, o: nat, oracle: Oracle)
    requires o in s.ops && OpOk(s, o)
    requires s.ops[o].pc in {LogCreating, Provision, Baseline, AfterReady} || s.ops[o].pc.Attach? || s.ops[o].pc.AwaitJob? || s.ops[o].pc.Finish?
    ensures OwnStep(s, Step(s, o, oracle), o)
  {
  }

  /** The others' copies stay valid, since they work on other experiments. */
  lemma OwnStepKeepsOps(s: State, s': State, o: nat)
    requires OpsOk(s) && o in s.ops && OwnStep(s, s', o)
    ensures OpsOk(s')
  {
    forall p | p in s'.ops ensures OpOk(s', p) {
      if p != o { assert OpOk(s, p); }
    }
  }

  lemma StartKeepsOps(s: State, ev: Event)
    requires OpsOk(s) && Enabled(s, ev) && SerialStart(s, ev)
    requires ev.StartCreate? || ev.StartExecute? || ev.StartDestroy?
    ensures OpsOk(Next(s, ev))
  {
    var s' := Next(s, ev);
    forall p | p in s'.ops ensures OpOk(s', p) {
      if p != ev.op { assert OpOk(s, p); }
    }
  }

  lemma NextKeepsOps(s: State, ev: Event)
    requires OpsOk(s) && Enabled(s, ev) && SerialStart(s, ev)
    ensures OpsOk(Next(s, ev))
  {
    match ev
    case OpStep(o, oracle) =>
      StepIsOwn(s, o, oracle);
      OwnStepKeepsOps(s, Next(s, ev), o);
    case Crash =>
    case Startup =>
    case StartupInterrupted(_) =>
    case _ => StartKeepsOps(s, ev);
  }

  /** In a serial run no operation ever meets an illegal transition, except execute and run_tests on a row whose
      creation never finished. */
  lemma NoIllegalMove(s: State, o: nat)
    requires OpsOk(s) && o in s.ops && s.ops[o].pc.Move?
    ensures var op := s.ops[o];
            Accepted(op.local.status, op.pc.target) <==> !(op.local.status == CREATING && op.pc.target == RUNNING)
  {
    assert OpOk(s, o);
  }

  // --- Containers -----------------------------------------------------------------------------------------------

  /** The operation is creating the experiment and its container is not claimed by a LIVE row yet. */
  ghost predicate Creating(op: Op, c: nat) {
    || op.pc == Attach(c)
    || (op.local.container == Some(c) && op.local.status == CREATING
        && (op.pc.Baseline? || op.pc.FailSave? || op.pc.FailCleanup? || op.pc == Move(READY, AfterReady)))
  }

  ghost predicate RowOk(s: State, e: string)
    requires e in s.rows
  {
    var row := s.rows[e];
    && row.status != COMPLETED
    && row.createdAt < s.clock
    && (row.container.Some? ==> row.container.value < s.nextContainer)
    && (row.status == CREATING ==> row.readyAt.None?)
    && (Live(row.status) && row.container.None? ==> row.status == FAILED && row.readyAt.None?)
  }

  ghost predicate Unclaimed(s: State, c: nat) {
    forall e :: e in s.rows ==> s.rows[e].container != Some(c)
  }

  /** An operation's container is there, new, and its own. */
  ghost predicate AttachOk(s: State, o: nat)
    requires o in s.ops
  {
    var op := s.ops[o];
    && (op.pc.Attach? ==>
          op.pc.container in s.containers && op.pc.container < s.nextContainer && Unclaimed(s, op.pc.container)
          && op.local.container.None?)
    && (op.pc.LogCreating? || op.pc.Provision? ==> op.local.container.None?)
    && ((op.pc.Baseline? || op.pc == Move(READY, AfterReady)) ==>
          op.local.container.Some? && op.local.container.value in s.containers)
    && ((op.pc == Move(DESTROYED, Finish) || (op.pc == Move(FAILED, Finish) && op.local.status == CREATING)) && op.local.container.Some? ==>
          op.local.container.value in s.torn)
    && (op.pc.Move? && op.pc.target == RUNNING ==> op.local.container.Some?)
  }

  /** Someone answers for a container: a LIVE row, an operation creating an experiment, or one of the histories. */
  ghost predicate Accounted(s: State, c: nat) {
    || (exists e :: e in s.rows && Live(s.rows[e].status) && s.rows[e].container == Some(c))
    || (exists o :: o in s.ops && Creating(s.ops[o], c))
    || c in s.torn || c in s.orphans
  }

  ghost predicate ContainersOk(s: State) {
    && (forall c :: c in s.containers ==> c < s.nextContainer && Accounted(s, c))
    && (forall e :: e in s.rows ==> RowOk(s, e))
    && (forall e, f :: e in s.rows && f in s.rows && s.rows[e].container.Some? && s.rows[e].container == s.rows[f].container ==> e == f)
    && (forall o :: o in s.ops ==> AttachOk(s, o))
    && (forall o, p :: o in s.ops && p in s.ops && s.ops[o].pc.Attach? && s.ops[o].pc == s.ops[p].pc ==> o == p)
  }

  lemma ProvisionAccounts(s: State, o: nat, oracle: Oracle, c: nat)
    requires ContainersOk(s) && o in s.ops && s.ops[o].pc.Provision? && (oracle.raises.None? || !oracle.removalWorks)
    requires c in Step(s, o, oracle).containers
    ensures c < Step(s, o, oracle).nextContainer && Accounted(Step(s, o, oracle), c)
  {
    var s' := Step(s, o, oracle);
    if c == s.nextContainer {
      assert Creating(s'.ops[o], c) || c in s'.orphans;
    } else {
      assert Accounted(s, c);
      if p :| p in s.ops && Creating(s.ops[p], c) { assert Creating(s'.ops[p], c); }
    }
  }

  lemma ProvisionKeepsContainers(s: State, o: nat, oracle: Oracle)
    requires OpsOk(s) && ContainersOk(s) && o in s.ops && s.ops[o].pc.Provision? && (oracle.raises.None? || !oracle.removalWorks)
    ensures ContainersOk(Step(s, o, oracle))
  {
    var s' := Step(s, o, oracle);
    forall c | c in s'.containers ensures c < s'.nextContainer && Accounted(s', c) {
      ProvisionAccounts(s, o, oracle, c);
    }
    forall e | e in s'.rows ensures RowOk(s', e) { assert RowOk(s, e); }
    forall p | p in s'.ops ensures AttachOk(s', p) { ProvisionAttaches(s, o, oracle, p); }
  }

  lemma ProvisionAttaches(s: State, o: nat, oracle: Oracle, p: nat)
    requires ContainersOk(s) && o in s.ops && s.ops[o].pc.Provision? && (oracle.raises.None? || !oracle.removalWorks)
    requires p in Step(s, o, oracle).ops
    ensures AttachOk(Step(s, o, oracle), p)
  {
    assert AttachOk(s, p);
    if p == o {
      forall e | e in s.rows ensures s.rows[e].container != Some(s.nextContainer) { assert RowOk(s, e); }
    }
  }

  /** What a step other than Provision may do to containers, rows and its own operation. */
  ghost predicate ContainerStep(s: State, s': State, o: nat)
    requires o in s.ops && OwnStep(s, s', o) && s.ops[o].id in s.rows
  {
    var op, row, row' := s.ops[o], s.rows[s.ops[o].id], s'.rows[s.ops[o].id];
    && s'.nextContainer == s.nextContainer && s'.orphans == s.orphans && s'.clock >= s.clock
    && ((s'.containers == s.containers && s'.torn == s.torn)
        || (row.container.Some? && s'.torn == s.torn + {row.container.value}
            && s.containers - {row.container.value} <= s'.containers <= s.containers))
    && (row'.container == row.container || (op.pc.Attach? && row.container.None? && row'.container == Some(op.pc.container)))
    && (op.pc.Attach? ==> row'.container == Some(op.pc.container))
    && (Live(row.status) && row.container.Some? ==> (Live(row'.status) && row'.container == row.container) || row.container.value in s'.torn)
    && (forall c: nat :: Creating(op, c) ==>
          (o in s'.ops && Creating(s'.ops[o], c)) || (Live(row'.status) && row'.container == Some(c)) || c in s'.torn)
    && RowOk(s', op.id)
    && (o in s'.ops ==> AttachOk(s', o) && !s'.ops[o].pc.Attach?)
  }

  lemma ContainerStepAccounts(s: State, s': State, o: nat, c: nat)
    requires o in s.ops && s.ops[o].id in s.rows && OwnStep(s, s', o) && ContainerStep(s, s', o)
    requires c in s'.containers && Accounted(s, c)
    ensures Accounted(s', c)
  {
    var id := s.ops[o].id;
    if e :| e in s.rows && Live(s.rows[e].status) && s.rows[e].container == Some(c) {
      if e != id { assert Live(s'.rows[e].status) && s'.rows[e].container == Some(c); }
    } else if p :| p in s.ops && Creating(s.ops[p], c) {
      if p != o { assert Creating(s'.ops[p], c); }
    }
  }

  lemma ContainerStepKeepsAttach(s: State, s': State, o: nat, p: nat)
    requires OpsOk(s) && ContainersOk(s) && o in s.ops && s.ops[o].id in s.rows && OwnStep(s, s', o) && ContainerStep(s, s', o)
    requires p in s.ops && p != o
    ensures AttachOk(s', p)
  {
    assert AttachOk(s, p) && AttachOk(s, o) && OpOk(s, p) && OpOk(s, o);
    var op := s.ops[p];
    if op.pc.Attach? {
      forall e | e in s'.rows ensures s'.rows[e].container != Some(op.pc.container) {
        if e == s.ops[o].id { assert s.rows[e].container != Some(op.pc.container); }
      }
    }
  }

  lemma ContainerStepKeeps(s: State, s': State, o: nat)
    requires OpsOk(s) && ContainersOk(s) && o in s.ops && s.ops[o].id in s.rows && OwnStep(s, s', o) && ContainerStep(s, s', o)
    ensures ContainersOk(s')
  {
    var id := s.ops[o].id;
    forall c | c in s'.containers ensures c < s'.nextContainer && Accounted(s', c) {
      ContainerStepAccounts(s, s', o, c);
    }
    forall e | e in s'.rows ensures RowOk(s', e) {
      if e != id { assert RowOk(s, e); }
    }
    forall p | p in s'.ops ensures AttachOk(s', p) {
      if p != o { ContainerStepKeepsAttach(s, s', o, p); }
    }
    assert AttachOk(s, o);
  }

  lemma MoveIsContainerStep(s: State, o: nat, oracle: Oracle)
    requires o in s.ops && OpOk(s, o) && AttachOk(s, o) && RowOk(s, s.ops[o].id) && OwnStep(s, Step(s, o, oracle), o)
    requires s.ops[o].pc.Move?
    ensures ContainerStep(s, Step(s, o, oracle), o)
  {
    var op := s.ops[o];
    if Accepted(op.local.status, op.pc.target) && op.local.status != op.pc.target {
      RealMoveIsContainerStep(s, o, oracle);
    }
  }

  lemma RealMoveIsContainerStep(s: State, o: nat, oracle: Oracle)
    requires o in s.ops && OpOk(s, o) && AttachOk(s, o) && RowOk(s, s.ops[o].id) && OwnStep(s, Step(s, o, oracle), o)
    requires s.ops[o].pc.Move? && CanTransition(s.ops[o].local.status, s.ops[o].pc.target) && s.ops[o].local.status != s.ops[o].pc.target
    ensures ContainerStep(s, Step(s, o, oracle), o)
  {
  }

  lemma RemovalIsContainerStep(s: State, o: nat, oracle: Oracle)
    requires o in s.ops && OpOk(s, o) && AttachOk(s, o) && RowOk(s, s.ops[o].id) && OwnStep(s, Step(s, o, oracle), o)
    requires s.ops[o].pc.TearDown? || s.ops[o].pc.FailCleanup?
    ensures ContainerStep(s, Step(s, o, oracle), o)
  {
  }

  lemma StepIsContainerStep(s: State, o: nat, oracle: Oracle)
    requires o in s.ops && OpOk(s, o) && AttachOk(s, o) && RowOk(s, s.ops[o].id) && OwnStep(s, Step(s, o, oracle), o)
    requires s.ops[o].pc.Provision? ==> oracle.raises.Some? && oracle.removalWorks
    ensures ContainerStep(s, Step(s, o, oracle), o)
  {
    match s.ops[o].pc
    case Move(_, _) => MoveIsContainerStep(s, o, oracle);
    case TearDown => RemovalIsContainerStep(s, o, oracle);
    case FailCleanup => RemovalIsContainerStep(s, o, oracle);
    case _ =>
  }

  lemma StepKeepsContainers(s: State, o: nat, oracle: Oracle)
    requires OpsOk(s) && ContainersOk(s) && o in s.ops
    ensures ContainersOk(Step(s, o, oracle))
  {
    if s.ops[o].pc.Provision? && (oracle.raises.None? || !oracle.removalWorks) {
      ProvisionKeepsContainers(s, o, oracle);
    } else {
      assert OpOk(s, o) && AttachOk(s, o) && RowOk(s, s.ops[o].id);
      StepIsOwn(s, o, oracle);
      StepIsContainerStep(s, o, oracle);
      ContainerStepKeeps(s, Step(s, o, oracle), o);
    }
  }

  lemma StartAccounts(s: State, ev: Event, c: nat)
    requires Enabled(s, ev) && (ev.StartCreate? || ev.StartExecute? || ev.StartDestroy?) && Accounted(s, c)
    ensures Accounted(Next(s, ev), c)
  {
    var s' := Next(s, ev);
    if e :| e in s.rows && Live(s.rows[e].status) && s.rows[e].container == Some(c) {
      assert Live(s'.rows[e].status) && s'.rows[e].container == Some(c);
    } else if p :| p in s.ops && Creating(s.ops[p], c) {
      assert Creating(s'.ops[p], c);
    }
  }

  lemma StartKeepsContainers(s: State, ev: Event)
    requires OpsOk(s) && ContainersOk(s) && Enabled(s, ev) && (ev.StartCreate? || ev.StartExecute? || ev.StartDestroy?)
    ensures ContainersOk(Next(s, ev))
  {
    var s' := Next(s, ev);
    forall c | c in s'.containers ensures c < s'.nextContainer && Accounted(s', c) {
      StartAccounts(s, ev, c);
    }
    forall e | e in s'.rows ensures RowOk(s', e) {
      StartKeepsRow(s, ev, e);
    }
    forall p | p in s'.ops ensures AttachOk(s', p) {
      StartKeepsAttach(s, ev, p);
    }
    StartKeepsNamesApart(s, ev);
  }

  /** No two rows name one container, and no two operations attach one. */
  lemma StartKeepsNamesApart(s: State, ev: Event)
    requires ContainersOk(s) && Enabled(s, ev) && (ev.StartCreate? || ev.StartExecute? || ev.StartDestroy?)
    ensures var s' := Next(s, ev);
            && (forall e, f :: e in s'.rows && f in s'.rows && s'.rows[e].container.Some? && s'.rows[e].container == s'.rows[f].container ==> e == f)
            && (forall o, p :: o in s'.ops && p in s'.ops && s'.ops[o].pc.Attach? && s'.ops[o].pc == s'.ops[p].pc ==> o == p)
  {
  }

  lemma StartKeepsRow(s: State, ev: Event, e: string)
    requires ContainersOk(s) && Enabled(s, ev) && (ev.StartCreate? || ev.StartExecute? || ev.StartDestroy?)
    requires e in Next(s, ev).rows
    ensures RowOk(Next(s, ev), e)
  {
    if e in s.rows { assert RowOk(s, e); }
  }

  lemma StartKeepsAttach(s: State, ev: Event, p: nat)
    requires OpsOk(s) && ContainersOk(s) && Enabled(s, ev) && (ev.StartCreate? || ev.StartExecute? || ev.StartDestroy?)
    requires p in Next(s, ev).ops
    ensures AttachOk(Next(s, ev), p)
  {
    if p != ev.op { assert AttachOk(s, p) && Next(s, ev).ops[p] == s.ops[p]; }
  }

  /** With at most 500 rows, every row is among the newest 500. */
  lemma FewRowsAllNewest(rows: map<string, Experiment>)
    requires |rows| <= LIST_LIMIT
    ensures Newest(rows) == rows.Keys
  {
    forall e | e in rows ensures e in Newest(rows) {
      var newer := set f | f in rows && rows[f].createdAt > rows[e].createdAt;
      assert newer <= rows.Keys - {e};
      SubsetCount(newer, rows.Keys - {e});
    }
  }

  lemma RestKeepsContainers(s: State, ev: Event)
    requires OpsOk(s) && ContainersOk(s) && Enabled(s, ev) && (ev.Crash? || ev.Startup? || ev.StartupInterrupted?)
    ensures ContainersOk(Next(s, ev))
  {
    var s' := Next(s, ev);
    forall c | c in s'.containers ensures c < s'.nextContainer && Accounted(s', c) {
      assert Accounted(s, c);
      if e :| e in s.rows && Live(s.rows[e].status) && s.rows[e].container == Some(c) {
        assert Live(s'.rows[e].status) && s'.rows[e].container == Some(c);
      }
    }
    forall e | e in s'.rows ensures RowOk(s', e) {
      assert RowOk(s, e);
    }
  }

  // --- The audit log --------------------------------------------------------------------------------------------

  /** The entries are a walk along the table that starts with the creation. */
  ghost predicate PathOk(t: seq<Edge>) {
    && (t != [] ==> t[0] == Edge(None, CREATING))
    && forall i :: 0 < i < |t| ==> t[i].from == Some(t[i - 1].to) && CanTransition(t[i - 1].to, t[i].to)
  }

  ghost predicate Visits(t: seq<Edge>, states: set<Status>) {
    exists i :: 0 <= i < |t| && t[i].to in states
  }

  const OUTCOMES := {COMPLETED, FAILED, TIMEOUT, CANCELLED}

  /** The trail leads to the row's status, and each timestamp is set exactly if the trail visits its states. */
  ghost predicate TrailOk(e: Experiment, t: seq<Edge>) {
    && PathOk(t) && t != [] && t[|t| - 1].to == e.status
    && (e.readyAt.Some? <==> Visits(t, {READY}))
    && (e.startedAt.Some? <==> Visits(t, {RUNNING}))
    && (e.completedAt.Some? <==> Visits(t, OUTCOMES))
    && (e.destroyedAt.Some? <==> Visits(t, {DESTROYED}))
  }

  /** The audit entry an operation still owes for a row it has saved. */
  function Owed(pc: Pc): seq<Edge> {
    match pc
    case LogCreating => [Edge(None, CREATING)]
    case Log(edge, _) => [edge]
    case _ => []
  }

  ghost predicate AuditOk(s: State) {
    && (forall o :: o in s.ops && s.ops[o].id !in s.gapped ==>
          TrailOk(s.ops[o].local, LogOf(s, s.ops[o].id) + Owed(s.ops[o].pc)))
    && (forall e :: e in s.rows && e !in s.gapped && (forall o :: o in s.ops ==> s.ops[o].id != e) ==>
          TrailOk(s.rows[e], LogOf(s, e)))
  }

  lemma VisitsMore(t: seq<Edge>, edge: Edge, states: set<Status>)
    ensures Visits(t + [edge], states) <==> Visits(t, states) || edge.to in states
  {
    if i :| 0 <= i < |t| && t[i].to in states { assert (t + [edge])[i].to in states; }
    assert (t + [edge])[|t|] == edge;
  }

  /** Entering a new state adds one edge to the trail and sets the timestamps it should. */
  lemma TrailGrows(e: Experiment, t: seq<Edge>, target: Status, now: nat)
    requires TrailOk(e, t) && CanTransition(e.status, target)
    ensures TrailOk(Entered(e, target, now), t + [Edge(Some(e.status), target)])
  {
    var edge := Edge(Some(e.status), target);
    VisitsMore(t, edge, {READY});
    VisitsMore(t, edge, {RUNNING});
    VisitsMore(t, edge, OUTCOMES);
    VisitsMore(t, edge, {DESTROYED});
  }

  /** The trail of the step's own experiment stays in order; nobody else's is touched. */
  ghost predicate AuditStep(s: State, s': State, o: nat)
    requires o in s.ops && OwnStep(s, s', o)
  {
    var id := s.ops[o].id;
    && s'.gapped == s.gapped
    && (s'.log == s.log || (id in s'.log && s'.log == s.log[id := s'.log[id]]))
    && (id !in s.gapped ==> TrailOk(s'.rows[id], LogOf(s', id) + if o in s'.ops then Owed(s'.ops[o].pc) else []))
  }

  lemma StepIsAuditStep(s: State, o: nat, oracle: Oracle)
    requires o in s.ops && OpOk(s, o) && OwnStep(s, Step(s, o, oracle), o)
    requires s.ops[o].id !in s.gapped ==> TrailOk(s.ops[o].local, LogOf(s, s.ops[o].id) + Owed(s.ops[o].pc))
    ensures AuditStep(s, Step(s, o, oracle), o)
  {
    if s.ops[o].pc.Move? {
      assert LogOf(s, s.ops[o].id) + [] == LogOf(s, s.ops[o].id);
      MoveIsAuditStep(s, o, oracle);
    } else {
      OtherIsAuditStep(s, o, oracle);
    }
  }

  /** A step that saves no new status: the row's stamps stay, and an entry at most moves from owed to written. */
  ghost predicate KeepsStamps(s: State, s': State, o: nat)
    requires o in s.ops
  {
    var op := s.ops[o];
    && op.id in s'.rows && SameStamps(op.local, s'.rows[op.id]) && s'.gapped == s.gapped
    && LogOf(s', op.id) == LogOf(s, op.id) + Owed(op.pc)
    && (o in s'.ops ==> Owed(s'.ops[o].pc) == [])
    && (s'.log == s.log || (op.id in s'.log && s'.log == s.log[op.id := s'.log[op.id]]))
  }

  lemma OtherShape(s: State, o: nat, oracle: Oracle)
    requires o in s.ops && OpOk(s, o) && !s.ops[o].pc.Move?
    ensures KeepsStamps(s, Step(s, o, oracle), o)
  {
    if s.ops[o].pc.LogCreating? || s.ops[o].pc.Log? { LogShape(s, o, oracle); } else { QuietShape(s, o, oracle); }
  }

  lemma LogShape(s: State, o: nat, oracle: Oracle)
    requires o in s.ops && OpOk(s, o) && (s.ops[o].pc.LogCreating? || s.ops[o].pc.Log?)
    ensures KeepsStamps(s, Step(s, o, oracle), o)
  {
  }

  lemma QuietShape(s: State, o: nat, oracle: Oracle)
    requires o in s.ops && OpOk(s, o) && !s.ops[o].pc.Move? && !s.ops[o].pc.LogCreating? && !s.ops[o].pc.Log?
    ensures KeepsStamps(s, Step(s, o, oracle), o)
  {
    assert LogOf(s, s.ops[o].id) + [] == LogOf(s, s.ops[o].id);
  }

  ghost predicate SameStamps(e: Experiment, e': Experiment) {
    && e'.status == e.status && e'.readyAt == e.readyAt && e'.startedAt == e.startedAt
    && e'.completedAt == e.completedAt && e'.destroyedAt == e.destroyedAt
  }

  lemma OtherIsAuditStep(s: State, o: nat, oracle: Oracle)
    requires o in s.ops && OpOk(s, o) && OwnStep(s, Step(s, o, oracle), o) && !s.ops[o].pc.Move?
    requires s.ops[o].id !in s.gapped ==> TrailOk(s.ops[o].local, LogOf(s, s.ops[o].id) + Owed(s.ops[o].pc))
    ensures AuditStep(s, Step(s, o, oracle), o)
  {
    OtherShape(s, o, oracle);
    var log' := LogOf(Step(s, o, oracle), s.ops[o].id);
    assert log' + [] == log';
  }

  lemma MoveIsAuditStep(s: State, o: nat, oracle: Oracle)
    requires o in s.ops && OpOk(s, o) && OwnStep(s, Step(s, o, oracle), o) && s.ops[o].pc.Move?
    requires s.ops[o].id !in s.gapped ==> TrailOk(s.ops[o].local, LogOf(s, s.ops[o].id))
    ensures AuditStep(s, Step(s, o, oracle), o)
  {
    var op := s.ops[o];
    var log := LogOf(s, op.id);
    assert log + [] == log;
    if op.id !in s.gapped && CanTransition(op.local.status, op.pc.target) {
      TrailGrows(op.local, log, op.pc.target, s.clock);
    }
  }

  lemma AuditStepKeepsOp(s: State, s': State, o: nat, p: nat)
    requires OpsOk(s) && AuditOk(s) && o in s.ops && OwnStep(s, s', o) && AuditStep(s, s', o)
    requires p in s'.ops && s'.ops[p].id !in s'.gapped
    ensures TrailOk(s'.ops[p].local, LogOf(s', s'.ops[p].id) + Owed(s'.ops[p].pc))
  {
    if p != o { assert OpOk(s, p) && OpOk(s, o) && s.ops[p].id != s.ops[o].id; }
  }

  lemma AuditStepKeepsRow(s: State, s': State, o: nat, e: string)
    requires OpsOk(s) && AuditOk(s) && o in s.ops && OwnStep(s, s', o) && AuditStep(s, s', o)
    requires e in s'.rows && e !in s'.gapped && forall p :: p in s'.ops ==> s'.ops[p].id != e
    ensures TrailOk(s'.rows[e], LogOf(s', e))
  {
    if e == s.ops[o].id {
      assert o !in s'.ops;
      assert LogOf(s', e) + [] == LogOf(s', e);
    } else {
      forall p | p in s.ops ensures s.ops[p].id != e {
        if p != o { assert s'.ops[p] == s.ops[p]; }
      }
    }
  }

  lemma AuditStepKeeps(s: State, s': State, o: nat)
    requires OpsOk(s) && AuditOk(s) && o in s.ops && OwnStep(s, s', o) && AuditStep(s, s', o)
    ensures AuditOk(s')
  {
    forall p | p in s'.ops && s'.ops[p].id !in s'.gapped
      ensures TrailOk(s'.ops[p].local, LogOf(s', s'.ops[p].id) + Owed(s'.ops[p].pc))
    {
      AuditStepKeepsOp(s, s', o, p);
    }
    forall e | e in s'.rows && e !in s'.gapped && (forall p :: p in s'.ops ==> s'.ops[p].id != e)
      ensures TrailOk(s'.rows[e], LogOf(s', e))
    {
      AuditStepKeepsRow(s, s', o, e);
    }
  }

  lemma StepKeepsAudit(s: State, o: nat, oracle: Oracle)
    requires OpsOk(s) && AuditOk(s) && o in s.ops
    ensures AuditOk(Step(s, o, oracle))
  {
    assert OpOk(s, o);
    StepIsOwn(s, o, oracle);
    StepIsAuditStep(s, o, oracle);
    AuditStepKeeps(s, Step(s, o, oracle), o);
  }

  lemma StartedOpAudited(s: State, ev: Event)
    requires OpsOk(s) && AuditOk(s) && Enabled(s, ev) && SerialStart(s, ev)
    requires (ev.StartCreate? || ev.StartExecute? || ev.StartDestroy?) && ev.id !in s.gapped
    ensures var s' := Next(s, ev); TrailOk(s'.ops[ev.op].local, LogOf(s', ev.id) + Owed(s'.ops[ev.op].pc))
  {
    assert LogOf(s, ev.id) + [] == LogOf(s, ev.id);
  }

  lemma StartKeepsAuditOp(s: State, ev: Event, p: nat)
    requires OpsOk(s) && AuditOk(s) && Enabled(s, ev) && SerialStart(s, ev)
    requires ev.StartCreate? || ev.StartExecute? || ev.StartDestroy?
    requires p in Next(s, ev).ops && Next(s, ev).ops[p].id !in s.gapped
    ensures var s' := Next(s, ev); TrailOk(s'.ops[p].local, LogOf(s', s'.ops[p].id) + Owed(s'.ops[p].pc))
  {
    var s' := Next(s, ev);
    if p == ev.op {
      StartedOpAudited(s, ev);
    } else {
      assert OpOk(s, p) && s'.ops[p] == s.ops[p] && LogOf(s', s.ops[p].id) == LogOf(s, s.ops[p].id);
    }
  }

  lemma StartKeepsAuditRow(s: State, ev: Event, e: string)
    requires OpsOk(s) && AuditOk(s) && Enabled(s, ev) && (ev.StartCreate? || ev.StartExecute? || ev.StartDestroy?)
    requires e in Next(s, ev).rows && e !in s.gapped && forall p :: p in Next(s, ev).ops ==> Next(s, ev).ops[p].id != e
    ensures TrailOk(Next(s, ev).rows[e], LogOf(Next(s, ev), e))
  {
    var s' := Next(s, ev);
    assert s'.ops == s.ops[ev.op := s'.ops[ev.op]];
    assert e != ev.id by { assert s'.ops[ev.op].id == ev.id; }
    forall p | p in s.ops ensures s.ops[p].id != e { assert s'.ops[p] == s.ops[p]; }
  }

  lemma StartKeepsAudit(s: State, ev: Event)
    requires OpsOk(s) && AuditOk(s) && Enabled(s, ev) && SerialStart(s, ev)
    requires ev.StartCreate? || ev.StartExecute? || ev.StartDestroy?
    ensures AuditOk(Next(s, ev))
  {
    var s' := Next(s, ev);
    forall p | p in s'.ops && s'.ops[p].id !in s'.gapped
      ensures TrailOk(s'.ops[p].local, LogOf(s', s'.ops[p].id) + Owed(s'.ops[p].pc))
    {
      StartKeepsAuditOp(s, ev, p);
    }
    forall e | e in s'.rows && e !in s'.gapped && (forall p :: p in s'.ops ==> s'.ops[p].id != e)
      ensures TrailOk(s'.rows[e], LogOf(s', e))
    {
      StartKeepsAuditRow(s, ev, e);
    }
  }

  lemma CrashKeepsAudit(s: State)
    requires OpsOk(s) && AuditOk(s)
    ensures AuditOk(Next(s, Crash))
  {
    var s' := Next(s, Crash);
    forall e | e in s'.rows && e !in s'.gapped ensures TrailOk(s'.rows[e], LogOf(s', e)) {
      if o :| o in s.ops && s.ops[o].id == e {
        assert OpOk(s, o);
        assert e !in AwaitingAudit(s);
        assert Owed(s.ops[o].pc) == [] && LogOf(s, e) + [] == LogOf(s, e);
      }
    }
  }

  // --- Everything together --------------------------------------------------------------------------------------

  ghost predicate Inv(s: State) {
    OpsOk(s) && ContainersOk(s) && AuditOk(s)
  }

  lemma NextKeepsInv(s: State, ev: Event)
    requires Inv(s) && Enabled(s, ev) && SerialStart(s, ev)
    ensures Inv(Next(s, ev))
  {
    NextKeepsOps(s, ev);
    match ev
    case OpStep(o, oracle) =>
      StepKeepsContainers(s, o, oracle);
      StepKeepsAudit(s, o, oracle);
    case Crash =>
      RestKeepsContainers(s, ev);
      CrashKeepsAudit(s);
    case Startup =>
      RestKeepsContainers(s, ev);
      StartupKeepsAudit(s, ev);
    case StartupInterrupted(_) =>
      RestKeepsContainers(s, ev);
      StartupKeepsAudit(s, ev);
    case _ =>
      StartKeepsContainers(s, ev);
      StartKeepsAudit(s, ev);
  }

  lemma StartupKeepsAudit(s: State, ev: Event)
    requires AuditOk(s) && Enabled(s, ev) && (ev.Startup? || ev.StartupInterrupted?)
    ensures AuditOk(Next(s, ev))
  {
    var s' := Next(s, ev);
    forall e | e in s'.rows && e !in s'.gapped ensures TrailOk(s'.rows[e], LogOf(s', e)) {
      assert LogOf(s', e) == LogOf(s, e);
    }
  }

  lemma NextRowsGrow(s: State, ev: Event)
    requires OpsOk(s) && Enabled(s, ev)
    ensures s.rows.Keys <= Next(s, ev).rows.Keys
  {
    match ev
    case OpStep(o, oracle) =>
      assert OpOk(s, o);
      StepIsOwn(s, o, oracle);
    case _ =>
  }

  lemma SerialPrefix(s: State, events: seq<Event>, n: nat)
    requires Serial(s, events) && n <= |events|
    ensures Serial(s, events[..n])
    ensures n < |events| ==> SerialStart(Run(s, events[..n]), events[n])
  {
    forall i | 0 <= i < n ensures SerialStart(Run(s, events[..n][..i]), events[..n][i]) {
      assert events[..n][..i] == events[..i];
    }
  }

  /** Every serial run, of whatever size, keeps the invariant; rows never disappear. */
  lemma {:induction false} RunKeepsInv(s: State, events: seq<Event>)
    requires Inv(s) && Serial(s, events)
    ensures Inv(Run(s, events)) && s.rows.Keys <= Run(s, events).rows.Keys
  {
    if events != [] {
      var last := |events| - 1;
      SerialPrefix(s, events, last);
      RunKeepsInv(s, events[..last]);
      var before := Run(s, events[..last]);
      if Enabled(before, events[last]) {
        NextKeepsInv(before, events[last]);
        NextRowsGrow(before, events[last]);
      }
    }
  }

  lemma {:induction false} RunKeepsOps(s: State, events: seq<Event>)
    requires OpsOk(s) && Serial(s, events)
    ensures OpsOk(Run(s, events))
  {
    if events != [] {
      var last := |events| - 1;
      SerialPrefix(s, events, last);
      RunKeepsOps(s, events[..last]);
      if Enabled(Run(s, events[..last]), events[last]) { NextKeepsOps(Run(s, events[..last]), events[last]); }
    }
  }

  lemma RunRowsGrow(s: State, events: seq<Event>)
    requires OpsOk(s) && Serial(s, events) && events != []
    ensures |Run(s, events[..|events| - 1]).rows| <= |Run(s, events).rows|
  {
    var last := |events| - 1;
    SerialPrefix(s, events, last);
    RunKeepsOps(s, events[..last]);
    var before := Run(s, events[..last]);
    if Enabled(before, events[last]) {
      NextRowsGrow(before, events[last]);
      SubsetCount(before.rows.Keys, Run(s, events).rows.Keys);
    }
  }
}
