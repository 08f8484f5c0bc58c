/** The limit on RUNNING jobs: it holds as long as no semaphore is dropped too early, and exactly then. */
module JobDiscards {
  import opened Common
  import opened Options
  import opened Jobs
  import opened Semaphores
  import opened JobProtocol
  import opened JobInvariant
  import opened JobTheorems
  import opened JobSweep

  /** No task of the experiment works under a semaphore, and none that waits for one can still get it: those left in line
      have all been asked to stop. */
  ghost predicate Spent(s: State, experimentId: string) {
    forall id :: id in s.tasks && id in s.jobs && s.jobs[id].experimentId == experimentId ==> !StillRuns(s.tasks[id])
  }

  /** Semaphores are dropped only when spent. */
  ghost predicate SafeDiscards(s: State, events: seq<Event>) {
    forall i :: 0 <= i < |events| && events[i].Discard? ==> Spent(Run(s, events[..i]), events[i].experimentId)
  }

  // --- Safe discards keep the bound -----------------------------------------------------------------------------

  /** Every task that still runs does so under the semaphore the registry hands out now. */
  ghost predicate OnCurrent(s: State) {
    forall id :: id in s.tasks && id in s.jobs && StillRuns(s.tasks[id]) ==> UsesCurrent(s, id)
  }

  ghost predicate UsesCurrent(s: State, id: string)
    requires id in s.tasks && id in s.jobs && StillRuns(s.tasks[id])
  {
    s.jobs[id].experimentId in s.current && s.current[s.jobs[id].experimentId] == s.tasks[id].pc.sem
  }

  lemma StepOfKeepsCurrent(s: State, s': State, id: string)
    requires OnCurrent(s) && id in s.jobs && id in s.tasks && StepOf(s, s', id)
    ensures OnCurrent(s')
  {
    forall j | j in s'.tasks && j in s'.jobs && StillRuns(s'.tasks[j]) ensures UsesCurrent(s', j) {
      if j == id {
        if StillRuns(s.tasks[id]) { assert UsesCurrent(s, id); }
      } else {
        assert UsesCurrent(s, j);
      }
    }
  }

  lemma AskedKeepCurrent(s: State, s': State, ids: set<string>)
    requires OnCurrent(s) && AskedToStop(s, s', ids)
    ensures OnCurrent(s')
  {
    forall id | id in s'.tasks && id in s'.jobs && StillRuns(s'.tasks[id]) ensures UsesCurrent(s', id) {
      assert UsesCurrent(s, id);
    }
  }

  lemma OtherKeepsCurrent(s: State, s': State, ev: Event)
    requires OnCurrent(s) && Effect(s, s', ev) && (ev.SubmitBegin? || ev.SubmitEnd? || ev.Discard? || ev.Restart?)
    requires ev.Discard? ==> Spent(s, ev.experimentId)
    ensures OnCurrent(s')
  {
    forall id | id in s'.tasks && id in s'.jobs && StillRuns(s'.tasks[id]) ensures UsesCurrent(s', id) {
      assert UsesCurrent(s, id);
    }
  }

  lemma NextKeepsCurrent(s: State, ev: Event)
    requires Inv(s) && OnCurrent(s) && Enabled(s, ev)
    requires ev.Discard? ==> Spent(s, ev.experimentId)
    ensures OnCurrent(Next(s, ev))
  {
    EffectOf(s, ev);
    EffectKeepsCurrent(s, Next(s, ev), ev);
  }

  lemma EffectKeepsCurrent(s: State, s': State, ev: Event)
    requires OnCurrent(s) && Effect(s, s', ev) && (ev.Discard? ==> Spent(s, ev.experimentId))
    ensures OnCurrent(s')
  {
    match ev
    case TaskStep(id, _) => StepOfKeepsCurrent(s, s', id);
    case Cancel(id, _) => if s' != s { AskedKeepCurrent(s, s', {id}); }
    case Sweep(_, order) => AskedKeepCurrent(s, s', Elements(order));
    case _ => OtherKeepsCurrent(s, s', ev);
  }

  lemma {:induction false} RunKeepsCurrent(s: State, events: seq<Event>)
    requires Inv(s) && OnCurrent(s) && SafeDiscards(s, events)
    ensures OnCurrent(Run(s, events))
  {
    if events != [] {
      var last := |events| - 1;
      assert forall i :: 0 <= i < last ==> events[..last][..i] == events[..i];
      RunKeepsCurrent(s, events[..last]);
      RunKeepsInv(s, events[..last]);
      var before := Run(s, events[..last]);
      if Enabled(before, events[last]) { NextKeepsCurrent(before, events[last]); }
    }
  }

  lemma RunningIsBounded(s: State, experimentId: string)
    requires Inv(s) && OnCurrent(s)
    ensures |RunningOf(s, experimentId)| <= s.limit
  {
    forall id | id in RunningOf(s, experimentId)
      ensures experimentId in s.current && id in RunningUnder(s, s.current[experimentId])
    {
      assert JobOk(s, id);
      assert UsesCurrent(s, id);
    }
    if RunningOf(s, experimentId) != {} {
      var id :| id in RunningOf(s, experimentId);
      var k := s.current[experimentId];
      PermitsAddUp(s, k);
      SubsetCount(RunningOf(s, experimentId), RunningUnder(s, k));
    }
  }

  lemma SafeRunIsBounded(s: State, events: seq<Event>, experimentId: string)
    requires Inv(s) && OnCurrent(s) && SafeDiscards(s, events)
    ensures |RunningOf(Run(s, events), experimentId)| <= s.limit
  {
    RunKeepsInv(s, events);
    RunKeepsLimit(s, events);
    RunKeepsCurrent(s, events);
    RunningIsBounded(Run(s, events), experimentId);
  }

  /** If semaphores are dropped only when spent, at most `limit` jobs of an experiment are ever RUNNING. */
  lemma AtMostLimitRunning(limit: nat, events: seq<Event>, experimentId: string)
    requires SafeDiscards(Init(limit), events)
    ensures |RunningOf(Run(Init(limit), events), experimentId)| <= limit
  {
    InvInit(limit);
    SafeRunIsBounded(Init(limit), events, experimentId);
  }

  // --- Discards that end sweeps ---------------------------------------------------------------------------------

  /** The j-th event drops the semaphore at the end of the sweep that was the i-th: the swept tasks have ended, and no submit
      for the experiment returned in between. */
  ghost predicate EndsSweepOf(start: State, events: seq<Event>, i: nat, j: nat)
    requires i < j < |events| && events[j].Discard?
  {
    && events[i].Sweep? && events[i].experimentId == events[j].experimentId
    && Enabled(Run(start, events[..i]), events[i])
    && NoSubmit(Run(start, events[..i + 1]), events[i + 1..j], events[j].experimentId)
    && forall id :: id in events[i].order && id in Run(start, events[..j]).tasks ==> Run(start, events[..j]).tasks[id].pc.Done?
  }

  ghost predicate EndSweeps(start: State, events: seq<Event>) {
    forall j :: 0 <= j < |events| && events[j].Discard? ==> exists i :: 0 <= i < j && EndsSweepOf(start, events, i, j)
  }

  lemma SweepEndIsSpent(limit: nat, events: seq<Event>, i: nat, j: nat)
    requires i < j < |events| && events[j].Discard? && EndsSweepOf(Init(limit), events, i, j)
    ensures Spent(Run(Init(limit), events[..j]), events[j].experimentId)
  {
    var start := Init(limit);
    var s, between := Run(start, events[..i]), events[i + 1..j];
    InvInit(limit);
    RunKeepsInv(start, events[..i]);
    assert events[..i + 1] == events[..i] + [events[i]];
    RunOne(start, events[..i], events[i]);
    assert events[..j] == events[..i + 1] + between;
    RunAppend(start, events[..i + 1], between);
    DiscardAfterSweepIsQuiet(s, events[j].experimentId, events[i].order, between);
  }

  /** So with cancel_experiment_jobs as the only one to drop semaphores, and no submit returning during a sweep of its
      experiment, at most `limit` jobs of an experiment are ever RUNNING. */
  lemma SweepsKeepBound(limit: nat, events: seq<Event>, experimentId: string)
    requires EndSweeps(Init(limit), events)
    ensures |RunningOf(Run(Init(limit), events), experimentId)| <= limit
  {
    forall j | 0 <= j < |events| && events[j].Discard? ensures Spent(Run(Init(limit), events[..j]), events[j].experimentId) {
      var i :| 0 <= i < j && EndsSweepOf(Init(limit), events, i, j);
      SweepEndIsSpent(limit, events, i, j);
    }
    AtMostLimitRunning(limit, events, experimentId);
  }

  // --- Any other discard breaks it ------------------------------------------------------------------------------

  ghost predicate NoDiscard(events: seq<Event>) {
    forall i :: 0 <= i < |events| ==> !events[i].Discard?
  }

  /** The events lead from s to s' and drop no semaphore. */
  ghost predicate Reaches(s: State, events: seq<Event>, s': State) {
    NoDiscard(events) && Run(s, events) == s'
  }

  lemma ReachesHere(s: State)
    ensures Reaches(s, [], s)
  {
  }

  lemma ReachesNext(s: State, ev: Event, s': State)
    requires Enabled(s, ev) && !ev.Discard? && s' == Next(s, ev)
    ensures Reaches(s, [ev], s')
  {
    RunOnly(s, ev);
  }

  lemma Chain(s: State, first: seq<Event>, s1: State, second: seq<Event>, s2: State)
    requires Reaches(s, first, s1) && Reaches(s1, second, s2)
    ensures Reaches(s, first + second, s2)
  {
    RunAppend(s, first, second);
  }

  lemma {:induction false} LongerThanAll(used: set<string>) returns (n: nat)
    ensures forall x :: x in used ==> |x| < n
    decreases used
  {
    n := 0;
    if used != {} {
      var x :| x in used;
      var rest := LongerThanAll(used - {x});
      n := if |x| < rest then rest else |x| + 1;
      assert forall y :: y in used ==> y == x || y in used - {x};
    }
  }

  lemma FreshId(used: set<string>) returns (id: string)
    ensures id !in used
  {
    var n := LongerThanAll(used);
    id := seq(n, _ => 'j');
  }

  const ANSWER := Oracle(RaisedCancelled, true, 0)

  /** A waiting task that was not asked to stop gets to run, unless another one of its experiment does first. */
  lemma ResumeEffect(s: State, g: string, k: nat)
    requires WellFormed(s) && Runnable(s, g) && s.tasks[g].pc == WaitingPermit(k)
    ensures var s' := Step(s, g, ANSWER);
            && s'.current == s.current && s'.limit == s.limit && |s'.instances| == |s.instances|
            && |s'.instances[k].sem.waiters| < |s.instances[k].sem.waiters|
            && g in s'.jobs && s'.jobs == s.jobs[g := s'.jobs[g]] && s'.jobs[g].experimentId == s.jobs[g].experimentId
            && g in s'.tasks && s'.tasks == s.tasks[g := s'.tasks[g]]
            && (!s.tasks[g].mustCancel ==> s'.jobs[g].status == RUNNING)
  {
  }

  /** Somebody in line holds a permit that nobody has picked up. */
  lemma SomeoneGranted(s: State, id: string, k: nat) returns (g: string)
    requires Inv(s) && s.limit > 0 && id in s.tasks && s.tasks[id].pc == WaitingPermit(k) && !s.tasks[id].mustCancel
    requires k < |s.instances| && RunningUnder(s, k) == {}
    ensures g in s.tasks && s.tasks[g].pc == WaitingPermit(k) && Runnable(s, g) && (s.tasks[g].mustCancel ==> g != id)
  {
    var sem := s.instances[k].sem;
    PermitsAddUp(s, k);
    assert SemOk(sem, s.tasks, k, s.limit);
    var p := Position(sem.waiters, id);
    assert WaiterOk(sem.waiters[p], s.tasks, k);
    GrantCountPositive(sem.waiters);
    if sem.waiters[p].fut.Granted? {
      g := id;
    } else {
      assert sem.waiters[p].fut.Pending?;
      var i :| 0 <= i < |sem.waiters| && sem.waiters[i].fut.Granted?;
      g := sem.waiters[i].owner;
      assert WaiterOk(sem.waiters[i], s.tasks, k);
      PositionFound(sem.waiters, i);
    }
    assert JobOk(s, g);
  }

  lemma WaiterKeepsWaiting(s: State, id: string, k: nat, e: string)
    requires Inv(s) && id in s.tasks && s.tasks[id].pc == WaitingPermit(k) && s.jobs[id].experimentId == e
    ensures k < |s.instances| && (forall j :: j in RunningUnder(s, k) ==> j in RunningOf(s, e))
    ensures forall j :: j in s.tasks && s.tasks[j].pc == WaitingPermit(k) ==> s.jobs[j].experimentId == e
  {
    assert JobOk(s, id);
    forall j | j in RunningUnder(s, k) ensures j in RunningOf(s, e) { assert JobOk(s, j); }
    forall j | j in s.tasks && s.tasks[j].pc == WaitingPermit(k) ensures s.jobs[j].experimentId == e { assert JobOk(s, j); }
  }

  ghost predicate SomeoneRuns(s: State, e: string) {
    Inv(s) && e !in s.current && RunningOf(s, e) != {}
  }

  /** The task waits under semaphore k, which the registry no longer hands out. */
  ghost predicate Waits(s: State, id: string, k: nat, e: string) {
    && Inv(s) && s.limit > 0 && e !in s.current && k < |s.instances|
    && id in s.tasks && s.tasks[id] == Task(WaitingPermit(k), false) && id in s.jobs && s.jobs[id].experimentId == e
  }

  lemma WaiterStep(s: State, id: string, k: nat, e: string) returns (g: string, s': State)
    requires Waits(s, id, k, e) && RunningOf(s, e) == {}
    ensures Reaches(s, [TaskStep(g, ANSWER)], s')
    ensures SomeoneRuns(s', e) || (Waits(s', id, k, e) && |s'.instances[k].sem.waiters| < |s.instances[k].sem.waiters|)
  {
    WaiterKeepsWaiting(s, id, k, e);
    g := SomeoneGranted(s, id, k);
    s' := Step(s, g, ANSWER);
    StepKeepsInv(s, g, ANSWER);
    ReachesNext(s, TaskStep(g, ANSWER), s');
    WaiterStepEffect(s, s', g, id, k, e);
  }

  lemma WaiterStepEffect(s: State, s': State, g: string, id: string, k: nat, e: string)
    requires Waits(s, id, k, e) && g in s.tasks && g in s.jobs && s.tasks[g].pc == WaitingPermit(k) && s.jobs[g].experimentId == e
    requires Runnable(s, g) && (s.tasks[g].mustCancel ==> g != id) && s' == Step(s, g, ANSWER) && Inv(s')
    ensures SomeoneRuns(s', e) || (Waits(s', id, k, e) && |s'.instances[k].sem.waiters| < |s.instances[k].sem.waiters|)
  {
    ResumeEffect(s, g, k);
    if !s.tasks[g].mustCancel { assert g in RunningOf(s', e); }
  }

  lemma {:induction false} WaiterRuns(s: State, id: string, k: nat, e: string) returns (events: seq<Event>, s': State)
    requires Waits(s, id, k, e)
    ensures Reaches(s, events, s') && SomeoneRuns(s', e)
    decreases |s.instances[k].sem.waiters|
  {
    events, s' := [], s;
    if RunningOf(s, e) == {} {
      var g, s1 := WaiterStep(s, id, k, e);
      if SomeoneRuns(s1, e) { return [TaskStep(g, ANSWER)], s1; }
      var rest;
      rest, s' := WaiterRuns(s1, id, k, e);
      Chain(s, [TaskStep(g, ANSWER)], s1, rest, s');
      events := [TaskStep(g, ANSWER)] + rest;
    }
  }

  /** A job beside the `taken` ones that fill the new semaphore. */
  ghost predicate Filling(s: State, e: string, taken: nat) {
    && Inv(s) && taken <= s.limit && |RunningOf(s, e)| > taken
    && if taken == 0 then e !in s.current
       else e in s.current && s.current[e] < |s.instances| && s.instances[s.current[e]].sem == Semaphore(s.limit - taken, [])
  }

  /** A fresh job, submitted and not yet started. */
  ghost predicate Submitted(s: State, s': State, id: string, e: string) {
    && Inv(s') && id !in s.jobs && id in s'.tasks && s'.tasks[id] == Task(NotStarted, false)
    && s'.limit == s.limit && s'.jobs == s.jobs[id := NewJob(e, "sleep", None, "command", 1)]
    && s'.current == s.current && s'.instances == s.instances
  }

  lemma BeginFresh(s: State, e: string) returns (id: string, begin: Event, s1: State)
    requires Inv(s)
    ensures Reaches(s, [begin], s1) && Inv(s1) && Enabled(s1, SubmitEnd(id)) && id !in s.jobs
    ensures s1.limit == s.limit && s1.jobs == s.jobs[id := NewJob(e, "sleep", None, "command", 1)]
    ensures s1.current == s.current && s1.instances == s.instances
  {
    id := FreshId(s.tasks.Keys + s.jobs.Keys + s.rows.Keys + s.registry.Keys);
    begin := SubmitBegin(id, NewJob(e, "sleep", None, "command", 1));
    s1 := Next(s, begin);
    NextKeepsInv(s, begin);
    ReachesNext(s, begin, s1);
  }

  lemma EndFresh(s1: State, id: string) returns (s2: State)
    requires Inv(s1) && Enabled(s1, SubmitEnd(id))
    ensures Reaches(s1, [SubmitEnd(id)], s2) && Inv(s2)
    ensures id in s2.tasks && s2.tasks[id] == Task(NotStarted, false) && s2.limit == s1.limit && s2.jobs == s1.jobs
    ensures s2.current == s1.current && s2.instances == s1.instances
  {
    s2 := Next(s1, SubmitEnd(id));
    NextKeepsInv(s1, SubmitEnd(id));
    ReachesNext(s1, SubmitEnd(id), s2);
  }

  lemma SubmitFresh(s: State, e: string) returns (id: string, events: seq<Event>, s': State)
    requires Inv(s)
    ensures Reaches(s, events, s') && Submitted(s, s', id, e)
  {
    var begin, s1;
    id, begin, s1 := BeginFresh(s, e);
    s' := EndFresh(s1, id);
    Chain(s, [begin], s1, [SubmitEnd(id)], s');
    events := [begin] + [SubmitEnd(id)];
  }

  lemma EnterFree(s: State, id: string, e: string, taken: nat)
    requires Inv(s) && id in s.tasks && id in s.jobs && s.tasks[id] == Task(NotStarted, false)
    requires s.jobs[id].experimentId == e && taken < s.limit
    requires if taken == 0 then e !in s.current
             else e in s.current && s.current[e] < |s.instances| && s.instances[s.current[e]].sem == Semaphore(s.limit - taken, [])
    ensures var s' := Step(s, id, ANSWER);
            && s'.limit == s.limit && id in s'.jobs && s'.jobs == s.jobs[id := Started(s.jobs[id], 0)]
            && e in s'.current && s'.current[e] < |s'.instances|
            && s'.instances[s'.current[e]].sem == Semaphore(s.limit - taken - 1, [])
  {
  }

  lemma OneMoreRuns(s: State, s1: State, s2: State, id: string, e: string)
    requires id !in s.jobs && s1.jobs == s.jobs[id := NewJob(e, "sleep", None, "command", 1)]
    requires s2.jobs == s1.jobs[id := Started(s1.jobs[id], 0)]
    ensures |RunningOf(s2, e)| == |RunningOf(s, e)| + 1
  {
    assert RunningOf(s2, e) == RunningOf(s, e) + {id};
  }

  lemma FillOne(s: State, e: string, taken: nat) returns (events: seq<Event>, s': State)
    requires Filling(s, e, taken) && taken < s.limit
    ensures Reaches(s, events, s') && Filling(s', e, taken + 1) && s'.limit == s.limit
  {
    var id, submits, s1 := SubmitFresh(s, e);
    s' := FillWith(s, s1, id, e, taken);
    ReachesNext(s1, TaskStep(id, ANSWER), s');
    Chain(s, submits, s1, [TaskStep(id, ANSWER)], s');
    events := submits + [TaskStep(id, ANSWER)];
  }

  lemma FillWith(s: State, s1: State, id: string, e: string, taken: nat) returns (s2: State)
    requires Filling(s, e, taken) && taken < s.limit && Submitted(s, s1, id, e)
    ensures Enabled(s1, TaskStep(id, ANSWER)) && s2 == Next(s1, TaskStep(id, ANSWER))
    ensures Filling(s2, e, taken + 1) && s2.limit == s.limit
  {
    s2 := Step(s1, id, ANSWER);
    StepKeepsInv(s1, id, ANSWER);
    FillEffect(s, s1, s2, id, e, taken);
  }

  lemma FillEffect(s: State, s1: State, s2: State, id: string, e: string, taken: nat)
    requires Filling(s, e, taken) && taken < s.limit && Submitted(s, s1, id, e)
    requires Runnable(s1, id) && s2 == Step(s1, id, ANSWER) && Inv(s2)
    ensures Filling(s2, e, taken + 1) && s2.limit == s.limit
  {
    EnterFree(s1, id, e, taken);
    OneMoreRuns(s, s1, s2, id, e);
  }

  lemma {:induction false} FillAll(s: State, e: string, taken: nat) returns (events: seq<Event>, s': State)
    requires Filling(s, e, taken)
    ensures Reaches(s, events, s') && |RunningOf(s', e)| > s.limit
    decreases s.limit - taken
  {
    if taken == s.limit {
      ReachesHere(s);
      return [], s;
    }
    var first, s1 := FillOne(s, e, taken);
    var rest;
    rest, s' := FillAll(s1, e, taken + 1);
    Chain(s, first, s1, rest, s');
    events := first + rest;
  }

  /** Once the semaphore is dropped while a task of its experiment can still run under it, the limit can be broken. */
  lemma UnspentOverruns(s: State, id: string, e: string) returns (events: seq<Event>)
    requires Inv(s) && s.limit > 0 && e !in s.current
    requires id in s.tasks && s.jobs[id].experimentId == e && StillRuns(s.tasks[id])
    ensures NoDiscard(events) && |RunningOf(Run(s, events), e)| > s.limit
  {
    var first, s1 := SomeoneGetsToRun(s, id, e);
    RunKeepsLimit(s, first);
    var rest, s2 := FillAll(s1, e, 0);
    Chain(s, first, s1, rest, s2);
    events := first + rest;
  }

  lemma SomeoneGetsToRun(s: State, id: string, e: string) returns (events: seq<Event>, s': State)
    requires Inv(s) && s.limit > 0 && e !in s.current
    requires id in s.tasks && s.jobs[id].experimentId == e && StillRuns(s.tasks[id])
    ensures Reaches(s, events, s') && Filling(s', e, 0)
  {
    assert JobOk(s, id);
    if s.tasks[id].pc.WaitingPermit? {
      events, s' := WaiterRuns(s, id, s.tasks[id].pc.sem, e);
    } else {
      events, s' := [], s;
      assert id in RunningOf(s, e);
    }
  }

  /** However things go on without a further premature discard, the limit holds. */
  ghost predicate AlwaysBounded(s: State, experimentId: string) {
    forall more :: SafeDiscards(s, more) ==> |RunningOf(Run(s, more), experimentId)| <= s.limit
  }

  /** Dropping an experiment's semaphore keeps the limit, whatever follows, exactly if the experiment is spent: no task of it
      is RUNNING, and none in line can still get a permit. */
  lemma DiscardKeepsBoundExactly(limit: nat, events: seq<Event>, e: string)
    requires limit > 0 && SafeDiscards(Init(limit), events)
    ensures var s := Run(Init(limit), events); AlwaysBounded(Run(s, [Discard(e)]), e) <==> Spent(s, e)
  {
    var s := Run(Init(limit), events);
    InvInit(limit);
    RunKeepsInv(Init(limit), events);
    RunKeepsLimit(Init(limit), events);
    RunKeepsCurrent(Init(limit), events);
    var s1 := Next(s, Discard(e));
    RunOnly(s, Discard(e));
    NextKeepsInv(s, Discard(e));
    if Spent(s, e) {
      NextKeepsCurrent(s, Discard(e));
      forall more | SafeDiscards(s1, more) ensures |RunningOf(Run(s1, more), e)| <= s1.limit {
        SafeRunIsBounded(s1, more, e);
      }
    } else {
      var id :| id in s.tasks && id in s.jobs && s.jobs[id].experimentId == e && StillRuns(s.tasks[id]);
      var more := UnspentOverruns(s1, id, e);
      assert SafeDiscards(s1, more);
    }
  }
}
