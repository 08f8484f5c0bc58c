/** Sweeping an experiment's jobs, and what becomes of the rest. */
module JobSweep {
  import opened Options
  import opened Jobs
  import opened Semaphores
  import opened JobProtocol
  import opened JobInvariant
  import opened JobTheorems

  /** A sweep by itself leaves every record and row alone, and does not touch the tasks of other experiments. */
  lemma SweepTouchesOwnTasksOnly(s: State, experimentId: string, order: seq<string>, id: string)
    requires Inv(s) && Enabled(s, Sweep(experimentId, order))
    requires id in s.tasks && s.jobs[id].experimentId != experimentId
    ensures var s' := Next(s, Sweep(experimentId, order));
            && s'.jobs == s.jobs && s'.rows == s.rows
            && id in s'.tasks && s'.tasks[id] == s.tasks[id]
            && (id in s'.registry <==> id in s.registry)
  {
    SweepAsks(s, order);
    assert id !in RegisteredFor(s, experimentId);
    assert (id in SweepSteps(s, order).registry.Keys) == (id in s.registry.Keys);
  }

  /** After a sweep whose awaited tasks have all ended, get_job reports a swept job terminal if and only if its task
      had started when the sweep asked it to stop. */
  lemma SweptJobsAreTerminal(s: State, experimentId: string, order: seq<string>, events: seq<Event>, id: string)
    requires Inv(s) && Enabled(s, Sweep(experimentId, order)) && NoRestart(events) && id in order
    requires var s2 := Run(Next(s, Sweep(experimentId, order)), events); id in s2.tasks && s2.tasks[id].pc.Done?
    ensures id in s.tasks
    ensures var s2 := Run(Next(s, Sweep(experimentId, order)), events);
            GetJob(s2, id).Some? && (GetJob(s2, id).value.status.Terminal() <==> Begun(s.tasks[id]))
  {
    assert id in RegisteredFor(s, experimentId) by { assert id in Elements(order); }
    assert JobOk(s, id);
    var s1 := Next(s, Sweep(experimentId, order));
    NextKeepsInv(s, Sweep(experimentId, order));
    SweepAsks(s, order);
    assert Begun(s.tasks[id]) ==> Begun(s1.tasks[id]);
    assert !Begun(s.tasks[id]) ==> Doomed(s1.tasks[id]);
    FateForever(s1, events, id);
    RunKeepsInv(s1, events);
    OverMeansTerminal(Run(s1, events), id);
  }

  /** A job of the experiment that the sweep did not list, its submit having returned before, is terminal already. */
  lemma UnlistedJobsAreTerminal(s: State, experimentId: string, order: seq<string>, id: string)
    requires Inv(s) && Enabled(s, Sweep(experimentId, order))
    requires id in s.tasks && s.jobs[id].experimentId == experimentId && id !in order && !s.tasks[id].pc.Submitting?
    ensures GetJob(s, id).Some? && GetJob(s, id).value.status.Terminal() && s.tasks[id].pc == Done(true)
  {
    assert JobOk(s, id);
    assert id !in RegisteredFor(s, experimentId) by { assert id !in Elements(order); }
  }

  // --- Dropping the semaphore after the sweep -------------------------------------------------------------------

  /** No submit for the experiment completes during the run. */
  ghost predicate NoSubmit(s: State, events: seq<Event>, experimentId: string) {
    forall i :: 0 <= i < |events| && events[i].SubmitEnd? ==>
      var before := Run(s, events[..i]);
      events[i].id in before.jobs ==> before.jobs[events[i].id].experimentId != experimentId
  }

  /** The experiment's tasks that could still use a semaphore are all among the given ones. */
  ghost predicate OnlyThese(s: State, experimentId: string, ids: set<string>) {
    forall id :: id in s.tasks && id in s.jobs && s.jobs[id].experimentId == experimentId && id !in ids ==>
      s.tasks[id].pc.Submitting? || s.tasks[id].pc == Done(true)
  }

  /** A task that is over or not submitted yet cannot step, so only a submit adds to those that may use a semaphore. */
  lemma OnlyTheseKept(s: State, s': State, ev: Event, experimentId: string, ids: set<string>)
    requires Effect(s, s', ev) && OnlyThese(s, experimentId, ids)
    requires ev.SubmitEnd? ==> s.jobs[ev.id].experimentId != experimentId
    requires ev.TaskStep? ==> !s.tasks[ev.id].pc.Submitting? && !s.tasks[ev.id].pc.Done?
    ensures OnlyThese(s', experimentId, ids)
  {
  }

  lemma {:induction false} OnlyTheseForever(s: State, events: seq<Event>, experimentId: string, ids: set<string>)
    requires Inv(s) && OnlyThese(s, experimentId, ids) && NoSubmit(s, events, experimentId)
    ensures OnlyThese(Run(s, events), experimentId, ids)
  {
    if events != [] {
      var last := |events| - 1;
      assert forall i :: 0 <= i < last ==> events[..last][..i] == events[..i];
      OnlyTheseForever(s, events[..last], experimentId, ids);
      RunKeepsInv(s, events[..last]);
      var before := Run(s, events[..last]);
      if Enabled(before, events[last]) {
        EffectOf(before, events[last]);
        OnlyTheseKept(before, Next(before, events[last]), events[last], experimentId, ids);
      }
    }
  }

  lemma SweepLeavesOnlyListed(s: State, experimentId: string, order: seq<string>)
    requires Inv(s) && Enabled(s, Sweep(experimentId, order))
    ensures OnlyThese(Next(s, Sweep(experimentId, order)), experimentId, Elements(order))
  {
    SweepAsks(s, order);
    forall id | id in s.tasks && s.jobs[id].experimentId == experimentId && id !in Elements(order)
      ensures s.tasks[id].pc.Submitting? || s.tasks[id].pc == Done(true)
    {
      if !s.tasks[id].pc.Submitting? { UnlistedJobsAreTerminal(s, experimentId, order, id); }
    }
  }

  /** Every task of the experiment is over, or its submit has not returned. */
  ghost predicate Idle(s: State, experimentId: string) {
    forall id :: id in s.tasks && id in s.jobs && s.jobs[id].experimentId == experimentId ==>
      s.tasks[id].pc.Submitting? || s.tasks[id].pc.Done?
  }

  /** With no submit for the experiment between a sweep and its end, the semaphore is dropped while nobody uses it. */
  lemma DiscardAfterSweepIsQuiet(s: State, experimentId: string, order: seq<string>, events: seq<Event>)
    requires Inv(s) && Enabled(s, Sweep(experimentId, order))
    requires NoSubmit(Next(s, Sweep(experimentId, order)), events, experimentId)
    requires var s2 := Run(Next(s, Sweep(experimentId, order)), events);
             forall id :: id in order ==> (id in s2.tasks ==> s2.tasks[id].pc.Done?)
    ensures Idle(Run(Next(s, Sweep(experimentId, order)), events), experimentId)
  {
    var s1 := Next(s, Sweep(experimentId, order));
    NextKeepsInv(s, Sweep(experimentId, order));
    SweepLeavesOnlyListed(s, experimentId, order);
    OnlyTheseForever(s1, events, experimentId, Elements(order));
    var s2 := Run(s1, events);
    forall id | id in s2.tasks && id in s2.jobs && s2.jobs[id].experimentId == experimentId
      ensures s2.tasks[id].pc.Submitting? || s2.tasks[id].pc.Done?
    {
      if id in Elements(order) { assert id in order; }
    }
  }

  /** cancel_experiment_jobs as a whole, with no submit for the experiment meanwhile: once the awaited tasks have ended,
      get_job reports every job of the experiment terminal, except exactly those whose task had been listed before it ever
      started. */
  lemma AfterSweepJobsAreTerminal(s: State, experimentId: string, order: seq<string>, events: seq<Event>, id: string)
    requires Inv(s) && Enabled(s, Sweep(experimentId, order)) && NoRestart(events)
    requires NoSubmit(Next(s, Sweep(experimentId, order)), events, experimentId)
    requires var s2 := Run(Next(s, Sweep(experimentId, order)), events);
             && (forall j :: j in order ==> j in s2.tasks && s2.tasks[j].pc.Done?)
             && id in s2.tasks && id in s2.jobs && s2.jobs[id].experimentId == experimentId && !s2.tasks[id].pc.Submitting?
    ensures id in order ==> id in s.tasks
    ensures var s2 := Run(Next(s, Sweep(experimentId, order)), events);
            GetJob(s2, id).Some? && (GetJob(s2, id).value.status.Terminal() <==> id !in order || Begun(s.tasks[id]))
  {
    if id in order {
      SweptJobsAreTerminal(s, experimentId, order, events, id);
    } else {
      var s1 := Next(s, Sweep(experimentId, order));
      NextKeepsInv(s, Sweep(experimentId, order));
      SweepLeavesOnlyListed(s, experimentId, order);
      OnlyTheseForever(s1, events, experimentId, Elements(order));
      RunKeepsInv(s1, events);
      OverMeansTerminal(Run(s1, events), id);
    }
  }

  lemma Extend(start: State, events: seq<Event>, s: State, ev: Event, s': State)
    requires Run(start, events) == s && Enabled(s, ev) && Next(s, ev) == s'
    ensures Run(start, events + [ev]) == s'
  {
    RunOne(start, events, ev);
  }

  /** Job a is swept before its task starts. */
  lemma SweepJobA(p: Job, events: seq<Event>) returns (s: State)
    requires p == NewJob("e", "sleep", None, "command", 1)
    requires events == [SubmitBegin("a", p)] + [SubmitEnd("a")] + [Sweep("e", ["a"])]
    ensures Run(Init(1), events) == s && s.tasks == map["a" := Task(NotStarted, true)] && s.registry.Keys == {"a"}
    ensures s == State(1, map["a" := p], s.tasks, s.registry, map["a" := p], [], map[])
  {
    var s1 := Next(Init(1), SubmitBegin("a", p));
    assert [] + [SubmitBegin("a", p)] == [SubmitBegin("a", p)];
    Extend(Init(1), [], Init(1), SubmitBegin("a", p), s1);
    var s2 := Next(s1, SubmitEnd("a"));
    Extend(Init(1), [SubmitBegin("a", p)], s1, SubmitEnd("a"), s2);
    assert RegisteredFor(s2, "e") == {"a"};
    s := Next(s2, Sweep("e", ["a"]));
    assert ["a"][..0] == [] && SweepSteps(s2, []) == s2;
    assert s == CancelTask(MarkUser(s2, "a"), "a");
    Extend(Init(1), [SubmitBegin("a", p)] + [SubmitEnd("a")], s2, Sweep("e", ["a"]), s);
  }

  /** Job b is submitted while the sweep awaits job a's task; a ends, b starts, and the sweep drops the semaphore. */
  lemma SubmitJobB(events: seq<Event>, s: State, p: Job, o: Oracle) returns (s': State)
    requires Run(Init(1), events) == s && p == NewJob("e", "sleep", None, "command", 1)
    requires s.tasks == map["a" := Task(NotStarted, true)] && s.registry.Keys == {"a"}
    requires s == State(1, map["a" := p], s.tasks, s.registry, map["a" := p], [], map[])
    ensures s' == Run(Init(1), events + [SubmitBegin("b", p)] + [SubmitEnd("b")] + [TaskStep("a", o)] + [TaskStep("b", o)] + [Discard("e")])
    ensures s'.tasks.Keys == s'.jobs.Keys == s'.rows.Keys == s'.registry.Keys == {"a", "b"} && s'.current == map[] && s'.limit == 1
    ensures s'.tasks["a"].pc == Done(false) && s'.jobs["b"] == Started(p, o.now)
  {
    var ev2 := events + [SubmitBegin("b", p)] + [SubmitEnd("b")];
    var s2 := JobBIsSubmitted(events, s, p);
    var s3 := Next(s2, TaskStep("a", o));
    Extend(Init(1), ev2, s2, TaskStep("a", o), s3);
    var s4 := Next(s3, TaskStep("b", o));
    Extend(Init(1), ev2 + [TaskStep("a", o)], s3, TaskStep("b", o), s4);
    s' := Next(s4, Discard("e"));
    Extend(Init(1), ev2 + [TaskStep("a", o)] + [TaskStep("b", o)], s4, Discard("e"), s');
  }

  lemma JobBIsSubmitted(events: seq<Event>, s: State, p: Job) returns (s': State)
    requires Run(Init(1), events) == s && p == NewJob("e", "sleep", None, "command", 1)
    requires s.tasks == map["a" := Task(NotStarted, true)] && s.registry.Keys == {"a"}
    requires s == State(1, map["a" := p], s.tasks, s.registry, map["a" := p], [], map[])
    ensures s' == Run(Init(1), events + [SubmitBegin("b", p)] + [SubmitEnd("b")])
    ensures s'.tasks == s.tasks["b" := Task(NotStarted, false)] && s'.registry.Keys == {"a", "b"}
    ensures s' == State(1, map["a" := p, "b" := p], s'.tasks, s'.registry, map["a" := p, "b" := p], [], map[])
  {
    var s1 := Next(s, SubmitBegin("b", p));
    Extend(Init(1), events, s, SubmitBegin("b", p), s1);
    s' := Next(s1, SubmitEnd("b"));
    Extend(Init(1), events + [SubmitBegin("b", p)], s1, SubmitEnd("b"), s');
  }

  /** The bound does need that: with a submit during the sweep, a limit of one job lets two run at once.  Job b starts
      under the semaphore that the sweep then drops, and job c gets a fresh one. */
  lemma SubmitDuringSweepOvercommits() returns (events: seq<Event>)
    ensures {"b", "c"} <= RunningOf(Run(Init(1), events), "e")
  {
    var p := NewJob("e", "sleep", None, "command", 1);
    var o := Oracle(RaisedCancelled, true, 0);
    events := [SubmitBegin("a", p)] + [SubmitEnd("a")] + [Sweep("e", ["a"])];
    var s := SweepJobA(p, events);
    var s' := SubmitJobB(events, s, p, o);
    events := events + [SubmitBegin("b", p)] + [SubmitEnd("b")] + [TaskStep("a", o)] + [TaskStep("b", o)] + [Discard("e")];
    FreshPermit(Init(1), events, s', p, Started(p, 0), o);
    events := events + [SubmitBegin("c", p)] + [SubmitEnd("c")] + [TaskStep("c", o)];
  }

  /** Job c finds no semaphore for the experiment and gets a new one with all its permits. */
  lemma FreshPermit(start: State, events: seq<Event>, s: State, p: Job, r: Job, o: Oracle)
    requires Run(start, events) == s && WellFormed(s) && s.limit == 1
    requires p == NewJob("e", "sleep", None, "command", 1) && r == Started(p, o.now)
    requires "c" !in s.jobs && "c" !in s.tasks && "c" !in s.rows && "c" !in s.registry && "e" !in s.current
    requires "b" in s.jobs && s.jobs["b"].status == RUNNING && s.jobs["b"].experimentId == "e"
    ensures {"b", "c"} <= RunningOf(Run(start, events + [SubmitBegin("c", p)] + [SubmitEnd("c")] + [TaskStep("c", o)]), "e")
  {
    var s1 := Next(s, SubmitBegin("c", p));
    Extend(start, events, s, SubmitBegin("c", p), s1);
    var s2 := Next(s1, SubmitEnd("c"));
    Extend(start, events + [SubmitBegin("c", p)], s1, SubmitEnd("c"), s2);
    var s3 := Next(s2, TaskStep("c", o));
    Extend(start, events + [SubmitBegin("c", p)] + [SubmitEnd("c")], s2, TaskStep("c", o), s3);
    assert s3.jobs["c"] == r;
  }

  // --- No deadlock ----------------------------------------------------------------------------------------------

  /** As long as a submitted job's task is not over, some task can take a step. */
  lemma SomeTaskCanStep(s: State, id: string) returns (next: string)
    requires Inv(s) && s.limit > 0 && id in s.tasks && !s.tasks[id].pc.Submitting? && !s.tasks[id].pc.Done?
    ensures Runnable(s, next)
  {
    assert JobOk(s, id);
    next := id;
    if s.tasks[id].pc.WaitingPermit? && !Runnable(s, id) {
      var k := s.tasks[id].pc.sem;
      var sem := s.instances[k].sem;
      assert SemOk(sem, s.tasks, k, s.limit);
      assert sem.waiters[Position(sem.waiters, id)].fut.Pending?;
      GrantCountPositive(sem.waiters);
      if HasGranted(sem.waiters) {
        var i :| 0 <= i < |sem.waiters| && sem.waiters[i].fut.Granted?;
        next := sem.waiters[i].owner;
        assert WaiterOk(sem.waiters[i], s.tasks, k);
        PositionFound(sem.waiters, i);
      } else {
        assert |Holders(s.tasks, k)| == s.limit;
        assert Holders(s.tasks, k) != {};
        next :| next in Holders(s.tasks, k);
        assert JobOk(s, next);
      }
    }
  }

  ghost function TotalRank(tasks: map<string, Task>, ids: set<string>): nat
    requires ids <= tasks.Keys
  {
    if ids == {} then 0 else
      var id :| id in ids;
      Rank(tasks[id]) + TotalRank(tasks, ids - {id})
  }

  /** The choice of element inside TotalRank does not matter. */
  lemma {:induction false} TotalRankSplit(tasks: map<string, Task>, ids: set<string>, id: string)
    requires ids <= tasks.Keys && id in ids
    ensures TotalRank(tasks, ids) == Rank(tasks[id]) + TotalRank(tasks, ids - {id})
    decreases ids
  {
    var first :| first in ids && TotalRank(tasks, ids) == Rank(tasks[first]) + TotalRank(tasks, ids - {first});
    if first != id {
      TotalRankSplit(tasks, ids - {first}, id);
      TotalRankSplit(tasks, ids - {id}, first);
      assert ids - {first} - {id} == ids - {id} - {first};
    }
  }

  lemma {:induction false} TotalRankSame(t1: map<string, Task>, t2: map<string, Task>, ids: set<string>)
    requires ids <= t1.Keys && ids <= t2.Keys && forall id :: id in ids ==> t1[id] == t2[id]
    ensures TotalRank(t1, ids) == TotalRank(t2, ids)
    decreases ids
  {
    if ids != {} {
      var id :| id in ids;
      TotalRankSplit(t1, ids, id);
      TotalRankSplit(t2, ids, id);
      TotalRankSame(t1, t2, ids - {id});
    }
  }

  /** Every task step uses up some of a bounded supply, so no run of steps alone goes on forever. */
  lemma StepLowersRank(s: State, id: string, o: Oracle)
    requires Inv(s) && Runnable(s, id)
    ensures var s' := Step(s, id, o);
            s'.tasks.Keys == s.tasks.Keys && TotalRank(s'.tasks, s'.tasks.Keys) < TotalRank(s.tasks, s.tasks.Keys)
  {
    StepEffect(s, id, o);
    OneRankDrops(s.tasks, Step(s, id, o).tasks, id);
  }

  lemma OneRankDrops(t1: map<string, Task>, t2: map<string, Task>, id: string)
    requires id in t1 && id in t2 && t2 == t1[id := t2[id]] && Rank(t2[id]) < Rank(t1[id])
    ensures t2.Keys == t1.Keys && TotalRank(t2, t2.Keys) < TotalRank(t1, t1.Keys)
  {
    TotalRankSplit(t1, t1.Keys, id);
    TotalRankSplit(t2, t2.Keys, id);
    TotalRankSame(t1, t2, t1.Keys - {id});
  }

  ghost predicate AllOver(s: State) {
    forall id :: id in s.tasks ==> s.tasks[id].pc.Submitting? || s.tasks[id].pc.Done?
  }

  ghost predicate OnlySteps(steps: seq<Event>, o: Oracle) {
    forall ev :: ev in steps ==> ev.TaskStep? && ev.oracle == o
  }

  /** One step towards the end, with whatever run follows it. */
  lemma StepTowardsEnd(s: State, o: Oracle) returns (next: string, s': State)
    requires Inv(s) && s.limit > 0 && !AllOver(s)
    ensures Inv(s') && s'.limit == s.limit && s'.tasks.Keys == s.tasks.Keys
    ensures TotalRank(s'.tasks, s'.tasks.Keys) < TotalRank(s.tasks, s.tasks.Keys)
    ensures forall rest :: Run(s, [TaskStep(next, o)] + rest) == Run(s', rest)
  {
    var id :| id in s.tasks && !s.tasks[id].pc.Submitting? && !s.tasks[id].pc.Done?;
    next := SomeTaskCanStep(s, id);
    s' := Step(s, next, o);
    StepKeepsInv(s, next, o);
    StepEffect(s, next, o);
    StepLowersRank(s, next, o);
    forall rest ensures Run(s, [TaskStep(next, o)] + rest) == Run(s', rest) {
      StepFirst(s, next, o, rest);
    }
  }

  lemma StepFirst(s: State, next: string, o: Oracle, rest: seq<Event>)
    requires WellFormed(s) && Runnable(s, next)
    ensures Run(s, [TaskStep(next, o)] + rest) == Run(Step(s, next, o), rest)
  {
    RunOnly(s, TaskStep(next, o));
    RunAppend(s, [TaskStep(next, o)], rest);
  }

  /** From any reachable state, with the executor answering at will, the tasks of all submitted jobs can run to their
      end: the protocol never deadlocks and never loses a wake-up. */
  lemma {:induction false} AllTasksEnd(s: State, o: Oracle) returns (steps: seq<Event>)
    requires Inv(s) && s.limit > 0
    ensures OnlySteps(steps, o)
    ensures Run(s, steps).tasks.Keys == s.tasks.Keys && AllOver(Run(s, steps))
    decreases TotalRank(s.tasks, s.tasks.Keys)
  {
    steps := [];
    if !AllOver(s) {
      var next, s' := StepTowardsEnd(s, o);
      var rest := AllTasksEnd(s', o);
      steps := [TaskStep(next, o)] + rest;
      assert Run(s, steps) == Run(s', rest);
    }
  }
}
