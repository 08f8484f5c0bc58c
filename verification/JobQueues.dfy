/** First come, first served: the order in which a semaphore's waiters get its permits. */
module JobQueues {
  import opened Options
  import opened Jobs
  import opened Semaphores
  import opened JobProtocol
  import opened JobInvariant
  import opened JobTheorems

  function Owners(ws: seq<Waiter>): seq<string> {
    seq(|ws|, i requires 0 <= i < |ws| => ws[i].owner)
  }

  /** Nobody holds a permit while somebody further ahead still waits for one. */
  ghost predicate GrantedFirst(ws: seq<Waiter>) {
    forall i, j :: 0 <= i < j < |ws| && ws[j].fut.Granted? ==> !ws[i].fut.Pending?
  }

  /** The line stays as it was, loses one waiter, or gets one more at its end. */
  ghost predicate LineStep(before: seq<string>, after: seq<string>) {
    || after == before
    || (exists i :: 0 <= i < |before| && after == before[..i] + before[i + 1..])
    || (exists x :: after == before + [x])
  }

  // --- One semaphore --------------------------------------------------------------------------------------------

  lemma WakeKeepsOrder(s: Semaphore)
    requires s.value > 0 && GrantedFirst(s.waiters)
    ensures Owners(WakeUpNext(s).waiters) == Owners(s.waiters) && GrantedFirst(WakeUpNext(s).waiters)
  {
  }

  lemma RemoveKeepsOrder(ws: seq<Waiter>, i: nat)
    requires i < |ws| && GrantedFirst(ws)
    ensures Owners(Remove(ws, i)) == Owners(ws)[..i] + Owners(ws)[i + 1..] && GrantedFirst(Remove(ws, i))
  {
    var rest := Remove(ws, i);
    forall a, b | 0 <= a < b < |rest| && rest[b].fut.Granted? ensures !rest[a].fut.Pending? {
      assert ws[if a < i then a else a + 1] == rest[a] && ws[if b < i then b else b + 1] == rest[b];
    }
  }

  /** Every operation of the semaphore keeps the order of those in line, and a newcomer goes to the end. */
  lemma OperationsKeepOrder(s: Semaphore, owner: string, i: nat)
    requires GrantedFirst(s.waiters)
    ensures Owners(Enqueue(s, owner).waiters) == Owners(s.waiters) + [owner] && GrantedFirst(Enqueue(s, owner).waiters)
    ensures Owners(Release(s).waiters) == Owners(s.waiters) && GrantedFirst(Release(s).waiters)
    ensures i < |s.waiters| ==> Owners(Revoke(s, i).waiters) == Owners(s.waiters) && GrantedFirst(Revoke(s, i).waiters)
    ensures i < |s.waiters| ==>
              && Owners(Resume(s, i).waiters) == Owners(s.waiters)[..i] + Owners(s.waiters)[i + 1..] && GrantedFirst(Resume(s, i).waiters)
    ensures i < |s.waiters| ==>
              && Owners(Abandon(s, i).waiters) == Owners(s.waiters)[..i] + Owners(s.waiters)[i + 1..] && GrantedFirst(Abandon(s, i).waiters)
  {
    WakeKeepsOrder(s.(value := s.value + 1));
    if i < |s.waiters| {
      RemoveKeepsOrder(s.waiters, i);
      var rest := s.(waiters := Remove(s.waiters, i));
      if rest.value > 0 { WakeKeepsOrder(rest); }
      WakeKeepsOrder(rest.(value := rest.value + 1));
    }
  }

  // --- One event ------------------------------------------------------------------------------------------------

  ghost predicate AllGrantedFirst(s: State) {
    forall k :: 0 <= k < |s.instances| ==> GrantedFirst(s.instances[k].sem.waiters)
  }

  function LineOf(s: State, k: nat): seq<string> {
    if k < |s.instances| then Owners(s.instances[k].sem.waiters) else []
  }

  ghost predicate InOrder(s: State, s': State) {
    AllGrantedFirst(s') && forall k: nat :: LineStep(LineOf(s, k), LineOf(s', k))
  }

  /** All lines but one stay as they are. */
  lemma OneLineMoves(s: State, s': State, k: nat)
    requires AllGrantedFirst(s) && |s'.instances| >= |s.instances| && k < |s'.instances|
    requires forall j :: 0 <= j < |s'.instances| && j != k ==> j < |s.instances| && s'.instances[j] == s.instances[j]
    requires GrantedFirst(s'.instances[k].sem.waiters) && LineStep(LineOf(s, k), LineOf(s', k))
    ensures InOrder(s, s')
  {
  }

  lemma EnterInOrder(s: State, id: string, now: nat)
    requires WellFormed(s) && id in s.tasks && id in s.jobs && AllGrantedFirst(s)
    ensures InOrder(s, Enter(s, id, now))
  {
    var (s1, k) := WithSemaphore(s, s.jobs[id].experimentId);
    OperationsKeepOrder(s1.instances[k].sem, id, 0);
    OneLineMoves(s, Enter(s, id, now), k);
  }

  lemma StepInOrder(s: State, id: string, o: Oracle)
    requires WellFormed(s) && Runnable(s, id) && AllGrantedFirst(s)
    ensures InOrder(s, Step(s, id, o))
  {
    var s' := Step(s, id, o);
    match s.tasks[id].pc
    case NotStarted => if !s.tasks[id].mustCancel { EnterInOrder(s, id, o.now); }
    case WaitingPermit(k) => ResumeInOrder(s, id, k, o);
    case SavingRunning(k) => ReleaseInOrder(s, id, k, o);
    case Executing(k) => ReleaseInOrder(s, id, k, o);
    case _ =>
  }

  lemma ResumeInOrder(s: State, id: string, k: nat, o: Oracle)
    requires WellFormed(s) && Runnable(s, id) && AllGrantedFirst(s) && s.tasks[id].pc == WaitingPermit(k)
    ensures InOrder(s, Step(s, id, o))
  {
    var sem := s.instances[k].sem;
    OperationsKeepOrder(sem, id, Position(sem.waiters, id));
    OneLineMoves(s, Step(s, id, o), k);
  }

  lemma ReleaseInOrder(s: State, id: string, k: nat, o: Oracle)
    requires WellFormed(s) && Runnable(s, id) && AllGrantedFirst(s) && s.tasks[id].pc in {SavingRunning(k), Executing(k)}
    ensures InOrder(s, Step(s, id, o))
  {
    OperationsKeepOrder(s.instances[k].sem, id, 0);
    OneLineMoves(s, Step(s, id, o), k);
  }

  ghost predicate SameLines(s: State, s': State) {
    |s'.instances| == |s.instances| && AllGrantedFirst(s') && forall k: nat :: LineOf(s', k) == LineOf(s, k)
  }

  lemma CancelTaskKeepsLines(s: State, id: string)
    requires AllGrantedFirst(s)
    ensures SameLines(s, CancelTask(s, id))
  {
    if id in s.tasks && s.tasks[id].pc.WaitingPermit? && s.tasks[id].pc.sem < |s.instances| {
      var sem := s.instances[s.tasks[id].pc.sem].sem;
      OperationsKeepOrder(sem, id, Position(sem.waiters, id));
    }
  }

  lemma {:induction false} SweepKeepsLines(s: State, order: seq<string>)
    requires AllGrantedFirst(s)
    ensures SameLines(s, SweepSteps(s, order))
  {
    if order != [] {
      var last := |order| - 1;
      SweepKeepsLines(s, order[..last]);
      CancelTaskKeepsLines(MarkUser(SweepSteps(s, order[..last]), order[last]), order[last]);
    }
  }

  lemma NextInOrder(s: State, ev: Event)
    requires Enabled(s, ev) && AllGrantedFirst(s) && !ev.Restart?
    ensures InOrder(s, Next(s, ev))
  {
    match ev
    case TaskStep(id, o) => StepInOrder(s, id, o);
    case Cancel(id, _) => CancelTaskKeepsLines(MarkUser(s, id), id);
    case Sweep(_, order) => SweepKeepsLines(s, order);
    case _ =>
  }

  // --- Every run ------------------------------------------------------------------------------------------------

  /** In every run nobody is handed a permit ahead of somebody who stands further ahead in line and still waits. */
  lemma {:induction false} NoOvertaking(limit: nat, events: seq<Event>)
    ensures AllGrantedFirst(Run(Init(limit), events))
  {
    if events != [] {
      var before, ev := Run(Init(limit), events[..|events| - 1]), events[|events| - 1];
      NoOvertaking(limit, events[..|events| - 1]);
      if Enabled(before, ev) && !ev.Restart? { NextInOrder(before, ev); }
    }
  }

  ghost predicate Ahead(line: seq<string>, a: string, b: string) {
    exists i, j :: 0 <= i < j < |line| && line[i] == a && line[j] == b
  }

  /** Two that stand one behind the other stood so before, unless the one behind has only now lined up. */
  lemma AheadBefore(before: seq<string>, after: seq<string>, a: string, b: string)
    requires LineStep(before, after) && Ahead(after, a, b)
    ensures Ahead(before, a, b) || (a in before && after == before + [b])
  {
    var i, j :| 0 <= i < j < |after| && after[i] == a && after[j] == b;
    if after != before {
      if n :| 0 <= n < |before| && after == before[..n] + before[n + 1..] {
        assert before[if i < n then i else i + 1] == a && before[if j < n then j else j + 1] == b;
      } else {
        assert before[i] == a;
      }
    }
  }

  /** After n events the one stood in line and the other had not lined up yet. */
  ghost predicate CameFirst(start: State, events: seq<Event>, k: nat, a: string, b: string, n: nat) {
    n < |events| && a in LineOf(Run(start, events[..n]), k) && b !in LineOf(Run(start, events[..n]), k)
  }

  lemma CameFirstStill(start: State, events: seq<Event>, k: nat, a: string, b: string, n: nat)
    requires events != [] && CameFirst(start, events[..|events| - 1], k, a, b, n)
    ensures CameFirst(start, events, k, a, b, n)
  {
    assert events[..|events| - 1][..n] == events[..n];
  }

  /** Those ahead in line came first: at some moment of the run the one stood in line and the other had not lined up yet. */
  lemma {:induction false} FirstCome(limit: nat, events: seq<Event>, k: nat, a: string, b: string) returns (n: nat)
    requires Ahead(LineOf(Run(Init(limit), events), k), a, b)
    ensures CameFirst(Init(limit), events, k, a, b, n)
  {
    var last := |events| - 1;
    var before := Run(Init(limit), events[..last]);
    NoOvertaking(limit, events[..last]);
    LinedUpNow(before, events[last], k, a, b);
    if Ahead(LineOf(before, k), a, b) {
      n := FirstCome(limit, events[..last], k, a, b);
      CameFirstStill(Init(limit), events, k, a, b, n);
    } else {
      n := last;
      NewcomerInRun(limit, events, LineOf(before, k), k, b);
    }
  }

  lemma NewcomerInRun(limit: nat, events: seq<Event>, before: seq<string>, k: nat, b: string)
    requires LineOf(Run(Init(limit), events), k) == before + [b]
    ensures b !in before
  {
    InvInit(limit);
    RunKeepsInv(Init(limit), events);
    NewcomerIsNew(Run(Init(limit), events), before, k, b);
  }

  lemma LinedUpNow(s: State, ev: Event, k: nat, a: string, b: string)
    requires AllGrantedFirst(s) && Ahead(LineOf(if Enabled(s, ev) then Next(s, ev) else s, k), a, b)
    ensures var s' := if Enabled(s, ev) then Next(s, ev) else s;
            Ahead(LineOf(s, k), a, b) || (a in LineOf(s, k) && LineOf(s', k) == LineOf(s, k) + [b])
  {
    if Enabled(s, ev) && !ev.Restart? {
      NextInOrder(s, ev);
      AheadBefore(LineOf(s, k), LineOf(Next(s, ev), k), a, b);
    }
  }

  lemma NewcomerIsNew(s: State, before: seq<string>, k: nat, b: string)
    requires Inv(s) && k < |s.instances| && LineOf(s, k) == before + [b]
    ensures b !in before
  {
    assert SemOk(s.instances[k].sem, s.tasks, k, s.limit);
    var ws := s.instances[k].sem.waiters;
    forall i | 0 <= i < |before| ensures before[i] != b {
      assert ws[i].owner == (before + [b])[i] && ws[|before|].owner == (before + [b])[|before|];
    }
  }

  lemma LockedIsNotFree(sem: Semaphore)
    ensures Locked(sem) <==> !FreeFor(sem)
  {
  }

  /** The semaphore the task meets: the experiment's own, or a fresh one with all permits. */
  lemma EnterMeets(s: State, id: string, now: nat)
    requires WellFormed(s) && id in s.tasks && id in s.jobs
    ensures var s', e := Enter(s, id, now), s.jobs[id].experimentId;
            var sem := if e in s.current then s.instances[s.current[e]].sem else Semaphore(s.limit, []);
            && e in s'.current && s'.current[e] < |s'.instances| && id in s'.jobs && id in s'.tasks
            && (Locked(sem) ==> s'.jobs[id] == s.jobs[id] && s'.tasks[id] == Task(WaitingPermit(s'.current[e]), false)
                                && s'.instances[s'.current[e]].sem.waiters == sem.waiters + [Waiter(id, Pending)])
            && (!Locked(sem) ==> s'.jobs[id].status == RUNNING)
  {
  }

  /** Nobody walks past the line: a job starts as soon as its task runs exactly if a permit is free and everybody in line has been
      cancelled; otherwise its task goes to the end of the line. */
  lemma StartsAtOnceExactly(s: State, id: string, o: Oracle)
    requires Inv(s) && Enabled(s, TaskStep(id, o)) && s.tasks[id] == Task(NotStarted, false)
    ensures var s', e := Next(s, TaskStep(id, o)), s.jobs[id].experimentId;
            var sem := if e in s.current then s.instances[s.current[e]].sem else Semaphore(s.limit, []);
            && id in s'.jobs && id in s'.tasks && e in s'.current && s'.current[e] < |s'.instances|
            && (s'.jobs[id].status == RUNNING <==> FreeFor(sem))
            && (s'.jobs[id].status != RUNNING ==>
                  s'.tasks[id] == Task(WaitingPermit(s'.current[e]), false) && LineOf(s', s'.current[e]) == Owners(sem.waiters) + [id])
  {
    assert JobOk(s, id);
    assert Next(s, TaskStep(id, o)) == Enter(s, id, o.now);
    EnterStarts(s, id, o.now);
  }

  lemma EnterStarts(s: State, id: string, now: nat)
    requires WellFormed(s) && id in s.tasks && id in s.jobs && s.jobs[id].status == PENDING
    ensures var s', e := Enter(s, id, now), s.jobs[id].experimentId;
            var sem := if e in s.current then s.instances[s.current[e]].sem else Semaphore(s.limit, []);
            && id in s'.jobs && id in s'.tasks && e in s'.current && s'.current[e] < |s'.instances|
            && (s'.jobs[id].status == RUNNING <==> FreeFor(sem))
            && (s'.jobs[id].status != RUNNING ==>
                  s'.tasks[id] == Task(WaitingPermit(s'.current[e]), false) && LineOf(s', s'.current[e]) == Owners(sem.waiters) + [id])
  {
    var e := s.jobs[id].experimentId;
    var sem := if e in s.current then s.instances[s.current[e]].sem else Semaphore(s.limit, []);
    LockedIsNotFree(sem);
    EnterMeets(s, id, now);
    OwnersPlus(sem.waiters, id);
  }

  lemma OwnersPlus(ws: seq<Waiter>, id: string)
    ensures Owners(ws + [Waiter(id, Pending)]) == Owners(ws) + [id]
  {
  }

  predicate FreeFor(sem: Semaphore) {
    sem.value > 0 && forall i :: 0 <= i < |sem.waiters| ==> sem.waiters[i].fut == Revoked
  }
}
