/** What holds at every await point of every interleaving, and the proof that each step keeps it. */
module JobInvariant {
  import opened Options
  import opened Jobs
  import opened Semaphores
  import opened JobProtocol

  // --- One job: the task's position fixes its status, its registry entry and its row ----------------------------

  ghost predicate JobOk(s: State, id: string)
    requires id in s.tasks && id in s.jobs
  {
    var job := s.jobs[id];
    var registered := id in s.registry;
    && (id in s.rows ==> Progresses(s.rows[id], job))
    && job.error != Some(Abandoned)
    && match s.tasks[id].pc
       case Submitting => job.status == PENDING && !registered && id !in s.rows && !s.tasks[id].mustCancel
       case NotStarted => job.status == PENDING && registered && id in s.rows
       case WaitingPermit(k) =>
         job.status == PENDING && registered && id in s.rows && k < |s.instances| && job.experimentId == s.instances[k].experimentId
       case SavingRunning(k) =>
         job.status == RUNNING && registered && id in s.rows && k < |s.instances| && job.experimentId == s.instances[k].experimentId
       case Executing(k) =>
         job.status == RUNNING && registered && id in s.rows && k < |s.instances| && job.experimentId == s.instances[k].experimentId
       case FinalSave => job.status.Terminal() && registered && id in s.rows
       case CancelSave => job.status == CANCELLED && registered && id in s.rows
       case Done(entered) =>
         && id in s.rows
         && (if entered then job.status.Terminal() && (registered || s.rows[id] == job)
             else job.status == PENDING && registered)
  }

  ghost predicate JobsOk(s: State) {
    && s.jobs.Keys == s.tasks.Keys
    && s.registry.Keys <= s.tasks.Keys
    && (forall id :: id in s.tasks ==> JobOk(s, id))
    && (forall id :: id in s.rows && id !in s.tasks ==> s.rows[id].status.Terminal())
  }

  ghost predicate CurrentOk(s: State) {
    forall e :: e in s.current ==> s.current[e] < |s.instances| && s.instances[s.current[e]].experimentId == e
  }

  // --- One semaphore: who stands in line, who holds a permit ----------------------------------------------------

  ghost predicate Holds(t: Task, k: nat) { t.pc == SavingRunning(k) || t.pc == Executing(k) }

  ghost predicate Mentions(t: Task, k: nat) { Holds(t, k) || t.pc == WaitingPermit(k) }

  /** The tasks that hold a permit of semaphore k. */
  ghost function Holders(tasks: map<string, Task>, k: nat): set<string> {
    set id | id in tasks && Holds(tasks[id], k)
  }

  ghost predicate WaiterOk(w: Waiter, tasks: map<string, Task>, k: nat) {
    && w.owner in tasks
    && tasks[w.owner].pc == WaitingPermit(k)
    && (w.fut.Pending? ==> !tasks[w.owner].mustCancel)
    && (w.fut.Revoked? ==> tasks[w.owner].mustCancel)
  }

  ghost predicate LineOk(ws: seq<Waiter>, tasks: map<string, Task>, k: nat) {
    && DistinctOwners(ws)
    && (forall i :: 0 <= i < |ws| ==> WaiterOk(ws[i], tasks, k))
    && (forall id :: id in tasks && tasks[id].pc == WaitingPermit(k) ==> Position(ws, id) < |ws|)
  }

  ghost predicate SemOk(sem: Semaphore, tasks: map<string, Task>, k: nat, limit: nat) {
    && LineOk(sem.waiters, tasks, k)
    && Supply(sem) + |Holders(tasks, k)| == limit
    && NoLostWakeup(sem)
  }

  ghost predicate SemsOk(s: State) {
    forall k :: 0 <= k < |s.instances| ==> SemOk(s.instances[k].sem, s.tasks, k, s.limit)
  }

  ghost predicate Inv(s: State) {
    && JobsOk(s)
    && CurrentOk(s)
    && SemsOk(s)
  }

  lemma InvInit(limit: nat)
    ensures Inv(Init(limit))
  {
  }

  // --- Small facts about lines and holders ----------------------------------------------------------------------

  lemma PositionFound(ws: seq<Waiter>, i: nat)
    requires DistinctOwners(ws) && i < |ws|
    ensures Position(ws, ws[i].owner) == i
  {
  }

  lemma HoldersPut(tasks: map<string, Task>, id: string, t: Task, k: nat)
    ensures Holders(tasks[id := t], k) == if Holds(t, k) then Holders(tasks, k) + {id} else Holders(tasks, k) - {id}
  {
  }

  lemma HoldersCount(tasks: map<string, Task>, id: string, t: Task, k: nat)
    ensures |Holders(tasks[id := t], k)| == |Holders(tasks, k)|
            - (if id in tasks && Holds(tasks[id], k) then 1 else 0) + (if Holds(t, k) then 1 else 0)
  {
    HoldersPut(tasks, id, t, k);
  }

  /** A task that neither was nor becomes involved with semaphore k does not disturb it. */
  lemma OtherTask(sem: Semaphore, tasks: map<string, Task>, k: nat, limit: nat, id: string, t: Task)
    requires SemOk(sem, tasks, k, limit)
    requires id in tasks ==> !Mentions(tasks[id], k)
    requires !Mentions(t, k)
    ensures SemOk(sem, tasks[id := t], k, limit)
  {
    HoldersCount(tasks, id, t, k);
    var ws := sem.waiters;
    forall i | 0 <= i < |ws| ensures WaiterOk(ws[i], tasks[id := t], k) {
      assert WaiterOk(ws[i], tasks, k);
    }
  }

  /** A permit holder that keeps its permit does not disturb the semaphore. */
  lemma HolderMoves(sem: Semaphore, tasks: map<string, Task>, k: nat, limit: nat, id: string, t: Task)
    requires SemOk(sem, tasks, k, limit)
    requires id in tasks && Holds(tasks[id], k) && Holds(t, k)
    ensures SemOk(sem, tasks[id := t], k, limit)
  {
    HoldersCount(tasks, id, t, k);
    var ws := sem.waiters;
    forall i | 0 <= i < |ws| ensures WaiterOk(ws[i], tasks[id := t], k) {
      assert WaiterOk(ws[i], tasks, k);
    }
  }

  lemma WakeUpKeepsLine(s: Semaphore, tasks: map<string, Task>, k: nat)
    requires s.value > 0 && LineOk(s.waiters, tasks, k)
    ensures LineOk(WakeUpNext(s).waiters, tasks, k)
  {
    if HasPending(s.waiters) {
      var i := FirstPending(s.waiters);
      SameOwnersLine(s.waiters, i, s.waiters[i].(fut := Granted), tasks, tasks, k);
    }
  }

  /** Replacing one waiter by another of the same owner keeps everybody's place. */
  lemma SameOwnersLine(ws: seq<Waiter>, i: nat, w: Waiter, tasks: map<string, Task>, tasks': map<string, Task>, k: nat)
    requires LineOk(ws, tasks, k) && i < |ws| && w.owner == ws[i].owner
    requires WaiterOk(w, tasks', k)
    requires tasks'.Keys == tasks.Keys
    requires forall id :: id in tasks && id != w.owner ==> tasks'[id] == tasks[id]
    ensures LineOk(ws[i := w], tasks', k)
  {
    var ws' := ws[i := w];
    forall j | 0 <= j < |ws'| ensures WaiterOk(ws'[j], tasks', k) {
      if j != i { assert WaiterOk(ws[j], tasks, k); }
    }
    forall id | id in tasks' && tasks'[id].pc == WaitingPermit(k) ensures Position(ws', id) < |ws'| {
      if id == w.owner {
        assert ws'[i].owner == id;
      } else {
        var p := Position(ws, id);
        assert ws'[p].owner == id;
      }
    }
  }

  /** Taking the i-th waiter out of the line when its task moves on. */
  lemma RemoveFromLine(ws: seq<Waiter>, i: nat, tasks: map<string, Task>, t: Task, k: nat)
    requires LineOk(ws, tasks, k) && i < |ws|
    requires t.pc != WaitingPermit(k)
    ensures LineOk(Remove(ws, i), tasks[ws[i].owner := t], k)
  {
    var id := ws[i].owner;
    var ws' := Remove(ws, i);
    var tasks' := tasks[id := t];
    forall j | 0 <= j < |ws'| ensures WaiterOk(ws'[j], tasks', k) && ws'[j].owner != id {
      assert ws'[j] == ws[if j < i then j else j + 1];
      assert WaiterOk(ws'[j], tasks, k);
    }
    forall o | o in tasks' && tasks'[o].pc == WaitingPermit(k) ensures Position(ws', o) < |ws'| {
      var p := Position(ws, o);
      assert p != i;
      assert ws'[if p < i then p else p - 1].owner == o;
    }
  }

  lemma EnqueueLine(sem: Semaphore, tasks: map<string, Task>, k: nat, id: string)
    requires LineOk(sem.waiters, tasks, k)
    requires id in tasks ==> tasks[id].pc != WaitingPermit(k)
    ensures LineOk(Enqueue(sem, id).waiters, tasks[id := Task(WaitingPermit(k), false)], k)
  {
    var ws := sem.waiters;
    var ws' := Enqueue(sem, id).waiters;
    var tasks' := tasks[id := Task(WaitingPermit(k), false)];
    forall j | 0 <= j < |ws'| ensures WaiterOk(ws'[j], tasks', k) {
      if j < |ws| { assert WaiterOk(ws[j], tasks, k); }
    }
    forall o | o in tasks' && tasks'[o].pc == WaitingPermit(k) ensures Position(ws', o) < |ws'| {
      var p := if o == id then |ws| else Position(ws, o);
      assert ws'[p].owner == o;
    }
  }

  // --- One semaphore through each step that touches it ----------------------------------------------------------

  lemma TakeOk(sem: Semaphore, tasks: map<string, Task>, k: nat, limit: nat, id: string)
    requires SemOk(sem, tasks, k, limit) && !Locked(sem)
    requires id in tasks ==> !Mentions(tasks[id], k)
    ensures SemOk(Take(sem), tasks[id := Task(SavingRunning(k), false)], k, limit)
  {
    OtherTask(sem, tasks, k, limit, id, Task(NotStarted, false));
    var t := Task(SavingRunning(k), false);
    HoldersCount(tasks, id, t, k);
    Conservation(sem, id, 0);
    NoLostWakeupKept(sem, id, 0);
    forall i | 0 <= i < |sem.waiters| ensures WaiterOk(sem.waiters[i], tasks[id := t], k) {
      assert WaiterOk(sem.waiters[i], tasks, k);
    }
  }

  lemma EnqueueOk(sem: Semaphore, tasks: map<string, Task>, k: nat, limit: nat, id: string)
    requires SemOk(sem, tasks, k, limit) && Locked(sem)
    requires id in tasks ==> !Mentions(tasks[id], k)
    ensures SemOk(Enqueue(sem, id), tasks[id := Task(WaitingPermit(k), false)], k, limit)
  {
    HoldersCount(tasks, id, Task(WaitingPermit(k), false), k);
    Conservation(sem, id, 0);
    NoLostWakeupKept(sem, id, 0);
    EnqueueLine(sem, tasks, k, id);
  }

  lemma ReleaseOk(sem: Semaphore, tasks: map<string, Task>, k: nat, limit: nat, id: string, t: Task)
    requires SemOk(sem, tasks, k, limit)
    requires id in tasks && Holds(tasks[id], k) && !Mentions(t, k)
    ensures SemOk(Release(sem), tasks[id := t], k, limit)
  {
    HoldersCount(tasks, id, t, k);
    Conservation(sem, id, 0);
    NoLostWakeupKept(sem, id, 0);
    forall i | 0 <= i < |sem.waiters| ensures WaiterOk(sem.waiters[i], tasks[id := t], k) {
      assert WaiterOk(sem.waiters[i], tasks, k);
    }
    WakeUpKeepsLine(sem.(value := sem.value + 1), tasks[id := t], k);
  }

  lemma ResumeOk(sem: Semaphore, tasks: map<string, Task>, k: nat, limit: nat, i: nat)
    requires SemOk(sem, tasks, k, limit) && i < |sem.waiters| && sem.waiters[i].fut.Granted?
    ensures SemOk(Resume(sem, i), tasks[sem.waiters[i].owner := Task(SavingRunning(k), false)], k, limit)
  {
    var id := sem.waiters[i].owner;
    var t := Task(SavingRunning(k), false);
    assert WaiterOk(sem.waiters[i], tasks, k);
    HoldersCount(tasks, id, t, k);
    Conservation(sem, id, i);
    NoLostWakeupKept(sem, id, i);
    RemoveFromLine(sem.waiters, i, tasks, t, k);
    var rest := sem.(waiters := Remove(sem.waiters, i));
    if rest.value > 0 { WakeUpKeepsLine(rest, tasks[id := t], k); }
  }

  lemma AbandonOk(sem: Semaphore, tasks: map<string, Task>, k: nat, limit: nat, i: nat, t: Task)
    requires SemOk(sem, tasks, k, limit) && i < |sem.waiters| && !sem.waiters[i].fut.Pending?
    requires !Mentions(t, k)
    ensures SemOk(Abandon(sem, i), tasks[sem.waiters[i].owner := t], k, limit)
  {
    var id := sem.waiters[i].owner;
    assert WaiterOk(sem.waiters[i], tasks, k);
    HoldersCount(tasks, id, t, k);
    Conservation(sem, id, i);
    NoLostWakeupKept(sem, id, i);
    RemoveFromLine(sem.waiters, i, tasks, t, k);
    var rest := sem.(waiters := Remove(sem.waiters, i));
    WakeUpKeepsLine(rest.(value := rest.value + 1), tasks[id := t], k);
  }

  lemma RevokeOk(sem: Semaphore, tasks: map<string, Task>, k: nat, limit: nat, i: nat)
    requires SemOk(sem, tasks, k, limit) && i < |sem.waiters|
    ensures SemOk(Revoke(sem, i), tasks[sem.waiters[i].owner := Task(WaitingPermit(k), true)], k, limit)
  {
    var id := sem.waiters[i].owner;
    var t := Task(WaitingPermit(k), true);
    assert WaiterOk(sem.waiters[i], tasks, k);
    HoldersCount(tasks, id, t, k);
    Conservation(sem, id, i);
    NoLostWakeupKept(sem, id, i);
    var w := if sem.waiters[i].fut.Pending? then sem.waiters[i].(fut := Revoked) else sem.waiters[i];
    assert Revoke(sem, i).waiters == sem.waiters[i := w];
    SameOwnersLine(sem.waiters, i, w, tasks, tasks[id := t], k);
  }

  // --- Every event keeps the invariant --------------------------------------------------------------------------

  /** The task is involved with no semaphore but k. */
  ghost predicate Within(t: Task, k: nat) {
    t.pc.WaitingPermit? || t.pc.SavingRunning? || t.pc.Executing? ==> t.pc.sem == k
  }

  /** The step from s to s' touches the entries of one job and at most semaphore k, and leaves both in order. */
  ghost predicate Local(s: State, s': State, id: string, k: nat) {
    && s'.limit == s.limit && s'.current == s.current
    && id in s'.jobs && s'.jobs == s.jobs[id := s'.jobs[id]]
    && id in s'.tasks && s'.tasks == s.tasks[id := s'.tasks[id]]
    && (s'.registry == s.registry || s'.registry == s.registry - {id}
        || (id in s'.registry && s'.registry == s.registry[id := s'.registry[id]]))
    && (s'.rows == s.rows || (id in s'.rows && s'.rows == s.rows[id := s'.rows[id]]))
    && (s'.instances == s.instances
        || (k < |s.instances| == |s'.instances|
            && s'.instances == s.instances[k := s.instances[k].(sem := s'.instances[k].sem)]))
    && (id in s.tasks ==> Within(s.tasks[id], k))
    && Within(s'.tasks[id], k)
    && JobOk(s', id)
    && (k < |s.instances| == |s'.instances| ==> SemOk(s'.instances[k].sem, s'.tasks, k, s.limit))
  }

  lemma LocalKeepsJobs(s: State, s': State, id: string, k: nat)
    requires JobsOk(s) && Local(s, s', id, k)
    ensures JobsOk(s')
  {
    forall o | o in s'.tasks ensures JobOk(s', o) {
      if o != id { LocalKeepsOther(s, s', id, k, o); }
    }
  }

  lemma LocalKeepsOther(s: State, s': State, id: string, k: nat, o: string)
    requires JobsOk(s) && Local(s, s', id, k) && o in s'.tasks && o != id
    ensures o in s'.jobs && JobOk(s', o)
  {
    assert JobOk(s, o);
  }

  lemma LocalKeepsSem(s: State, s': State, id: string, k: nat, j: nat)
    requires Local(s, s', id, k) && j < |s'.instances| && |s.instances| == |s'.instances|
    requires j != k ==> SemOk(s.instances[j].sem, s.tasks, j, s.limit)
    ensures SemOk(s'.instances[j].sem, s'.tasks, j, s'.limit)
  {
    if j != k {
      OtherTask(s.instances[j].sem, s.tasks, j, s.limit, id, s'.tasks[id]);
    }
  }

  lemma LocalKeepsInv(s: State, s': State, id: string, k: nat)
    requires Inv(s) && Local(s, s', id, k)
    ensures Inv(s')
  {
    LocalKeepsJobs(s, s', id, k);
    forall j | 0 <= j < |s'.instances| ensures SemOk(s'.instances[j].sem, s'.tasks, j, s'.limit) {
      LocalKeepsSem(s, s', id, k, j);
    }
  }

  /** A semaphore nobody has used yet. */
  lemma FreshSemOk(tasks: map<string, Task>, k: nat, limit: nat)
    requires forall id :: id in tasks ==> !Mentions(tasks[id], k)
    ensures SemOk(Semaphore(limit, []), tasks, k, limit)
  {
    assert Holders(tasks, k) == {};
  }

  lemma MoreSemaphoresKeepJob(s: State, s1: State, id: string)
    requires id in s.tasks && id in s.jobs && JobOk(s, id)
    requires s1.tasks == s.tasks && s1.jobs == s.jobs && s1.registry == s.registry && s1.rows == s.rows && s.instances <= s1.instances
    ensures JobOk(s1, id) && !Mentions(s1.tasks[id], |s.instances|)
  {
  }

  lemma WithSemaphoreKeepsInv(s: State, e: string)
    requires Inv(s)
    ensures var (s1, k) := WithSemaphore(s, e);
            Inv(s1) && s1.instances[k].experimentId == e && s1.tasks == s.tasks && s1.jobs == s.jobs
            && s1.registry == s.registry && s1.rows == s.rows
  {
    if e !in s.current { FreshSemaphoreKeepsInv(s, e, WithSemaphore(s, e).0); }
  }

  lemma FreshSemaphoreKeepsInv(s: State, e: string, s1: State)
    requires Inv(s) && e !in s.current
    requires s1 == s.(instances := s.instances + [Instance(e, Semaphore(s.limit, []))], current := s.current[e := |s.instances|])
    ensures Inv(s1)
  {
    forall id | id in s1.tasks ensures JobOk(s1, id) && !Mentions(s1.tasks[id], |s.instances|) {
      MoreSemaphoresKeepJob(s, s1, id);
    }
    FreshSemaphoreKeepsSems(s, e, s1);
  }

  lemma FreshSemaphoreKeepsSems(s: State, e: string, s1: State)
    requires SemsOk(s) && s1.tasks == s.tasks && s1.limit == s.limit
    requires s1.instances == s.instances + [Instance(e, Semaphore(s.limit, []))]
    requires forall id :: id in s.tasks ==> !Mentions(s.tasks[id], |s.instances|)
    ensures SemsOk(s1)
  {
    FreshSemOk(s1.tasks, |s.instances|, s1.limit);
  }

  lemma EnterLocal(s: State, s': State, id: string, k: nat, now: nat)
    requires id in s.tasks && id in s.jobs && JobOk(s, id) && s.tasks[id] == Task(NotStarted, false)
    requires k < |s.instances| && s.instances[k].experimentId == s.jobs[id].experimentId
    requires SemOk(s.instances[k].sem, s.tasks, k, s.limit)
    requires var sem := s.instances[k].sem;
             s' == if Locked(sem) then Put(SetSem(s, k, Enqueue(sem, id)), id, s.jobs[id], Task(WaitingPermit(k), false))
             else Put(SetSem(s, k, Take(sem)), id, Started(s.jobs[id], now), Task(SavingRunning(k), false))
    ensures Local(s, s', id, k)
  {
    var sem := s.instances[k].sem;
    if Locked(sem) {
      EnqueueOk(sem, s.tasks, k, s.limit, id);
    } else {
      TakeOk(sem, s.tasks, k, s.limit, id);
    }
  }

  lemma ResumePermitLocal(s: State, id: string, k: nat, now: nat)
    requires WellFormed(s) && Runnable(s, id) && s.tasks[id].pc == WaitingPermit(k) && JobOk(s, id)
    requires SemOk(s.instances[k].sem, s.tasks, k, s.limit)
    ensures Local(s, ResumePermit(s, id, k, now), id, k)
  {
    var sem := s.instances[k].sem;
    var i := Position(sem.waiters, id);
    assert WaiterOk(sem.waiters[i], s.tasks, k);
    if s.tasks[id].mustCancel {
      AbandonOk(sem, s.tasks, k, s.limit, i, Task(CancelSave, false));
    } else {
      ResumeOk(sem, s.tasks, k, s.limit, i);
    }
  }

  lemma AfterRunningSaveLocal(s: State, id: string, k: nat, o: Oracle)
    requires Runnable(s, id) && s.tasks[id].pc == SavingRunning(k) && JobOk(s, id)
    requires SemOk(s.instances[k].sem, s.tasks, k, s.limit)
    ensures Local(s, AfterRunningSave(s, id, k, o), id, k)
  {
    var sem := s.instances[k].sem;
    if s.tasks[id].mustCancel {
      ReleaseOk(sem, s.tasks, k, s.limit, id, Task(CancelSave, false));
    } else {
      HolderMoves(sem, s.tasks, k, s.limit, id, Task(Executing(k), false));
    }
  }

  lemma AfterExecutorLocal(s: State, id: string, k: nat, o: Oracle)
    requires Runnable(s, id) && s.tasks[id].pc == Executing(k) && JobOk(s, id)
    requires SemOk(s.instances[k].sem, s.tasks, k, s.limit)
    ensures Local(s, AfterExecutor(s, id, k, o), id, k)
  {
    ReleaseOk(s.instances[k].sem, s.tasks, k, s.limit, id, AfterExecutor(s, id, k, o).tasks[id]);
  }

  lemma AfterLastSaveLocal(s: State, id: string, o: Oracle)
    requires id in s.tasks && id in s.jobs && JobOk(s, id) && s.tasks[id].pc in {FinalSave, CancelSave}
    ensures Local(s, AfterLastSave(s, id, o), id, |s.instances|)
  {
  }

  lemma StepKeepsInv(s: State, id: string, o: Oracle)
    requires Inv(s) && Runnable(s, id)
    ensures Inv(Step(s, id, o))
  {
    assert JobOk(s, id);
    match s.tasks[id].pc
    case NotStarted =>
      if s.tasks[id].mustCancel {
        LocalKeepsInv(s, Step(s, id, o), id, |s.instances|);
      } else {
        WithSemaphoreKeepsInv(s, s.jobs[id].experimentId);
        var (s1, k) := WithSemaphore(s, s.jobs[id].experimentId);
        assert JobOk(s1, id);
        EnterLocal(s1, Enter(s, id, o.now), id, k, o.now);
        LocalKeepsInv(s1, Enter(s, id, o.now), id, k);
      }
    case WaitingPermit(k) =>
      ResumePermitLocal(s, id, k, o.now);
      LocalKeepsInv(s, Step(s, id, o), id, k);
    case SavingRunning(k) =>
      AfterRunningSaveLocal(s, id, k, o);
      LocalKeepsInv(s, Step(s, id, o), id, k);
    case Executing(k) =>
      AfterExecutorLocal(s, id, k, o);
      LocalKeepsInv(s, Step(s, id, o), id, k);
    case FinalSave =>
      AfterLastSaveLocal(s, id, o);
      LocalKeepsInv(s, Step(s, id, o), id, |s.instances|);
    case CancelSave =>
      AfterLastSaveLocal(s, id, o);
      LocalKeepsInv(s, Step(s, id, o), id, |s.instances|);
    case _ =>
  }

  /** The semaphore a task is involved with; none is coded as the number of semaphores. */
  ghost function SemOf(s: State, id: string): nat
    requires id in s.tasks
  {
    match s.tasks[id].pc
    case WaitingPermit(k) => k
    case SavingRunning(k) => k
    case Executing(k) => k
    case _ => |s.instances|
  }

  lemma CancelTaskLocal(s: State, id: string)
    requires id in s.tasks && id in s.jobs && JobOk(s, id) && !s.tasks[id].pc.Submitting? && !s.tasks[id].pc.Done?
    requires SemOf(s, id) < |s.instances| ==> SemOk(s.instances[SemOf(s, id)].sem, s.tasks, SemOf(s, id), s.limit)
    ensures Local(s, CancelTask(s, id), id, SemOf(s, id))
  {
    var t := s.tasks[id].(mustCancel := true);
    var k := SemOf(s, id);
    if s.tasks[id].pc.WaitingPermit? {
      RevokeOk(s.instances[k].sem, s.tasks, k, s.limit, Position(s.instances[k].sem.waiters, id));
    } else if k < |s.instances| {
      HolderMoves(s.instances[k].sem, s.tasks, k, s.limit, id, t);
    }
  }

  lemma CancelTaskKeepsInv(s: State, id: string)
    requires Inv(s) && (id in s.tasks ==> !s.tasks[id].pc.Submitting?)
    ensures Inv(CancelTask(s, id))
  {
    if id in s.tasks && !s.tasks[id].pc.Done? {
      assert JobOk(s, id);
      CancelTaskLocal(s, id);
      LocalKeepsInv(s, CancelTask(s, id), id, SemOf(s, id));
    }
  }

  lemma MarkUserKeepsInv(s: State, id: string)
    requires Inv(s)
    ensures Inv(MarkUser(s, id))
    ensures MarkUser(s, id).(registry := s.registry) == s && MarkUser(s, id).registry.Keys == s.registry.Keys
  {
    var s' := MarkUser(s, id);
    assert s'.registry.Keys == s.registry.Keys;
    forall o | o in s'.tasks ensures JobOk(s', o) { assert JobOk(s, o); }
  }

  /** What asking a set of tasks to stop leaves of them. */
  ghost predicate AskedToStop(s: State, s': State, ids: set<string>) {
    && s'.limit == s.limit && s'.jobs == s.jobs && s'.rows == s.rows && s'.current == s.current
    && s'.registry.Keys == s.registry.Keys && s'.tasks.Keys == s.tasks.Keys
    && |s'.instances| == |s.instances|
    && forall o :: o in s.tasks ==>
         s'.tasks[o] == if o in ids && !s.tasks[o].pc.Done? then s.tasks[o].(mustCancel := true) else s.tasks[o]
  }

  /** Only the task's flag and its future change when a cancellation is requested. */
  lemma CancelTaskShape(s: State, id: string)
    ensures CancelTask(s, id) == s.(tasks := CancelTask(s, id).tasks, instances := CancelTask(s, id).instances)
    ensures |CancelTask(s, id).instances| == |s.instances|
    ensures CancelTask(s, id).tasks ==
            if id in s.tasks && !s.tasks[id].pc.Done? then s.tasks[id := s.tasks[id].(mustCancel := true)] else s.tasks
  {
  }

  lemma AskOne(s: State, s1: State, s2: State, ids: set<string>, id: string)
    requires AskedToStop(s, s1, ids)
    requires s2 == s1.(tasks := s2.tasks, instances := s2.instances, registry := s2.registry)
    requires s2.registry.Keys == s1.registry.Keys && |s2.instances| == |s1.instances|
    requires s2.tasks ==
             if id in s1.tasks && !s1.tasks[id].pc.Done? then s1.tasks[id := s1.tasks[id].(mustCancel := true)] else s1.tasks
    ensures AskedToStop(s, s2, ids + {id})
  {
    forall o | o in s.tasks
      ensures o in s2.tasks && s2.tasks[o] == if o in ids + {id} && !s.tasks[o].pc.Done? then s.tasks[o].(mustCancel := true) else s.tasks[o]
    {
      assert o in s1.tasks;
    }
  }

  lemma AskOneKeepsInv(s: State, id: string)
    requires Inv(s) && id in s.registry
    ensures Inv(CancelTask(MarkUser(s, id), id))
    ensures id in s.tasks && (s.tasks[id].pc.WaitingPermit? ==> s.tasks[id].pc.sem < |s.instances|)
    ensures CancelTask(MarkUser(s, id), id).registry.Keys == s.registry.Keys
  {
    assert JobOk(s, id);
    MarkUserKeepsInv(s, id);
    CancelTaskKeepsInv(MarkUser(s, id), id);
    CancelTaskShape(MarkUser(s, id), id);
  }

  /** A sweep asks every listed task to stop and touches nothing else. */
  lemma {:induction false} SweepAsks(s: State, order: seq<string>)
    ensures AskedToStop(s, SweepSteps(s, order), Elements(order))
  {
    if order != [] {
      var last := |order| - 1;
      SweepAsks(s, order[..last]);
      var s1 := SweepSteps(s, order[..last]);
      CancelTaskShape(MarkUser(s1, order[last]), order[last]);
      assert MarkUser(s1, order[last]).registry.Keys == s1.registry.Keys;
      AskOne(s, s1, SweepSteps(s, order), Elements(order[..last]), order[last]);
      assert order == order[..last] + [order[last]];
      assert Elements(order) == Elements(order[..last]) + {order[last]};
    }
  }

  lemma {:induction false} SweepKeepsInv(s: State, order: seq<string>)
    requires Inv(s) && forall i :: 0 <= i < |order| ==> order[i] in s.registry
    ensures Inv(SweepSteps(s, order))
  {
    if order != [] {
      var last := |order| - 1;
      var id := order[last];
      var s1 := SweepSteps(s, order[..last]);
      SweepKeepsInv(s, order[..last]);
      SweepKeepsRegistry(s, order[..last]);
      AskOneKeepsInv(s1, id);
      assert SweepSteps(s, order) == CancelTask(MarkUser(s1, id), id);
    }
  }

  lemma SweepKeepsRegistry(s: State, order: seq<string>)
    ensures forall id :: id in s.registry ==> id in SweepSteps(s, order).registry
  {
    SweepAsks(s, order);
    assert SweepSteps(s, order).registry.Keys == s.registry.Keys;
  }

  lemma SubmitKeepsInv(s: State, ev: Event)
    requires Inv(s) && Enabled(s, ev) && (ev.SubmitBegin? || ev.SubmitEnd?)
    ensures Inv(Next(s, ev))
  {
    if ev.SubmitEnd? { assert JobOk(s, ev.id); }
    LocalKeepsInv(s, Next(s, ev), ev.id, |s.instances|);
  }

  lemma NextKeepsInv(s: State, ev: Event)
    requires Inv(s) && Enabled(s, ev)
    ensures Inv(Next(s, ev))
  {
    match ev
    case SubmitBegin(_, _) => SubmitKeepsInv(s, ev);
    case SubmitEnd(_) => SubmitKeepsInv(s, ev);
    case TaskStep(id, o) => StepKeepsInv(s, id, o);
    case Cancel(id, now) =>
      if id in s.tasks { assert JobOk(s, id); }
      MarkUserKeepsInv(s, id);
      CancelTaskKeepsInv(MarkUser(s, id), id);
    case Sweep(e, order) =>
      ListedAreRegistered(s, e, order);
      SweepKeepsInv(s, order);
    case Discard(_) => EndKeepsInv(s, ev);
    case Restart(_) => EndKeepsInv(s, ev);
  }

  lemma ListedAreRegistered(s: State, e: string, order: seq<string>)
    requires Enumerates(order, RegisteredFor(s, e))
    ensures forall i :: 0 <= i < |order| ==> order[i] in s.registry
  {
    forall i | 0 <= i < |order| ensures order[i] in s.registry {
      assert order[i] in Elements(order);
      assert order[i] in RegisteredFor(s, e);
    }
  }

  lemma EndKeepsInv(s: State, ev: Event)
    requires Inv(s) && Enabled(s, ev) && (ev.Discard? || ev.Restart?)
    ensures Inv(Next(s, ev))
  {
    var s' := Next(s, ev);
    forall id | id in s'.tasks ensures JobOk(s', id) { assert JobOk(s, id); }
  }

  /** The invariant holds after every run, of any length and interleaving. */
  lemma {:induction false} RunKeepsInv(s: State, events: seq<Event>)
    requires Inv(s)
    ensures Inv(Run(s, events))
  {
    if events != [] {
      var last := |events| - 1;
      RunKeepsInv(s, events[..last]);
      var before := Run(s, events[..last]);
      if Enabled(before, events[last]) { NextKeepsInv(before, events[last]); }
    }
  }
}
