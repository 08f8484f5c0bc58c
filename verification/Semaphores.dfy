/** The counting semaphore that caps a single experiment's jobs (asyncio.Semaphore of Python 3.12), on values.

    A waiter suspended in acquire owns a future.  The future is either still pending, granted a permit that its owner has
    not picked up yet, or cancelled.  The permit is taken out of `value` when it is granted, not when its owner resumes. */
module Semaphores {

  datatype Future = Pending | Granted | Revoked

  datatype Waiter = Waiter(owner: string, fut: Future)

  datatype Semaphore = Semaphore(value: nat, waiters: seq<Waiter>)

  /** Acquiring would suspend: no permit is free, or somebody is already in line. */
  predicate Locked(s: Semaphore) {
    s.value == 0 || exists i :: 0 <= i < |s.waiters| && s.waiters[i].fut != Revoked
  }

  predicate HasPending(ws: seq<Waiter>) {
    exists i :: 0 <= i < |ws| && ws[i].fut.Pending?
  }

  predicate HasGranted(ws: seq<Waiter>) {
    exists i :: 0 <= i < |ws| && ws[i].fut.Granted?
  }

  predicate DistinctOwners(ws: seq<Waiter>) {
    forall i, j :: 0 <= i < j < |ws| ==> ws[i].owner != ws[j].owner
  }

  /** Position of the first waiter that is not done. */
  function FirstPending(ws: seq<Waiter>): (i: nat)
    requires HasPending(ws)
    ensures i < |ws| && ws[i].fut.Pending?
    ensures forall j :: 0 <= j < i ==> !ws[j].fut.Pending?
  {
    if ws[0].fut.Pending? then 0 else
      assert forall j :: 1 <= j < |ws| ==> ws[j] == ws[1..][j - 1];
      1 + FirstPending(ws[1..])
  }

  /** Hand one free permit to the first waiter in line, if there is one. */
  function WakeUpNext(s: Semaphore): Semaphore
    requires s.value > 0
  {
    if HasPending(s.waiters) then
      var i := FirstPending(s.waiters);
      Semaphore(s.value - 1, s.waiters[i := s.waiters[i].(fut := Granted)])
    else s
  }

  function Take(s: Semaphore): Semaphore
    requires !Locked(s)
  {
    s.(value := s.value - 1)
  }

  function Enqueue(s: Semaphore, owner: string): Semaphore {
    s.(waiters := s.waiters + [Waiter(owner, Pending)])
  }

  function Release(s: Semaphore): Semaphore {
    WakeUpNext(s.(value := s.value + 1))
  }

  function Remove(ws: seq<Waiter>, i: nat): seq<Waiter>
    requires i < |ws|
  {
    ws[..i] + ws[i + 1..]
  }

  /** The i-th waiter resumes normally, holding the permit it was granted. */
  function Resume(s: Semaphore, i: nat): Semaphore
    requires i < |s.waiters|
  {
    var rest := s.(waiters := Remove(s.waiters, i));
    if rest.value > 0 then WakeUpNext(rest) else rest
  }

  /** The i-th waiter resumes with a cancellation; a permit it was granted goes back and on to the next in line. */
  function Abandon(s: Semaphore, i: nat): Semaphore
    requires i < |s.waiters|
  {
    var rest := s.(waiters := Remove(s.waiters, i));
    if s.waiters[i].fut.Revoked? then rest else WakeUpNext(rest.(value := rest.value + 1))
  }

  /** Cancelling the i-th waiter's future; a future that is already done stays as it is. */
  function Revoke(s: Semaphore, i: nat): Semaphore
    requires i < |s.waiters|
  {
    if s.waiters[i].fut.Pending? then s.(waiters := s.waiters[i := s.waiters[i].(fut := Revoked)]) else s
  }

  // --- Conservation ---------------------------------------------------------------------------------------------

  function GrantCount(ws: seq<Waiter>): nat {
    if ws == [] then 0 else (if ws[0].fut.Granted? then 1 else 0) + GrantCount(ws[1..])
  }

  /** Permits that no running job holds: the free ones and those granted but not picked up. */
  function Supply(s: Semaphore): nat {
    s.value + GrantCount(s.waiters)
  }

  lemma {:induction false} GrantCountAppend(a: seq<Waiter>, b: seq<Waiter>)
    ensures GrantCount(a + b) == GrantCount(a) + GrantCount(b)
  {
    if a == [] {
      assert a + b == b;
    } else {
      assert (a + b)[1..] == a[1..] + b;
      GrantCountAppend(a[1..], b);
    }
  }

  lemma GrantCountSplit(ws: seq<Waiter>, i: nat)
    requires i < |ws|
    ensures GrantCount(ws) == GrantCount(Remove(ws, i)) + (if ws[i].fut.Granted? then 1 else 0)
  {
    var before, one, after := ws[..i], [ws[i]], ws[i + 1..];
    assert ws == before + (one + after);
    GrantCountAppend(before, one + after);
    GrantCountAppend(one, after);
    GrantCountAppend(before, after);
    GrantCountOne(ws[i]);
  }

  lemma GrantCountOne(w: Waiter)
    ensures GrantCount([w]) == if w.fut.Granted? then 1 else 0
  {
    assert [w][1..] == [];
  }

  lemma GrantCountUpdate(ws: seq<Waiter>, i: nat, w: Waiter)
    requires i < |ws|
    ensures GrantCount(ws[i := w]) ==
            GrantCount(ws) - (if ws[i].fut.Granted? then 1 else 0) + (if w.fut.Granted? then 1 else 0)
  {
    GrantCountSplit(ws, i);
    GrantCountSplit(ws[i := w], i);
    assert Remove(ws, i) == Remove(ws[i := w], i);
  }

  lemma {:induction false} GrantCountPositive(ws: seq<Waiter>)
    ensures GrantCount(ws) > 0 <==> HasGranted(ws)
  {
    if ws != [] {
      GrantCountPositive(ws[1..]);
      assert forall j :: 1 <= j < |ws| ==> ws[j] == ws[1..][j - 1];
      if HasGranted(ws[1..]) {
        var j :| 0 <= j < |ws[1..]| && ws[1..][j].fut.Granted?;
        assert ws[j + 1].fut.Granted?;
      }
    }
  }

  lemma WakeUpNextSupply(s: Semaphore)
    requires s.value > 0
    ensures Supply(WakeUpNext(s)) == Supply(s)
  {
    if HasPending(s.waiters) {
      var i := FirstPending(s.waiters);
      GrantCountUpdate(s.waiters, i, s.waiters[i].(fut := Granted));
    }
  }

  /** Every operation moves exactly the permits it should: acquiring takes one, releasing returns one, a waiter that
      resumes takes the one it was granted, and lining up, being revoked or giving up moves none. */
  lemma Conservation(s: Semaphore, owner: string, i: nat)
    ensures !Locked(s) ==> Supply(Take(s)) == Supply(s) - 1
    ensures Supply(Release(s)) == Supply(s) + 1
    ensures Supply(Enqueue(s, owner)) == Supply(s)
    ensures i < |s.waiters| ==> Supply(Revoke(s, i)) == Supply(s)
    ensures i < |s.waiters| && s.waiters[i].fut.Granted? ==> Supply(Resume(s, i)) == Supply(s) - 1
    ensures i < |s.waiters| && !s.waiters[i].fut.Pending? ==> Supply(Abandon(s, i)) == Supply(s)
  {
    WakeUpNextSupply(s.(value := s.value + 1));
    GrantCountAppend(s.waiters, [Waiter(owner, Pending)]);
    if i < |s.waiters| {
      var rest := s.(waiters := Remove(s.waiters, i));
      GrantCountSplit(s.waiters, i);
      GrantCountUpdate(s.waiters, i, s.waiters[i].(fut := Revoked));
      WakeUpNextSupply(rest.(value := rest.value + 1));
      if rest.value > 0 { WakeUpNextSupply(rest); }
    }
  }

  // --- No lost wake-up ------------------------------------------------------------------------------------------

  /** Whenever a permit is free and somebody waits, a granted waiter is about to resume and pass the turn on. */
  predicate NoLostWakeup(s: Semaphore) {
    s.value > 0 && HasPending(s.waiters) ==> HasGranted(s.waiters)
  }

  lemma WakeUpNextGrants(s: Semaphore)
    requires s.value > 0
    ensures NoLostWakeup(WakeUpNext(s))
  {
    if HasPending(s.waiters) {
      var i := FirstPending(s.waiters);
      assert WakeUpNext(s).waiters[i].fut.Granted?;
    }
  }

  lemma NoLostWakeupKept(s: Semaphore, owner: string, i: nat)
    requires NoLostWakeup(s)
    ensures !Locked(s) ==> NoLostWakeup(Take(s))
    ensures NoLostWakeup(Release(s))
    ensures Locked(s) ==> NoLostWakeup(Enqueue(s, owner))
    ensures i < |s.waiters| ==> NoLostWakeup(Revoke(s, i))
    ensures i < |s.waiters| && s.waiters[i].fut.Granted? ==> NoLostWakeup(Resume(s, i))
    ensures i < |s.waiters| && !s.waiters[i].fut.Pending? ==> NoLostWakeup(Abandon(s, i))
  {
    WakeUpNextGrants(s.(value := s.value + 1));
    if Locked(s) && s.value > 0 {
      var j :| 0 <= j < |s.waiters| && s.waiters[j].fut != Revoked;
      assert HasPending(s.waiters) || HasGranted(s.waiters);
      var g :| 0 <= g < |s.waiters| && s.waiters[g].fut.Granted?;
      assert Enqueue(s, owner).waiters[g].fut.Granted?;
    }
    if i < |s.waiters| {
      var rest := s.(waiters := Remove(s.waiters, i));
      RevokeKeeps(s, i);
      if rest.value > 0 { WakeUpNextGrants(rest); }
      WakeUpNextGrants(rest.(value := rest.value + 1));
      if s.waiters[i].fut.Revoked? { DropRevokedKeeps(s, i); }
    }
  }

  lemma RevokeKeeps(s: Semaphore, i: nat)
    requires NoLostWakeup(s) && i < |s.waiters|
    ensures NoLostWakeup(Revoke(s, i))
  {
    if s.value > 0 && HasPending(Revoke(s, i).waiters) {
      var p :| 0 <= p < |s.waiters| && Revoke(s, i).waiters[p].fut.Pending?;
      assert s.waiters[p].fut.Pending?;
      var g :| 0 <= g < |s.waiters| && s.waiters[g].fut.Granted?;
      assert Revoke(s, i).waiters[g].fut.Granted?;
    }
  }

  lemma DropRevokedKeeps(s: Semaphore, i: nat)
    requires NoLostWakeup(s) && i < |s.waiters| && s.waiters[i].fut.Revoked?
    ensures NoLostWakeup(s.(waiters := Remove(s.waiters, i)))
  {
    var rest := Remove(s.waiters, i);
    if s.value > 0 && HasPending(rest) {
      var p :| 0 <= p < |rest| && rest[p].fut.Pending?;
      assert s.waiters[if p < i then p else p + 1] == rest[p];
      var g :| 0 <= g < |s.waiters| && s.waiters[g].fut.Granted?;
      assert rest[if g < i then g else g - 1] == s.waiters[g];
    }
  }
}
