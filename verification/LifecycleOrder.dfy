/** Creation times: what makes the newest rows the newest. */
module LifecycleOrder {
  import opened Options
  import opened ExperimentStates
  import opened Lifecycle

  /** Every row was created at a moment of its own, and every operation's copy knows it. */
  ghost predicate TimesOk(s: State) {
    && (forall e :: e in s.rows ==> s.rows[e].createdAt < s.clock)
    && (forall e, f :: e in s.rows && f in s.rows && e != f ==> s.rows[e].createdAt != s.rows[f].createdAt)
    && (forall o :: o in s.ops ==> s.ops[o].id in s.rows && s.ops[o].local.createdAt == s.rows[s.ops[o].id].createdAt)
  }

  /** Rows stay, with their creation times; a new one is created now. */
  ghost predicate TimesKept(s: State, s': State) {
    && s.clock <= s'.clock
    && (forall e :: e in s.rows ==> e in s'.rows && s'.rows[e].createdAt == s.rows[e].createdAt)
    && (forall e :: e in s'.rows && e !in s.rows ==> s'.rows[e].createdAt == s.clock < s'.clock && s'.rows.Keys == s.rows.Keys + {e})
  }

  /** What a step does to its own row and copy. */
  ghost predicate KeepsTime(s: State, s': State, o: nat)
    requires o in s.ops
  {
    var id, t := s.ops[o].id, s.ops[o].local.createdAt;
    && s'.clock == s.clock + 1
    && (s'.rows == s.rows || (id in s'.rows && s'.rows == s.rows[id := s'.rows[id]] && s'.rows[id].createdAt == t))
    && (o in s'.ops ==> s'.ops == s.ops[o := s'.ops[o]] && s'.ops[o].id == id && s'.ops[o].local.createdAt == t)
    && (o !in s'.ops ==> s'.ops == s.ops - {o})
  }

  lemma StepKeepsTime(s: State, o: nat, oracle: Oracle)
    requires o in s.ops
    ensures KeepsTime(s, Step(s, o, oracle), o)
  {
    match s.ops[o].pc
    case Move(_, _) => MoveKeepsTime(s, o, oracle);
    case FailSave(_) => EndKeepsTime(s, o, oracle);
    case FailCleanup => EndKeepsTime(s, o, oracle);
    case TearDown => EndKeepsTime(s, o, oracle);
    case AwaitJob(_) => EndKeepsTime(s, o, oracle);
    case Log(_, _) => LogKeepsTime(s, o, oracle);
    case Provision => ProvisionKeepsTime(s, o, oracle);
    case _ => OtherKeepsTime(s, o, oracle);
  }

  lemma LogKeepsTime(s: State, o: nat, oracle: Oracle)
    requires o in s.ops && s.ops[o].pc.Log?
    ensures KeepsTime(s, Step(s, o, oracle), o)
  {
  }

  lemma ProvisionKeepsTime(s: State, o: nat, oracle: Oracle)
    requires o in s.ops && s.ops[o].pc.Provision?
    ensures KeepsTime(s, Step(s, o, oracle), o)
  {
  }

  lemma EndKeepsTime(s: State, o: nat, oracle: Oracle)
    requires o in s.ops
    requires s.ops[o].pc.FailSave? || s.ops[o].pc.FailCleanup? || s.ops[o].pc.TearDown? || s.ops[o].pc.AwaitJob?
    ensures KeepsTime(s, Step(s, o, oracle), o)
  {
  }

  lemma MoveKeepsTime(s: State, o: nat, oracle: Oracle)
    requires o in s.ops && s.ops[o].pc.Move?
    ensures KeepsTime(s, Step(s, o, oracle), o)
  {
  }

  lemma OtherKeepsTime(s: State, o: nat, oracle: Oracle)
    requires o in s.ops && !s.ops[o].pc.Move? && !s.ops[o].pc.AwaitJob? && !s.ops[o].pc.Log? && !s.ops[o].pc.Provision?
    requires !s.ops[o].pc.FailSave? && !s.ops[o].pc.FailCleanup? && !s.ops[o].pc.TearDown?
    ensures KeepsTime(s, Step(s, o, oracle), o)
  {
  }

  lemma NextKeepsTimes(s: State, ev: Event)
    requires TimesOk(s) && Enabled(s, ev)
    ensures TimesOk(Next(s, ev)) && TimesKept(s, Next(s, ev))
  {
    match ev
    case OpStep(o, oracle) =>
      StepKeepsTime(s, o, oracle);
      OwnStepKeepsTimes(s, Next(s, ev), o);
    case StartCreate(o, id, hasSetup) => CreateKeepsTimes(s, o, id, hasSetup);
    case StartExecute(_, _, _) => StartKeepsTimes(s, ev);
    case StartDestroy(_, _) => StartKeepsTimes(s, ev);
    case _ =>
  }

  lemma OwnStepKeepsTimes(s: State, s': State, o: nat)
    requires TimesOk(s) && o in s.ops && KeepsTime(s, s', o)
    ensures TimesOk(s') && TimesKept(s, s')
  {
    assert s'.rows.Keys == s.rows.Keys;
  }

  lemma CreateKeepsTimes(s: State, o: nat, id: string, hasSetup: bool)
    requires TimesOk(s) && Enabled(s, StartCreate(o, id, hasSetup))
    ensures TimesOk(Next(s, StartCreate(o, id, hasSetup))) && TimesKept(s, Next(s, StartCreate(o, id, hasSetup)))
  {
    assert Next(s, StartCreate(o, id, hasSetup)).rows == s.rows[id := NewExperiment(hasSetup, s.clock)];
  }

  lemma StartKeepsTimes(s: State, ev: Event)
    requires TimesOk(s) && Enabled(s, ev) && (ev.StartExecute? || ev.StartDestroy?)
    ensures TimesOk(Next(s, ev)) && TimesKept(s, Next(s, ev))
  {
  }

  lemma {:induction false} RunKeepsTimes(maxLive: nat, events: seq<Event>)
    ensures TimesOk(Run(Init(maxLive), events))
  {
    if events != [] {
      RunKeepsTimes(maxLive, events[..|events| - 1]);
      var before, ev := Run(Init(maxLive), events[..|events| - 1]), events[|events| - 1];
      if Enabled(before, ev) { NextKeepsTimes(before, ev); }
    }
  }

  /** A row that was there while another was not is the older one. */
  lemma {:induction false} EarlierIsOlder(maxLive: nat, events: seq<Event>, n: nat, e: string, f: string)
    requires n <= |events| && e in Run(Init(maxLive), events[..n]).rows && f !in Run(Init(maxLive), events[..n]).rows
    ensures var s := Run(Init(maxLive), events); e in s.rows && (f in s.rows ==> s.rows[e].createdAt < s.rows[f].createdAt)
  {
    if n == |events| {
      assert events[..n] == events;
    } else {
      var earlier := events[..|events| - 1];
      assert earlier[..n] == events[..n];
      EarlierIsOlder(maxLive, earlier, n, e, f);
      RunKeepsTimes(maxLive, earlier);
      var before, ev := Run(Init(maxLive), earlier), events[|events| - 1];
      if Enabled(before, ev) { NextKeepsTimes(before, ev); }
    }
  }

  /** Of two rows one was there first. */
  lemma {:induction false} OneWasFirst(maxLive: nat, events: seq<Event>, e: string, f: string) returns (n: nat)
    requires var s := Run(Init(maxLive), events); e in s.rows && f in s.rows && e != f
    ensures n < |events|
    ensures var s := Run(Init(maxLive), events[..n]); e in s.rows <==> f !in s.rows
  {
    var earlier := events[..|events| - 1];
    var before, ev := Run(Init(maxLive), earlier), events[|events| - 1];
    RunKeepsTimes(maxLive, earlier);
    if Enabled(before, ev) { NextKeepsTimes(before, ev); }
    if e in before.rows && f in before.rows {
      n := OneWasFirst(maxLive, earlier, e, f);
      assert earlier[..n] == events[..n];
    } else {
      n := |earlier|;
    }
  }

  /** In every run creation times are distinct and follow the order of the creates: one row is older than another exactly if at
      some moment it was there and the other was not. */
  lemma CreatedInOrder(maxLive: nat, events: seq<Event>, e: string, f: string)
    requires var s := Run(Init(maxLive), events); e in s.rows && f in s.rows && e != f
    ensures var s := Run(Init(maxLive), events);
            && s.rows[e].createdAt != s.rows[f].createdAt
            && (s.rows[e].createdAt < s.rows[f].createdAt <==>
                  exists n :: 0 <= n < |events| && e in Run(Init(maxLive), events[..n]).rows && f !in Run(Init(maxLive), events[..n]).rows)
  {
    RunKeepsTimes(maxLive, events);
    var n := OneWasFirst(maxLive, events, e, f);
    if e in Run(Init(maxLive), events[..n]).rows {
      EarlierIsOlder(maxLive, events, n, e, f);
    } else {
      EarlierIsOlder(maxLive, events, n, f, e);
    }
    if m :| 0 <= m < |events| && e in Run(Init(maxLive), events[..m]).rows && f !in Run(Init(maxLive), events[..m]).rows {
      EarlierIsOlder(maxLive, events, m, e, f);
    }
  }
}
