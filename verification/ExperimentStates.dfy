/** The experiment state machine's table. */
module ExperimentStates {
  import opened Options
  import Jobs

  datatype Status = CREATING | READY | RUNNING | COMPLETED | FAILED | TIMEOUT | CANCELLED | DESTROYED

  function Transitions(from: Status): set<Status> {
    match from
    case CREATING => {READY, FAILED, DESTROYED}
    case READY => {RUNNING, COMPLETED, FAILED, CANCELLED, DESTROYED}
    case RUNNING => {READY, COMPLETED, FAILED, TIMEOUT, CANCELLED, DESTROYED}
    case COMPLETED => {RUNNING, DESTROYED}
    case FAILED => {RUNNING, DESTROYED}
    case TIMEOUT => {RUNNING, DESTROYED}
    case CANCELLED => {RUNNING, DESTROYED}
    case DESTROYED => {}
  }

  /** LIVE_STATES: past creation and not destroyed. */
  predicate Live(s: Status) {
    s in {READY, RUNNING, COMPLETED, FAILED, TIMEOUT, CANCELLED}
  }

  predicate CanTransition(current: Status, target: Status) {
    target in Transitions(current)
  }

  /** assert_transition raises unless this holds; staying put is always accepted. */
  predicate Accepted(current: Status, target: Status) {
    current == target || CanTransition(current, target)
  }

  /** _settle: where an experiment goes once its foreground job is over. */
  function SettleTarget(status: Jobs.JobStatus, exitCode: Option<int>): Status {
    match status
    case COMPLETED => if exitCode == Some(0) then READY else FAILED
    case TIMEOUT => TIMEOUT
    case CANCELLED => CANCELLED
    case FAILED => FAILED
    case _ => READY
  }

  /** Settling says how the job ended: READY exactly for a clean exit, TIMEOUT and CANCELLED exactly for those, FAILED for the
      rest, and always by a move the table allows from RUNNING. */
  lemma SettlingIsFaithful(status: Jobs.JobStatus, exitCode: Option<int>)
    requires status.Terminal()
    ensures SettleTarget(status, exitCode) == READY <==> status == Jobs.COMPLETED && exitCode == Some(0)
    ensures SettleTarget(status, exitCode) == TIMEOUT <==> status == Jobs.TIMEOUT
    ensures SettleTarget(status, exitCode) == CANCELLED <==> status == Jobs.CANCELLED
    ensures SettleTarget(status, exitCode) in {READY, FAILED, TIMEOUT, CANCELLED}
    ensures CanTransition(RUNNING, SettleTarget(status, exitCode))
  {
  }

  /** The table in words: everything can be destroyed once, nothing is created twice; a creation succeeds or fails; a READY
      experiment runs, completes, fails or is cancelled; a RUNNING one goes anywhere; one that is over only runs again. */
  lemma TableInWords(a: Status, b: Status)
    ensures CanTransition(a, b) <==>
            && a != DESTROYED && b != CREATING
            && (|| b == DESTROYED
                || (a == CREATING && b in {READY, FAILED})
                || (a == READY && b in {RUNNING, COMPLETED, FAILED, CANCELLED})
                || (a == RUNNING && b != RUNNING)
                || (a in {COMPLETED, FAILED, TIMEOUT, CANCELLED} && b == RUNNING))
  {
  }

  /** A walk along the table, as pairs of states. */
  ghost predicate Reachable(from: Status, to: Status, steps: seq<Status>)
    decreases |steps|
  {
    if steps == [] then from == to
    else CanTransition(from, steps[0]) && Reachable(steps[0], to, steps[1..])
  }

  /** The table never leads out of DESTROYED and never back into CREATING. */
  lemma {:induction false} TableEnds(from: Status, to: Status, steps: seq<Status>)
    ensures Reachable(DESTROYED, to, steps) ==> to == DESTROYED && steps == []
    ensures Reachable(from, CREATING, steps) ==> from == CREATING && steps == []
    decreases |steps|
  {
    if steps != [] {
      TableEnds(steps[0], to, steps[1..]);
    }
  }

  /** From a live state every state but CREATING can be reached, in at most two moves. */
  lemma TableReaches(from: Status, to: Status) returns (steps: seq<Status>)
    requires Live(from) && to != CREATING
    ensures Reachable(from, to, steps) && |steps| <= 2
  {
    if from == to {
      steps := [];
    } else if CanTransition(from, to) {
      steps := [to];
      assert Reachable(to, to, steps[1..]);
    } else {
      steps := [RUNNING, to];
      assert steps[1..] == [to] && [to][1..] == [];
      assert Reachable(to, to, []);
      assert Reachable(RUNNING, to, [to]);
    }
  }
}
