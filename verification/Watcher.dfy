/**
 * watchContext as a transition system: the goroutine that watches a context, the stop function that
 * waits for it, and the deadline of the one connection they share.
 *
 * A session uses one watcher after another, each with its own context.
 */
module Watchers {

  /** The connection's deadline: none, a context's own, or one that interrupts pending I/O at once. */
  datatype Deadline = Clear | Timed | Immediate

  /** A watcher goroutine. */
  datatype Watcher =
    | Selecting  // select on ctx.Done and stop
    | Firing     // chose ctx.Done, about to set an immediate deadline
    | Closing    // about to close stopped
    | Exited

  /** The user of the connection. */
  datatype User =
    | Idle       // no watcher: before watchContext, or after its stop function returned
    | Setting    // in watchContext, deadline set, goroutine not started
    | Using      // doing I/O under the latest watcher
    | Waiting    // in the stop function, after close(stop)
    | Clearing   // received from stopped, about to clear the deadline

  datatype State = State(
    user: User,
    watchers: seq<Watcher>,  // every watcher started so far, the latest last
    ended: bool,             // the context last given to watchContext is done
    stop: bool,              // the latest watcher's stop channel is closed
    deadline: Deadline)

  function Init(): State {
    State(Idle, [], false, false, Clear)
  }

  datatype Step =
    | SetDeadline            // watchContext gives the connection the context's deadline
    | RefuseDeadline         // ... or cannot, and returns an error
    | Start                  // the goroutine starts and watchContext returns
    | EndContext             // cancellation or timeout, at any time, also after the stop function returned
    | CloseStop
    | Stopped                // the receive from stopped returns
    | ClearDeadline          // the stop function returns
    | ChooseDone(i: nat)
    | ChooseStop(i: nat)
    | Fire(i: nat)
    | CloseStopped(i: nat)

  /** A step of watcher goroutine `i`. */
  predicate ByWatcher(t: Step) {
    t.ChooseDone? || t.ChooseStop? || t.Fire? || t.CloseStopped?
  }

  predicate Latest(s: State, i: nat) {
    i + 1 == |s.watchers|
  }

  predicate Enabled(s: State, t: Step) {
    match t
    case SetDeadline => s.user.Idle?
    case RefuseDeadline => s.user.Idle?
    case Start => s.user.Setting?
    case EndContext => true
    case CloseStop => s.user.Using?
    case Stopped => s.user.Waiting? && s.watchers != [] && s.watchers[|s.watchers| - 1].Exited?
    case ClearDeadline => s.user.Clearing?
    // The contexts and stop channels of earlier watchers are done and closed.
    case ChooseDone(i) => i < |s.watchers| && s.watchers[i].Selecting? && (s.ended || !Latest(s, i))
    case ChooseStop(i) => i < |s.watchers| && s.watchers[i].Selecting? && (s.stop || !Latest(s, i))
    case Fire(i) => i < |s.watchers| && s.watchers[i].Firing?
    case CloseStopped(i) => i < |s.watchers| && s.watchers[i].Closing?
  }

  function Apply(s: State, t: Step): State
    requires Enabled(s, t)
  {
    match t
    case SetDeadline => s.(user := Setting, deadline := Timed, ended := false)
    case RefuseDeadline => s
    case Start => s.(user := Using, watchers := s.watchers + [Selecting], stop := false)
    case EndContext => s.(ended := true)
    case CloseStop => s.(user := Waiting, stop := true)
    case Stopped => s.(user := Clearing)
    case ClearDeadline => s.(user := Idle, deadline := Clear)
    case ChooseDone(i) => s.(watchers := s.watchers[i := Firing])
    case ChooseStop(i) => s.(watchers := s.watchers[i := Closing])
    case Fire(i) => s.(watchers := s.watchers[i := Closing], deadline := Immediate)
    case CloseStopped(i) => s.(watchers := s.watchers[i := Exited])
  }

  ghost predicate IsRun(s: State, run: seq<Step>)
    decreases |run|
  {
    run == [] || (Enabled(s, run[0]) && IsRun(Apply(s, run[0]), run[1..]))
  }

  ghost function After(s: State, run: seq<Step>): State
    requires IsRun(s, run)
    decreases |run|
  {
    if run == [] then s else After(Apply(s, run[0]), run[1..])
  }

  ghost predicate Reachable(s: State) {
    exists run :: IsRun(Init(), run) && After(Init(), run) == s
  }

  // --- The invariant ----------------------------------------------------------------------------------

  /** Earlier watchers have exited; the latest one has too unless the user is between start and stop; and
      outside that window nothing but watchContext has touched the deadline. */
  ghost predicate Inv(s: State) {
    && (forall i :: 0 <= i < |s.watchers| - 1 ==> s.watchers[i].Exited?)
    && (s.user.Using? || s.user.Waiting? || s.user.Clearing? ==> s.watchers != [])
    && (s.watchers != [] && !s.user.Using? && !s.user.Waiting? ==> s.watchers[|s.watchers| - 1].Exited?)
    && (s.user.Waiting? ==> s.stop)
    && (s.user.Idle? ==> s.deadline.Clear?)
    && (s.user.Setting? ==> s.deadline.Timed?)
    && (s.user.Using? ==> UsingInv(s))
  }

  /** During I/O: the watcher leaves its select only because the context ended, and then interrupts the I/O. */
  ghost predicate UsingInv(s: State) {
    && s.watchers != []
    && !s.stop
    && var w := s.watchers[|s.watchers| - 1];
       && (w.Firing? ==> s.ended)
       && (w.Closing? || w.Exited? <==> s.deadline.Immediate?)
       && (s.deadline.Immediate? ==> s.ended)
       && (s.deadline.Immediate? || s.deadline.Timed?)
  }

  lemma StepKeepsInv(s: State, t: Step)
    requires Inv(s) && Enabled(s, t)
    ensures Inv(Apply(s, t))
  {
  }

  lemma {:induction false} RunKeepsInv(s: State, run: seq<Step>)
    requires Inv(s) && IsRun(s, run)
    ensures Inv(After(s, run))
    decreases |run|
  {
    if run != [] {
      StepKeepsInv(s, run[0]);
      RunKeepsInv(Apply(s, run[0]), run[1..]);
    }
  }

  lemma ReachableInv(s: State)
    requires Reachable(s)
    ensures Inv(s)
  {
    var run :| IsRun(Init(), run) && After(Init(), run) == s;
    RunKeepsInv(Init(), run);
  }

  // --- No late cancellation -----------------------------------------------------------------------------

  /** At most one watcher goroutine is live, and only while watchContext's result has not been stopped. */
  lemma AtMostOneLive(s: State, i: nat, j: nat)
    requires Reachable(s) && i < |s.watchers| && j < |s.watchers|
    requires !s.watchers[i].Exited? && !s.watchers[j].Exited?
    ensures i == j && (s.user.Using? || s.user.Waiting?)
  {
    ReachableInv(s);
  }

  lemma {:induction false} RunsCompose(s: State, run: seq<Step>, more: seq<Step>)
    requires IsRun(s, run) && IsRun(After(s, run), more)
    ensures IsRun(s, run + more) && After(s, run + more) == After(After(s, run), more)
    decreases |run|
  {
    if run == [] {
      assert run + more == more;
    } else {
      assert (run + more)[1..] == run[1..] + more;
      RunsCompose(Apply(s, run[0]), run[1..], more);
    }
  }

  lemma ReachableStep(s: State, t: Step)
    requires Reachable(s) && Enabled(s, t)
    ensures Reachable(Apply(s, t))
  {
    var run :| IsRun(Init(), run) && After(Init(), run) == s;
    var one := [t];
    assert one[1..] == [];
    assert IsRun(s, one);
    assert After(s, one) == After(Apply(s, t), one[1..]) == Apply(s, t);
    RunsCompose(Init(), run, one);
  }

  /** Once stop has returned, every watcher has exited and the deadline is clear; and it stays clear until
      watchContext is called again, although the watched context may end at any time from then on. */
  lemma {:induction false} NoLateCancellation(s: State, run: seq<Step>)
    requires Reachable(s) && s.user.Idle? && IsRun(s, run)
    requires SetDeadline !in run
    ensures forall i :: 0 <= i < |s.watchers| ==> s.watchers[i].Exited?
    ensures var s' := After(s, run);
      s'.user.Idle? && s'.watchers == s.watchers && s.deadline == s'.deadline == Clear
    decreases |run|
  {
    ReachableInv(s);
    if run != [] {
      assert !ByWatcher(run[0]);
      ReachableStep(s, run[0]);
      NoLateCancellation(Apply(s, run[0]), run[1..]);
    }
  }

  // --- Interruption ---------------------------------------------------------------------------------------

  /** Steps the latest watcher still has to take. */
  function WatcherWork(w: Watcher): nat {
    match w
    case Selecting => 3
    case Firing => 2
    case Closing => 1
    case Exited => 0
  }

  /** I/O is interrupted only after the context ended. */
  lemma InterruptedOnlyAfterEnd(s: State)
    requires Reachable(s) && s.user.Using? && s.deadline.Immediate?
    ensures s.ended
  {
    ReachableInv(s);
  }

  /** Until then I/O runs under the context's own deadline. */
  lemma DeadlineDuringIO(s: State)
    requires Reachable(s) && s.user.Using?
    ensures s.deadline.Timed? || s.deadline.Immediate?
    ensures !s.ended ==> s.deadline.Timed?
  {
    ReachableInv(s);
  }

  /** Once the context ended during I/O, the watcher can move until it has interrupted the I/O, and each of its
      moves brings that closer: two of them are enough. */
  lemma EndInterrupts(s: State)
    requires Reachable(s) && s.user.Using? && s.ended && !s.deadline.Immediate?
    ensures s.watchers != [] && WatcherWork(s.watchers[|s.watchers| - 1]) >= 2
    ensures exists t :: Enabled(s, t) && ByWatcher(t)
    ensures forall t :: Enabled(s, t) && ByWatcher(t) ==>
              var s' := Apply(s, t);
              && s'.user.Using? && s'.ended && |s'.watchers| == |s.watchers|
              && WatcherWork(s'.watchers[|s.watchers| - 1]) < WatcherWork(s.watchers[|s.watchers| - 1])
              && (WatcherWork(s'.watchers[|s.watchers| - 1]) < 2 ==> s'.deadline.Immediate?)
    ensures forall t :: Enabled(s, t) && t.EndContext? ==> Apply(s, t) == s
  {
    ReachableInv(s);
    var last := |s.watchers| - 1;
    if s.watchers[last].Selecting? {
      assert Enabled(s, ChooseDone(last));
    } else {
      assert Enabled(s, Fire(last));
    }
  }

  // --- The stop function returns --------------------------------------------------------------------------

  /** Steps until the stop function returns. */
  function StopWork(s: State): nat {
    if s.user.Clearing? then 1
    else if s.user.Waiting? && s.watchers != [] then 2 + WatcherWork(s.watchers[|s.watchers| - 1])
    else 0
  }

  /** The stop function never hangs: until it returns, the watcher or the user can move, each such move
      brings the return closer, and the context's end does not put it off. */
  lemma StopReturns(s: State)
    requires Reachable(s) && (s.user.Waiting? || s.user.Clearing?)
    ensures exists t :: Enabled(s, t) && !t.EndContext?
    ensures forall t :: Enabled(s, t) && !t.EndContext? ==> StopWork(Apply(s, t)) < StopWork(s)
    ensures forall t :: Enabled(s, t) && t.EndContext? ==> StopWork(Apply(s, t)) == StopWork(s)
  {
    ReachableInv(s);
    var last := |s.watchers| - 1;
    if s.user.Clearing? {
      assert Enabled(s, ClearDeadline);
    } else {
      match s.watchers[last]
      case Selecting => assert Enabled(s, ChooseStop(last));
      case Firing => assert Enabled(s, Fire(last));
      case Closing => assert Enabled(s, CloseStopped(last));
      case Exited => assert Enabled(s, Stopped);
    }
  }
}
