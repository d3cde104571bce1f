/** The pool's one client: a single call of Next, followed by Close. */
module DialFirst {
  import opened PoolModel
  import opened PoolMeters
  import opened PoolInvariants
  import opened PoolRuns
  import opened PoolTheorems
  import opened PoolProgress
  import opened PoolExhaustion
  import opened PoolCompletion

  /** No further call of Next or Close; the context may still end. */
  ghost predicate NoCalls(run: seq<Step>) {
    forall i :: 0 <= i < |run| ==> !run[i].CallNext? && !run[i].CallClose?
  }

  lemma NextKeepsCalls(s: State, i: nat)
    requires NextEnabled(s, i)
    ensures |DoNext(s, i).callers| == |s.callers| && DoNext(s, i).closer == s.closer
  {
  }

  lemma CloseKeepsCalls(s: State)
    requires CloseEnabled(s)
    ensures DoClose(s).callers == s.callers && !DoClose(s).closer.NotCalled?
  {
  }

  lemma StepKeepsCalls(c: Config, s: State, t: Step)
    requires Enabled(c, s, t) && !t.CallNext? && !t.CallClose?
    ensures |Apply(c, s, t).callers| == |s.callers|
    ensures Apply(c, s, t).closer.NotCalled? <==> s.closer.NotCalled?
  {
    hide DoWork, DoDeliver, DoCollect, DoNext, DoClose;
    match t
    case Work(w, act) => WorkKeepsCalls(s, w, act);
    case Deliver(w) => DeliverKeepsCalls(s, w);
    case Collect(act) => CollectKeepsCalls(c, s, act);
    case Next(i) => NextKeepsCalls(s, i);
    case Close => CloseKeepsCalls(s);
    case Offer(_) =>
    case StopFeeding =>
    case CloseResults =>
    case Cancel =>
  }

  lemma {:induction false} RunKeepsCalls(c: Config, s: State, run: seq<Step>)
    requires IsRun(c, s, run) && NoCalls(run)
    ensures |PoolModel.After(c, s, run).callers| == |s.callers|
    ensures PoolModel.After(c, s, run).closer.NotCalled? <==> s.closer.NotCalled?
    decreases |run|
  {
    if run != [] {
      StepKeepsCalls(c, s, run[0]);
      RunKeepsCalls(c, Apply(c, s, run[0]), run[1..]);
    }
  }

  lemma InitIsReachable(c: Config)
    ensures Reachable(c, Init(c))
  {
    assert IsRun(c, Init(c), []) && PoolModel.After(c, Init(c), []) == Init(c);
  }

  lemma AfterCall(c: Config, s: State, call: Step, run: seq<Step>)
    requires c.Valid() && Reachable(c, s) && Enabled(c, s, call) && IsRun(c, Apply(c, s, call), run)
    ensures Reachable(c, PoolModel.After(c, Apply(c, s, call), run))
  {
    var whole := [call] + run;
    assert whole[1..] == run;
    assert IsRun(c, s, whole);
    assert PoolModel.After(c, s, whole) == PoolModel.After(c, Apply(c, s, call), whole[1..]);
    ReachableAfter(c, s, whole);
  }

  /** The state in which the deferred Close begins: Next was called once and has returned. */
  ghost predicate FirstReturned(c: Config, s: State) {
    && Reachable(c, s)
    && s.closer.NotCalled?
    && |s.callers| == 1
    && s.callers[0].Returned?
  }

  lemma OneCall(ks: seq<Caller>)
    requires |ks| == 1
    ensures Callers(Served, ks) == CallerCharge(Served, ks[0])
  {
    assert ks[1..] == [];
  }

  /** What an uncancelled DialFirst returns, in whatever state the rest of the pool is: the first success there
      was, or exhaustion, and that only if every endpoint was dialled once and none with success. */
  lemma FirstResult(c: Config, s: State)
    requires c.Valid() && FirstReturned(c, s) && !s.cancelled
    ensures ReturnedCandidate(s.callers[0]) || ReturnedExhausted(s.callers[0])
    ensures ReturnedCandidate(s.callers[0]) ==>
              Successes(s.collected) != [] && s.callers[0].result.candidate == Successes(s.collected)[0]
    ensures ReturnedExhausted(s.callers[0]) ==>
              && Successes(s.collected) == []
              && s.callers[0].result.errs == Failures(s.collected)
              && forall j: nat :: s.log.dials[j] == Reports(s.collected, j) == One(j < c.endpoints)
  {
    ReachableInv(c, s);
    ReachableServed(c, s);
    OneCall(s.callers);
    assert s.callers[0] != Returned(ContextError);
    if ReturnedExhausted(s.callers[0]) {
      ExhaustionIsComplete(c, s, 0);
    } else {
      assert |s.taken| == 1;
      assert Receipt(s, 0);
      assert s.taken[0] == (s.taken + s.queue + InHand(s.collector))[0];
    }
  }

  /** Waiting for Next: it always returns; without cancellation, a candidate exactly if some dial succeeded. */
  lemma FirstReturns(c: Config, wait: seq<Step>)
    requires c.Valid() && IsRun(c, Apply(c, Init(c), CallNext), wait) && NoCalls(wait)
    requires Quiescent(c, PoolModel.After(c, Apply(c, Init(c), CallNext), wait))
    ensures var s := PoolModel.After(c, Apply(c, Init(c), CallNext), wait);
      && FirstReturned(c, s)
      && (!s.cancelled ==> (ReturnedCandidate(s.callers[0]) <==> Successes(s.collected) != []))
  {
    var s := PoolModel.After(c, Apply(c, Init(c), CallNext), wait);
    InitIsReachable(c);
    AfterCall(c, Init(c), CallNext, wait);
    RunKeepsCalls(c, Apply(c, Init(c), CallNext), wait);
    QuiescentCallsReturned(c, s);
    if !s.cancelled {
      FirstResult(c, s);
    }
  }

  /** After Close: every connection any dial opened is closed, except the one DialFirst returns, which stays
      open; nothing holds a slot. And Close does return. */
  lemma OthersAreClosed(c: Config, s: State, cleanup: seq<Step>)
    requires c.Valid() && FirstReturned(c, s)
    requires IsRun(c, Apply(c, s, CallClose), cleanup) && NoCalls(cleanup)
    requires Quiescent(c, PoolModel.After(c, Apply(c, s, CallClose), cleanup))
    ensures var s' := PoolModel.After(c, Apply(c, s, CallClose), cleanup);
      && s'.closer.Finished? && s'.slots == 0
      && s'.callers == s.callers
      && forall k :: k in s'.log.conns ==> (k in s'.log.closes <==> !Returns(s.callers[0], k))
  {
    var s' := PoolModel.After(c, Apply(c, s, CallClose), cleanup);
    AfterCall(c, s, CallClose, cleanup);
    RunKeepsCalls(c, Apply(c, s, CallClose), cleanup);
    ReturnedStays(c, Apply(c, s, CallClose), cleanup, 0);
    QuiescentCallsReturned(c, s');
    CloseLeavesNothing(c, s');
    forall k ensures CallerHas(s', k) <==> Returns(s.callers[0], k) {
      assert Returns(s.callers[0], k) ==> Returns(s'.callers[0], k);
    }
  }
}
