/** An uncancelled pool that is left alone tries every endpoint, and serves as many calls as it has candidates. */
module PoolCompletion {
  import opened PoolModel
  import opened PoolMeters
  import opened PoolInvariants
  import opened PoolRuns
  import opened PoolProgress
  import opened PoolExhaustion

  // --- Each candidate received from the queue serves one call ---------------------------------------

  ghost predicate ServedInv(s: State) {
    !s.cancelled ==> |s.taken| == Callers(Served, s.callers)
  }

  lemma NextKeepsServed(s: State, i: nat)
    requires ServedInv(s) && NextEnabled(s, i)
    ensures ServedInv(DoNext(s, i))
  {
    CallersUpdate(Served, s.callers, i, CallerAfter(s, s.callers[i]));
  }

  /** The same calls of Next, the same Close, and nothing received. */
  ghost predicate SameCalls(s: State, s': State) {
    s'.callers == s.callers && s'.closer == s.closer && s'.taken == s.taken && s'.cancelled == s.cancelled
  }

  lemma WorkKeepsCalls(s: State, w: nat, act: WorkerAct)
    requires WorkEnabled(s, w, act)
    ensures SameCalls(s, DoWork(s, w, act))
  {
  }

  lemma DeliverKeepsCalls(s: State, w: nat)
    requires DeliverEnabled(s, w)
    ensures SameCalls(s, DoDeliver(s, w))
  {
  }

  lemma CollectKeepsCalls(c: Config, s: State, act: CollectorAct)
    requires CollectEnabled(c, s, act)
    ensures SameCalls(s, DoCollect(c, s, act))
  {
  }

  lemma OthersKeepTaken(c: Config, s: State, t: Step)
    requires Enabled(c, s, t) && !t.Next? && !t.CallNext? && !t.Close?
    ensures var s' := Apply(c, s, t);
      s'.taken == s.taken && s'.callers == s.callers && (s.cancelled ==> s'.cancelled)
  {
    hide DoWork, DoDeliver, DoCollect;
    match t
    case Work(w, act) => WorkKeepsCalls(s, w, act);
    case Deliver(w) => DeliverKeepsCalls(s, w);
    case Collect(act) => CollectKeepsCalls(c, s, act);
    case Offer(_) =>
    case StopFeeding =>
    case CloseResults =>
    case Cancel =>
    case CallClose =>
  }

  lemma StepKeepsServed(c: Config, s: State, t: Step)
    requires ControlInv(c, s) && ServedInv(s) && Enabled(c, s, t)
    ensures ServedInv(Apply(c, s, t))
  {
    match t
    case Next(i) => NextKeepsServed(s, i);
    case CallNext => CallersAppend(Served, s.callers, Entering);
    case Close =>
    case _ => OthersKeepTaken(c, s, t);
  }

  lemma {:induction false} RunKeepsServed(c: Config, s: State, run: seq<Step>)
    requires Inv(c, s) && ServedInv(s) && IsRun(c, s, run)
    ensures ServedInv(PoolModel.After(c, s, run))
    decreases |run|
  {
    if run != [] {
      StepKeepsInv(c, s, run[0]);
      StepKeepsServed(c, s, run[0]);
      RunKeepsServed(c, Apply(c, s, run[0]), run[1..]);
    }
  }

  lemma ReachableServed(c: Config, s: State)
    requires c.Valid() && Reachable(c, s)
    ensures ServedInv(s)
  {
    var run :| IsRun(c, Init(c), run) && PoolModel.After(c, Init(c), run) == s;
    InitInv(c);
    RunKeepsServed(c, Init(c), run);
  }

  // --- Discovery completes --------------------------------------------------------------------------

  /** Left alone and with room in the queue, an uncancelled pool comes to its end: every endpoint was dialled
      and reported exactly once, and every success is with a caller or queued, in collection order. */
  lemma DiscoveryCompletes(c: Config, s: State)
    requires c.Valid() && Reachable(c, s) && Quiescent(c, s) && !s.cancelled && |s.queue| < SLOTS
    ensures PoolFinished(s)
    ensures forall j: nat :: s.log.dials[j] == Reports(s.collected, j) == One(j < c.endpoints)
    ensures s.taken + s.queue == Successes(s.collected)
    ensures s.exhaustErr == Failures(s.collected)
  {
    ReachableInv(c, s);
    QuiescentPool(c, s);
    assert Leaving(s.workers[0]);
    forall j: nat ensures s.log.dials[j] == Reports(s.collected, j) == One(j < c.endpoints) {
      assert Ledger(s, j);
      ExhaustedWorkers(c, s, j);
    }
  }

  // --- Served calls and surplus calls -----------------------------------------------------------------

  ghost predicate ReturnedCandidate(k: Caller) {
    k.Returned? && k.result.Got?
  }

  ghost predicate ReturnedExhausted(k: Caller) {
    k.Returned? && k.result.NoMoreCandidates?
  }

  /** How many calls of Next returned a candidate. */
  ghost function Candidates(ks: seq<Caller>): nat {
    if ks == [] then 0 else One(ReturnedCandidate(ks[0])) + Candidates(ks[1..])
  }

  /** How many calls of Next returned ErrNoMoreCandidates. */
  ghost function Exhaustions(ks: seq<Caller>): nat {
    if ks == [] then 0 else One(ReturnedExhausted(ks[0])) + Exhaustions(ks[1..])
  }

  lemma {:induction false} CallsSplit(ks: seq<Caller>)
    requires forall i :: 0 <= i < |ks| ==> ReturnedCandidate(ks[i]) || ReturnedExhausted(ks[i])
    ensures Candidates(ks) + Exhaustions(ks) == |ks| && Candidates(ks) == Callers(Served, ks)
  {
    if ks != [] {
      CallsSplit(ks[1..]);
    }
  }

  lemma {:induction false} ExhaustedCall(ks: seq<Caller>) returns (i: nat)
    requires Exhaustions(ks) > 0
    ensures i < |ks| && ReturnedExhausted(ks[i])
  {
    if ReturnedExhausted(ks[0]) {
      i := 0;
    } else {
      i := ExhaustedCall(ks[1..]);
      i := i + 1;
    }
  }

  lemma SuccessesBound(c: Config, s: State)
    requires Inv(c, s)
    ensures |s.taken| <= |Successes(s.collected)|
  {
  }

  /** When an uncancelled pool has come to rest, as many calls of Next returned a candidate as there were
      successes, if there were enough calls; and exactly the surplus calls returned ErrNoMoreCandidates. */
  lemma SurplusCallsAreExhausted(c: Config, s: State)
    requires c.Valid() && Reachable(c, s) && Quiescent(c, s) && !s.cancelled
    ensures Candidates(s.callers) == Min(|s.callers|, |Successes(s.collected)|)
    ensures Exhaustions(s.callers) == |s.callers| - Min(|s.callers|, |Successes(s.collected)|)
  {
    ReachableInv(c, s);
    ReachableServed(c, s);
    QuiescentCallsReturned(c, s);
    forall i | 0 <= i < |s.callers| ensures ReturnedCandidate(s.callers[i]) || ReturnedExhausted(s.callers[i]) {
      assert s.callers[i].Returned?;
    }
    CallsSplit(s.callers);
    if Exhaustions(s.callers) > 0 {
      var i := ExhaustedCall(s.callers);
      ExhaustionIsComplete(c, s, i);
    } else {
      SuccessesBound(c, s);
    }
  }
}
