/** Next and the context: when the context's error is returned, and what becomes of a candidate then. */
module PoolCancellation {
  import opened PoolModel
  import opened PoolInvariants
  import opened PoolRuns
  import opened PoolCompletion

  // --- One step -----------------------------------------------------------------------------------------------

  /** The i-th call is made, or moves, or stays; other steps of the pool leave it alone. */
  lemma StepAndCall(c: Config, s: State, t: Step, i: nat)
    requires Enabled(c, s, t) && i < |s.callers|
    ensures i < |Apply(c, s, t).callers|
    ensures Apply(c, s, t).callers[i] == if t == Next(i) then CallerAfter(s, s.callers[i]) else s.callers[i]
    ensures s.cancelled ==> Apply(c, s, t).cancelled
  {
    hide DoWork, DoDeliver, DoCollect, CallerAfter;
    match t
    case Work(w, act) => WorkKeepsCalls(s, w, act);
    case Deliver(w) => DeliverKeepsCalls(s, w);
    case Collect(act) => CollectKeepsCalls(c, s, act);
    case _ =>
  }

  /** A call that returns does so with the context's error exactly if the context has ended. */
  lemma ReturnsContextErrorExactly(c: Config, s: State, t: Step, i: nat)
    requires Enabled(c, s, t) && i < |s.callers| && !s.callers[i].Returned?
    requires Apply(c, s, t).callers[i].Returned?
    ensures Apply(c, s, t).callers[i].result == ContextError <==> s.cancelled
  {
    StepAndCall(c, s, t, i);
    hide Apply, Enabled;
  }

  lemma CallsOnlyGrow(c: Config, s: State, t: Step)
    requires Enabled(c, s, t)
    ensures |Apply(c, s, t).callers| >= |s.callers|
    ensures forall i :: |s.callers| <= i < |Apply(c, s, t).callers| ==> Apply(c, s, t).callers[i] == Entering
  {
    hide DoWork, DoDeliver, DoCollect;
    match t
    case Work(w, act) => WorkKeepsCalls(s, w, act);
    case Deliver(w) => DeliverKeepsCalls(s, w);
    case Collect(act) => CollectKeepsCalls(c, s, act);
    case _ =>
  }

  // --- After cancellation -------------------------------------------------------------------------------------

  /** The call has not returned, or was made later. */
  ghost predicate Unfinished(s: State, i: nat) {
    i < |s.callers| ==> !s.callers[i].Returned?
  }

  /** Once the context has ended, every call that has not returned yet, and every call made later, can only return
      the context's error. */
  lemma {:induction false} CancelledCallsFail(c: Config, s: State, run: seq<Step>, i: nat)
    requires IsRun(c, s, run) && s.cancelled && Unfinished(s, i)
    requires i < |PoolModel.After(c, s, run).callers| && PoolModel.After(c, s, run).callers[i].Returned?
    ensures PoolModel.After(c, s, run).callers[i] == Returned(ContextError)
    decreases |run|
  {
    if run != [] {
      var s' := Apply(c, s, run[0]);
      CallsOnlyGrow(c, s, run[0]);
      if i < |s.callers| {
        StepAndCall(c, s, run[0], i);
        if s'.callers[i].Returned? {
          ReturnsContextErrorExactly(c, s, run[0], i);
          StaysReturned(c, s', run[1..], i);
        } else {
          CancelledCallsFail(c, s', run[1..], i);
        }
      } else {
        StepKeepsCancelled(c, s, run[0]);
        CancelledCallsFail(c, s', run[1..], i);
      }
    }
  }

  lemma StepKeepsCancelled(c: Config, s: State, t: Step)
    requires Enabled(c, s, t) && s.cancelled
    ensures Apply(c, s, t).cancelled
  {
    hide DoWork, DoDeliver, DoCollect;
    match t
    case Work(w, act) => WorkKeepsCalls(s, w, act);
    case Deliver(w) => DeliverKeepsCalls(s, w);
    case Collect(act) => CollectKeepsCalls(c, s, act);
    case _ =>
  }

  lemma {:induction false} StaysReturned(c: Config, s: State, run: seq<Step>, i: nat)
    requires IsRun(c, s, run) && i < |s.callers| && s.callers[i].Returned?
    ensures i < |PoolModel.After(c, s, run).callers| && PoolModel.After(c, s, run).callers[i] == s.callers[i]
    decreases |run|
  {
    if run != [] {
      StepAndCall(c, s, run[0], i);
      StaysReturned(c, Apply(c, s, run[0]), run[1..], i);
    }
  }

  /** A call made when the context has already ended returns at once: it never receives a candidate. */
  lemma {:induction false} LateCallsReceiveNothing(c: Config, s: State, run: seq<Step>, i: nat)
    requires IsRun(c, s, run) && s.cancelled && i < |s.callers| && s.callers[i] == Entering
    ensures i < |PoolModel.After(c, s, run).callers|
    ensures PoolModel.After(c, s, run).callers[i] in {Entering, Returned(ContextError)}
    decreases |run|
  {
    if run != [] {
      StepAndCall(c, s, run[0], i);
      if Apply(c, s, run[0]).callers[i].Returned? {
        StaysReturned(c, Apply(c, s, run[0]), run[1..], i);
      } else {
        LateCallsReceiveNothing(c, Apply(c, s, run[0]), run[1..], i);
      }
    }
  }

  // --- Candidates given up --------------------------------------------------------------------------------------

  /** A candidate whose call returned the context's error is closed. */
  ghost predicate GivenUpIsClosed(s: State, r: nat)
    requires r < |s.receivers| == |s.taken|
  {
    match s.receivers[r]
    case NextCall(i) =>
      i < |s.callers| && s.callers[i] == Returned(ContextError) ==> s.taken[r].conn in s.log.closes
    case CloseCall => true
  }

  ghost predicate GivenUpInv(s: State) {
    |s.receivers| == |s.taken| && forall r :: 0 <= r < |s.receivers| ==> GivenUpIsClosed(s, r)
  }

  lemma NextKeepsGivenUp(s: State, i: nat)
    requires ReceiptInv(s) && GivenUpInv(s) && NextEnabled(s, i)
    ensures GivenUpInv(DoNext(s, i))
  {
    var s' := DoNext(s, i);
    forall r | 0 <= r < |s'.receivers| ensures GivenUpIsClosed(s', r) {
      if r < |s.receivers| {
        assert Receipt(s, r) && GivenUpIsClosed(s, r);
      }
    }
  }

  /** Steps of other actors add at most closes, receipts of Close, and new calls. */
  ghost predicate OnlyAdds(s: State, s': State) {
    && s'.log.closes >= s.log.closes
    && |s'.receivers| == |s'.taken| && s.receivers <= s'.receivers && s.taken <= s'.taken
    && (forall r :: |s.receivers| <= r < |s'.receivers| ==> s'.receivers[r] == CloseCall)
    && s.callers <= s'.callers
    && (forall i :: |s.callers| <= i < |s'.callers| ==> s'.callers[i] == Entering)
  }

  lemma WorkOnlyAdds(s: State, w: nat, act: WorkerAct)
    requires WorkEnabled(s, w, act) && |s.receivers| == |s.taken|
    ensures OnlyAdds(s, DoWork(s, w, act))
  {
  }

  lemma CollectOnlyAdds(c: Config, s: State, act: CollectorAct)
    requires CollectEnabled(c, s, act) && |s.receivers| == |s.taken|
    ensures OnlyAdds(s, DoCollect(c, s, act))
  {
  }

  lemma DeliverOnlyAdds(s: State, w: nat)
    requires DeliverEnabled(s, w) && |s.receivers| == |s.taken|
    ensures OnlyAdds(s, DoDeliver(s, w))
  {
  }

  lemma CloseOnlyAdds(s: State)
    requires CloseEnabled(s) && |s.receivers| == |s.taken|
    ensures OnlyAdds(s, DoClose(s))
  {
  }

  lemma AddingKeepsGivenUp(s: State, s': State)
    requires GivenUpInv(s) && OnlyAdds(s, s')
    ensures GivenUpInv(s')
  {
    forall r | 0 <= r < |s'.receivers| ensures GivenUpIsClosed(s', r) {
      if r < |s.receivers| {
        assert GivenUpIsClosed(s, r);
      }
    }
  }

  lemma StepKeepsGivenUp(c: Config, s: State, t: Step)
    requires ReceiptInv(s) && GivenUpInv(s) && Enabled(c, s, t)
    ensures GivenUpInv(Apply(c, s, t))
  {
    hide DoWork, DoDeliver, DoCollect, DoNext, DoClose, GivenUpInv;
    match t
    case Next(i) => NextKeepsGivenUp(s, i);
    case Work(w, act) =>
      WorkOnlyAdds(s, w, act);
      AddingKeepsGivenUp(s, DoWork(s, w, act));
    case Collect(act) =>
      CollectOnlyAdds(c, s, act);
      AddingKeepsGivenUp(s, DoCollect(c, s, act));
    case Deliver(w) =>
      DeliverOnlyAdds(s, w);
      AddingKeepsGivenUp(s, DoDeliver(s, w));
    case Close =>
      CloseOnlyAdds(s);
      AddingKeepsGivenUp(s, DoClose(s));
    case _ => AddingKeepsGivenUp(s, Apply(c, s, t));
  }

  lemma {:induction false} RunKeepsGivenUp(c: Config, s: State, run: seq<Step>)
    requires Inv(c, s) && GivenUpInv(s) && IsRun(c, s, run)
    ensures GivenUpInv(PoolModel.After(c, s, run))
    decreases |run|
  {
    hide Apply, Enabled, GivenUpInv;
    if run != [] {
      StepKeepsInv(c, s, run[0]);
      StepKeepsGivenUp(c, s, run[0]);
      RunKeepsGivenUp(c, Apply(c, s, run[0]), run[1..]);
    }
  }

  /** Whenever a call of Next returned the context's error after it had received a candidate, it has closed that
      candidate's connection. */
  lemma GivenUpCandidatesAreClosed(c: Config, s: State, r: nat, i: nat)
    requires c.Valid() && Reachable(c, s) && r < |s.receivers| && s.receivers[r] == NextCall(i)
    requires i < |s.callers| && s.callers[i] == Returned(ContextError)
    ensures |s.taken| == |s.receivers| && s.taken[r].conn in s.log.closes
  {
    var run :| IsRun(c, Init(c), run) && PoolModel.After(c, Init(c), run) == s;
    InitInv(c);
    RunKeepsGivenUp(c, Init(c), run);
    assert GivenUpIsClosed(s, r);
  }
}
