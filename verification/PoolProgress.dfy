/** Termination: no run of the pool goes on forever, and none stops before its calls have returned. */
module PoolProgress {
  import opened Wrappers
  import opened PoolModel
  import opened PoolMeters
  import opened PoolInvariants
  import opened PoolRuns
  import opened PoolTheorems

  // --- Measures -------------------------------------------------------------------------------

  /** Endpoints still to be fed and channels still to be closed. */
  ghost function Unfed(c: Config, s: State): nat {
    (if s.fed < c.endpoints then 6 * (c.endpoints - s.fed) else 0) + One(!s.jobsClosed) + One(!s.resultsClosed)
  }

  /** What is left to do: for the pool's goroutines (PoolWork), or for goroutines and calls (AllWork). */
  ghost function Left(m: Meter, c: Config, s: State): nat {
    (if m == AllWork then 4 * Unfed(c, s) else Unfed(c, s)) + Total(m, s)
  }

  /** A step the application or the parent context decides on. */
  ghost predicate External(t: Step) {
    t.Cancel? || t.CallNext? || t.CallClose?
  }

  lemma WorkerProgress(pc: Worker, act: WorkerAct)
    requires AtAct(pc, act)
    ensures WorkerWork(WorkerAfter(pc, act)) < WorkerWork(pc)
  {
  }

  lemma OfferDecreases(m: Meter, c: Config, s: State, w: nat)
    requires OfferEnabled(c, s, w) && (m == PoolWork || m == AllWork)
    ensures Left(m, c, DoOffer(c, s, w)) < Left(m, c, s)
  {
    OfferMoves(m, c, s, w);
  }

  lemma WorkDecreases(m: Meter, c: Config, s: State, w: nat, act: WorkerAct)
    requires WorkEnabled(s, w, act) && (m == PoolWork || m == AllWork)
    ensures Left(m, c, DoWork(s, w, act)) < Left(m, c, s)
  {
    WorkMoves(m, s, w, act);
    WorkerProgress(s.workers[w], act);
  }

  lemma DeliverDecreases(m: Meter, c: Config, s: State, w: nat)
    requires DeliverEnabled(s, w) && (m == PoolWork || m == AllWork)
    ensures Left(m, c, DoDeliver(s, w)) < Left(m, c, s)
  {
    DeliverMoves(m, s, w);
  }

  lemma CollectDecreases(m: Meter, c: Config, s: State, act: CollectorAct)
    requires CollectEnabled(c, s, act) && (m == PoolWork || m == AllWork)
    ensures Left(m, c, DoCollect(c, s, act)) < Left(m, c, s)
  {
    CollectMoves(m, c, s, act);
  }

  lemma NextDecreases(c: Config, s: State, i: nat)
    requires NextEnabled(s, i)
    ensures Left(AllWork, c, DoNext(s, i)) < Left(AllWork, c, s)
  {
    NextMoves(AllWork, s, i);
  }

  lemma CloseDecreases(c: Config, s: State)
    requires CloseEnabled(s)
    ensures Left(AllWork, c, DoClose(s)) < Left(AllWork, c, s)
  {
    CloseMoves(AllWork, s);
  }

  /** Each goroutine step uses up some of the work left, by either measure. */
  lemma InternalStepDecreases(m: Meter, c: Config, s: State, t: Step)
    requires Enabled(c, s, t) && Internal(t) && (m == PoolWork || m == AllWork)
    ensures Left(m, c, Apply(c, s, t)) < Left(m, c, s)
  {
    match t
    case Offer(w) => OfferDecreases(m, c, s, w);
    case Work(w, act) => WorkDecreases(m, c, s, w, act);
    case Deliver(w) => DeliverDecreases(m, c, s, w);
    case Collect(act) => CollectDecreases(m, c, s, act);
    case StopFeeding =>
    case CloseResults =>
  }

  lemma {:induction false} OnlyPoolDoesPoolWork(q: seq<Candidate>, ks: seq<Caller>)
    ensures Queued(PoolWork, q) == 0 == Callers(PoolWork, ks)
    decreases |q| + |ks|
  {
    if q != [] {
      OnlyPoolDoesPoolWork(q[1..], ks);
    } else if ks != [] {
      OnlyPoolDoesPoolWork(q, ks[1..]);
    }
  }

  lemma NonPoolChargesNothing(s: State)
    ensures Total(PoolWork, s) == Workers(PoolWork, s.workers) + CollectorCharge(PoolWork, s.collector)
  {
    OnlyPoolDoesPoolWork(s.queue, s.callers);
  }

  lemma OtherStepsLeavePoolAlone(c: Config, s: State, t: Step)
    requires Enabled(c, s, t) && !Internal(t)
    ensures var s' := Apply(c, s, t);
      && s'.workers == s.workers && s'.collector == s.collector
      && s'.fed == s.fed && s'.jobsClosed == s.jobsClosed && s'.resultsClosed == s.resultsClosed
  {
    match t
    case Next(i) => NextLeavesPoolAlone(s, i);
    case Close => CloseLeavesPoolAlone(s);
    case Cancel =>
    case CallNext =>
    case CallClose =>
  }

  lemma NextLeavesPoolAlone(s: State, i: nat)
    requires NextEnabled(s, i)
    ensures var s' := DoNext(s, i);
      && s'.workers == s.workers && s'.collector == s.collector
      && s'.fed == s.fed && s'.jobsClosed == s.jobsClosed && s'.resultsClosed == s.resultsClosed
  {
  }

  lemma CloseLeavesPoolAlone(s: State)
    requires CloseEnabled(s)
    ensures var s' := DoClose(s);
      && s'.workers == s.workers && s'.collector == s.collector
      && s'.fed == s.fed && s'.jobsClosed == s.jobsClosed && s'.resultsClosed == s.resultsClosed
  {
  }

  /** No step of Next, of Close or of the application gives the pool new work. */
  lemma OtherStepsAddNoPoolWork(c: Config, s: State, t: Step)
    requires Enabled(c, s, t) && !Internal(t)
    ensures Left(PoolWork, c, Apply(c, s, t)) == Left(PoolWork, c, s)
  {
    OtherStepsLeavePoolAlone(c, s, t);
    hide Apply, Enabled, Total;
    NonPoolChargesNothing(s);
    NonPoolChargesNothing(Apply(c, s, t));
  }

  /** Every goroutine step, and every step of a call in progress, uses up some of the work left. */
  lemma MoveDecreases(c: Config, s: State, t: Step)
    requires Enabled(c, s, t) && !External(t)
    ensures Left(AllWork, c, Apply(c, s, t)) < Left(AllWork, c, s)
  {
    match t
    case Next(i) => NextDecreases(c, s, i);
    case Close => CloseDecreases(c, s);
    case _ => InternalStepDecreases(AllWork, c, s, t);
  }

  /** What an external step adds to the work left. */
  ghost function NewWork(t: Step): nat {
    if t.CallNext? then 4 else if t.CallClose? then 2 else 0
  }

  lemma ExternalAdds(c: Config, s: State, t: Step)
    requires Enabled(c, s, t) && External(t)
    ensures Left(AllWork, c, Apply(c, s, t)) == Left(AllWork, c, s) + NewWork(t)
  {
    CallersAppend(AllWork, s.callers, Entering);
  }

  // --- Enabled steps --------------------------------------------------------------------------

  /** Feeder, workers and collector have returned, candidates and done are closed. */
  ghost predicate PoolFinished(s: State) {
    && s.jobsClosed
    && (forall w :: 0 <= w < |s.workers| ==> s.workers[w].Exited?)
    && s.resultsClosed
    && s.collector.DoneClosed?
  }

  /** A worker that is neither at its first select nor waiting for a slot can move. */
  lemma BusyWorkerMoves(c: Config, s: State, w: nat) returns (t: Step)
    requires Inv(c, s) && w < |s.workers|
    requires !s.workers[w].Idle? && !s.workers[w].GotJob? && !s.workers[w].Exited?
    requires s.workers[w].Sending? ==> s.collector.Receiving?
    ensures Internal(t) && Enabled(c, s, t)
  {
    WorkersAtLeast(SlotsHeld, s.workers, w);
    match s.workers[w]
    case Dialing(_) => t := Work(w, DialFails(Canceled, None));
    case ClosingFailed(_, _, _) => t := Work(w, CloseFailed);
    case ReleasingFailed(_, _) => t := Work(w, ReleaseFailed);
    case Sending(_) => t := Deliver(w);
    case ClosingUnsent(_) => t := Work(w, CloseUnsent);
    case ReleasingUnsent => t := Work(w, ReleaseUnsent);
  }

  /** A collector that holds a result, or its slot, can move. */
  lemma BusyCollectorMoves(c: Config, s: State) returns (t: Step)
    requires c.Valid() && Reachable(c, s) && (s.collector.Queueing? || s.collector.Discarding?)
    ensures Internal(t) && Enabled(c, s, t)
  {
    ReachableInv(c, s);
    CollectorNeverBlocks(c, s);
    t := Collect(if s.collector.Queueing? then Enqueue else Proceed);
  }

  /** A worker waits in acquireSlot, and only a slot can let it go on. */
  ghost predicate WaitsForSlot(s: State, w: nat)
    requires w < |s.workers|
  {
    s.workers[w].GotJob? && s.slots == SLOTS && !s.cancelled
  }

  /** Unless a worker waits for a slot, some goroutine can move until all have returned; after
      cancellation no worker waits for a slot. */
  lemma PoolMoves(c: Config, s: State) returns (t: Step)
    requires c.Valid() && Reachable(c, s) && !PoolFinished(s)
    requires forall w :: 0 <= w < |s.workers| ==> !WaitsForSlot(s, w)
    ensures Internal(t) && Enabled(c, s, t)
  {
    ReachableInv(c, s);
    if s.collector.Queueing? || s.collector.Discarding? {
      t := BusyCollectorMoves(c, s);
    } else if w :| 0 <= w < |s.workers| && s.workers[w].GotJob? {
      assert !WaitsForSlot(s, w);
      t := Work(w, if s.cancelled then Quit else Acquire);
    } else if w :| 0 <= w < |s.workers| && !s.workers[w].Idle? && !s.workers[w].Exited? {
      t := BusyWorkerMoves(c, s, w);
    } else if !s.jobsClosed {
      if s.cancelled || s.fed == c.endpoints {
        t := StopFeeding;
      } else {
        assert !Leaving(s.workers[0]);
        t := Offer(0);
      }
    } else if w :| 0 <= w < |s.workers| && s.workers[w].Idle? {
      t := Work(w, Quit);
    } else {
      t := if s.resultsClosed then Collect(Proceed) else CloseResults;
    }
  }

  ghost predicate PoolStuck(c: Config, s: State) {
    forall t :: Enabled(c, s, t) ==> !Internal(t)
  }

  /** After cancellation the pool is never stuck before feeder, workers and collector have returned. */
  lemma CancelledPoolFinishes(c: Config, s: State)
    requires c.Valid() && Reachable(c, s) && s.cancelled && PoolStuck(c, s)
    ensures PoolFinished(s)
  {
    if !PoolFinished(s) {
      var t := PoolMoves(c, s);
    }
  }

  lemma StuckHoldsNoSlot(c: Config, s: State)
    requires c.Valid() && Reachable(c, s) && PoolStuck(c, s)
    ensures CollectorCharge(SlotsHeld, s.collector) == 0
    ensures s.collector.Receiving? ==> Workers(SlotsHeld, s.workers) == 0
  {
    ReachableInv(c, s);
    if s.collector.Queueing? || s.collector.Discarding? {
      var t := BusyCollectorMoves(c, s);
    }
    if s.collector.Receiving? && Workers(SlotsHeld, s.workers) > 0 {
      var w := WorkerFor(SlotsHeld, s.workers);
      var t := BusyWorkerMoves(c, s, w);
    }
  }

  /** The only way an uncancelled pool stops before it is done: a worker waits in acquireSlot while all
      four slots belong to candidates that are queued or just received by a call of Next. */
  lemma StuckMeansFull(c: Config, s: State)
    requires c.Valid() && Reachable(c, s) && !s.cancelled && PoolStuck(c, s) && !PoolFinished(s)
    ensures exists w :: 0 <= w < |s.workers| && s.workers[w].GotJob?
    ensures SLOTS == s.slots == |s.queue| + Callers(SlotsHeld, s.callers)
  {
    if forall w :: 0 <= w < |s.workers| ==> !WaitsForSlot(s, w) {
      var t := PoolMoves(c, s);
    }
    var w :| 0 <= w < |s.workers| && WaitsForSlot(s, w);
    ReachableInv(c, s);
    StuckHoldsNoSlot(c, s);
    QueuedSlots(s.queue);
    assert !s.resultsClosed;
  }

  // --- Calls ----------------------------------------------------------------------------------

  /** Nothing can happen any more unless the application calls something or the context ends. */
  ghost predicate Quiescent(c: Config, s: State) {
    forall t :: Enabled(c, s, t) ==> External(t)
  }

  lemma QuiescentCall(c: Config, s: State, i: nat)
    requires c.Valid() && Reachable(c, s) && Quiescent(c, s) && i < |s.callers|
    ensures s.callers[i].Returned? || (s.callers[i].Waiting? && s.queue == [] && !s.CandidatesAreClosed())
  {
    ReachableInv(c, s);
    CallersAtLeast(SlotsHeld, s.callers, i);
    assert !Enabled(c, s, Next(i));
  }

  lemma QuiescentPool(c: Config, s: State)
    requires c.Valid() && Reachable(c, s) && Quiescent(c, s)
    ensures PoolFinished(s) || |s.queue| == SLOTS
  {
    if s.cancelled {
      CancelledPoolFinishes(c, s);
    } else if !PoolFinished(s) {
      StuckMeansFull(c, s);
      if Callers(SlotsHeld, s.callers) > 0 {
        var i := CallerFor(SlotsHeld, s.callers);
        QuiescentCall(c, s, i);
      }
    }
  }

  /** When nothing can move any more, every call of Next has returned, and so has Close if it was called. */
  lemma QuiescentCallsReturned(c: Config, s: State)
    requires c.Valid() && Reachable(c, s) && Quiescent(c, s)
    ensures forall i :: 0 <= i < |s.callers| ==> s.callers[i].Returned?
    ensures s.closer.NotCalled? || s.closer.Finished?
  {
    ReachableInv(c, s);
    QuiescentPool(c, s);
    forall i | 0 <= i < |s.callers| ensures s.callers[i].Returned? {
      QuiescentCall(c, s, i);
    }
    if s.cancelled {
      CancelledPoolFinishes(c, s);
    }
    assert !Enabled(c, s, Close);
  }

  // --- Runs -----------------------------------------------------------------------------------

  ghost function Moves(run: seq<Step>): nat {
    if run == [] then 0 else One(!External(run[0])) + Moves(run[1..])
  }

  ghost function Demand(run: seq<Step>): nat {
    if run == [] then 0 else NewWork(run[0]) + Demand(run[1..])
  }

  ghost function InternalMoves(run: seq<Step>): nat {
    if run == [] then 0 else One(Internal(run[0])) + InternalMoves(run[1..])
  }

  /** However steps interleave, a run makes boundedly many moves for the calls it contains. */
  lemma {:induction false} RunsAreBounded(c: Config, s: State, run: seq<Step>)
    requires IsRun(c, s, run)
    ensures Moves(run) + Left(AllWork, c, After(c, s, run)) <= Left(AllWork, c, s) + Demand(run)
    decreases |run|
  {
    if run != [] {
      if External(run[0]) {
        ExternalAdds(c, s, run[0]);
      } else {
        MoveDecreases(c, s, run[0]);
      }
      RunsAreBounded(c, Apply(c, s, run[0]), run[1..]);
    }
  }

  /** The pool's goroutines alone take boundedly many steps, whatever Next, Close and the application do. */
  lemma {:induction false} PoolStepsAreBounded(c: Config, s: State, run: seq<Step>)
    requires IsRun(c, s, run)
    ensures InternalMoves(run) + Left(PoolWork, c, After(c, s, run)) <= Left(PoolWork, c, s)
    decreases |run|
  {
    if run != [] {
      if Internal(run[0]) {
        InternalStepDecreases(PoolWork, c, s, run[0]);
      } else {
        OtherStepsAddNoPoolWork(c, s, run[0]);
      }
      PoolStepsAreBounded(c, Apply(c, s, run[0]), run[1..]);
    }
  }

  lemma {:induction false} NoCallsNoDemand(run: seq<Step>)
    requires forall i :: 0 <= i < |run| ==> !run[i].CallNext? && !run[i].CallClose?
    ensures Demand(run) == 0
    ensures Cancel !in run ==> Moves(run) == |run|
  {
    if run != [] {
      NoCallsNoDemand(run[1..]);
    }
  }

  /** Next and Close always return: from any reachable state, whatever the interleaving and whenever the context
      ends, the calls made so far need boundedly many further moves, and once no move is left each of them has
      returned. */
  lemma CallsReturn(c: Config, s: State, run: seq<Step>)
    requires c.Valid() && Reachable(c, s) && IsRun(c, s, run)
    requires forall i :: 0 <= i < |run| ==> !run[i].CallNext? && !run[i].CallClose?
    ensures Moves(run) <= Left(AllWork, c, s)
    ensures Cancel !in run ==> |run| <= Left(AllWork, c, s)
    ensures Quiescent(c, After(c, s, run)) ==>
              && (forall i :: 0 <= i < |After(c, s, run).callers| ==> After(c, s, run).callers[i].Returned?)
              && (After(c, s, run).closer.NotCalled? || After(c, s, run).closer.Finished?)
  {
    NoCallsNoDemand(run);
    RunsAreBounded(c, s, run);
    ReachableAfter(c, s, run);
    if Quiescent(c, After(c, s, run)) {
      QuiescentCallsReturned(c, After(c, s, run));
    }
  }
}
