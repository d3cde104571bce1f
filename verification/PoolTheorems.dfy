/** What the reachable states of the pool promise about connections, slots and the queue. */
module PoolTheorems {
  import opened Wrappers
  import opened PoolModel
  import opened PoolMeters
  import opened PoolInvariants
  import opened PoolRuns

  // --- Ownership ------------------------------------------------------------------------------

  /** Where an open connection can be. */
  datatype Place =
    | WithWorker(w: nat)
    | WithCollector
    | InQueue(q: nat)
    | WithNext(i: nat)      // received, not yet returned
    | WithClose
    | WithCaller(j: nat)    // returned by this call of Next

  ghost predicate Holds(s: State, p: Place, k: Conn) {
    match p
    case WithWorker(w) => w < |s.workers| && WorkerConn(s.workers[w]) == Some(k)
    case WithCollector => s.collector.Queueing? && s.collector.candidate.conn == k
    case InQueue(q) => q < |s.queue| && s.queue[q].conn == k
    case WithNext(i) =>
      i < |s.callers| && (s.callers[i].Claimed? || s.callers[i].Unslotted?) && s.callers[i].candidate.conn == k
    case WithClose => s.closer.Closing? && s.closer.candidate.conn == k
    case WithCaller(j) => j < |s.callers| && Returns(s.callers[j], k)
  }

  /** Some goroutine or unfinished call has `k` in hand, or it is queued. */
  ghost predicate PoolHas(s: State, k: Conn) {
    exists p: Place :: !p.WithCaller? && Holds(s, p, k)
  }

  ghost predicate Returns(k: Caller, conn: Conn) {
    k.Returned? && k.result.Got? && k.result.candidate.conn == conn
  }

  /** Some call of Next returned `k`. */
  ghost predicate CallerHas(s: State, k: Conn) {
    exists i :: 0 <= i < |s.callers| && Returns(s.callers[i], k)
  }

  /** Being held is charged to the summand of the holder. */
  lemma HeldIsCharged(s: State, p: Place, k: Conn)
    requires Holds(s, p, k)
    ensures p.WithWorker? ==> Workers(Holding(k), s.workers) >= 1
    ensures p.WithCollector? ==> CollectorCharge(Holding(k), s.collector) == 1
    ensures p.InQueue? ==> Queued(Holding(k), s.queue) >= 1
    ensures p.WithNext? ==> Callers(Holding(k), s.callers) >= 1
    ensures p.WithClose? ==> CloserCharge(Holding(k), s.closer) == 1
    ensures p.WithCaller? ==> Callers(HandedOut(k), s.callers) >= 1
  {
    match p
    case WithWorker(w) => WorkersAtLeast(Holding(k), s.workers, w);
    case InQueue(q) => QueuedAtLeast(Holding(k), s.queue, q);
    case WithNext(i) => CallersAtLeast(Holding(k), s.callers, i);
    case WithCaller(j) => CallersAtLeast(HandedOut(k), s.callers, j);
    case _ =>
  }

  lemma HoldingMeansPoolHas(s: State, k: Conn)
    ensures Total(Holding(k), s) > 0 <==> PoolHas(s, k)
  {
    var m := Holding(k);
    if p: Place :| !p.WithCaller? && Holds(s, p, k) {
      HeldIsCharged(s, p, k);
    } else if Workers(m, s.workers) > 0 {
      var w := WorkerFor(m, s.workers);
      assert Holds(s, WithWorker(w), k);
    } else if Queued(m, s.queue) > 0 {
      var q := QueuedFor(m, s.queue);
      assert Holds(s, InQueue(q), k);
    } else if Callers(m, s.callers) > 0 {
      var i := CallerFor(m, s.callers);
      assert Holds(s, WithNext(i), k);
    } else {
      assert !Holds(s, WithCollector, k) && !Holds(s, WithClose, k);
    }
  }

  /** Two places of the same kind are charged twice. */
  lemma SameKindTwice(s: State, p: Place, p': Place, k: Conn)
    requires Holds(s, p, k) && Holds(s, p', k)
    ensures p.WithWorker? && p'.WithWorker? && p.w < p'.w ==> Workers(Holding(k), s.workers) >= 2
    ensures p.InQueue? && p'.InQueue? && p.q < p'.q ==> Queued(Holding(k), s.queue) >= 2
    ensures p.WithNext? && p'.WithNext? && p.i < p'.i ==> Callers(Holding(k), s.callers) >= 2
    ensures p.WithCaller? && p'.WithCaller? && p.j < p'.j ==> Callers(HandedOut(k), s.callers) >= 2
  {
    if p.WithWorker? && p'.WithWorker? && p.w < p'.w {
      WorkersPair(Holding(k), s.workers, p.w, p'.w);
    } else if p.InQueue? && p'.InQueue? && p.q < p'.q {
      QueuedPair(Holding(k), s.queue, p.q, p'.q);
    } else if p.WithNext? && p'.WithNext? && p.i < p'.i {
      CallersPair(Holding(k), s.callers, p.i, p'.i);
    } else if p.WithCaller? && p'.WithCaller? && p.j < p'.j {
      CallersPair(HandedOut(k), s.callers, p.j, p'.j);
    }
  }

  lemma OnePlace(s: State, p: Place, p': Place, k: Conn)
    requires Owned(s, k) && Holds(s, p, k) && Holds(s, p', k)
    ensures p == p'
  {
    HeldIsCharged(s, p, k);
    HeldIsCharged(s, p', k);
    SameKindTwice(s, p, p', k);
    SameKindTwice(s, p', p, k);
    OnlyCallersHandOut(s, k);
    hide Holds, Workers, Queued, Callers;
  }

  lemma HandedOutMeansCallerHas(s: State, k: Conn)
    ensures Total(HandedOut(k), s) > 0 <==> CallerHas(s, k)
  {
    var m := HandedOut(k);
    OnlyCallersHandOut(s, k);
    if Callers(m, s.callers) > 0 {
      var i := CallerFor(m, s.callers);
      assert Returns(s.callers[i], k);
    }
    if CallerHas(s, k) {
      var i :| 0 <= i < |s.callers| && Returns(s.callers[i], k);
      CallersAtLeast(m, s.callers, i);
    }
  }

  lemma OnlyCallersHandOut(s: State, k: Conn)
    ensures Total(HandedOut(k), s) == Callers(HandedOut(k), s.callers)
  {
    if Workers(HandedOut(k), s.workers) > 0 { var w := WorkerFor(HandedOut(k), s.workers); }
    if Queued(HandedOut(k), s.queue) > 0 { var q := QueuedFor(HandedOut(k), s.queue); }
  }

  /** A connection some dial opened is either closed, once, or in exactly one place; any other is nowhere. */
  lemma OneOwner(c: Config, s: State, k: Conn)
    requires c.Valid() && Reachable(c, s)
    ensures s.log.conns[k] <= 1 && s.log.closes[k] <= 1
    ensures k in s.log.conns <==> k in s.log.closes || exists p :: Holds(s, p, k)
    ensures forall p, p' :: Holds(s, p, k) && Holds(s, p', k) ==> p == p'
    ensures k in s.log.closes ==> forall p :: !Holds(s, p, k)
  {
    ReachableInv(c, s);
    assert Owned(s, k);
    HoldingMeansPoolHas(s, k);
    HandedOutMeansCallerHas(s, k);
    if CallerHas(s, k) {
      var j :| 0 <= j < |s.callers| && Returns(s.callers[j], k);
      assert Holds(s, WithCaller(j), k);
    }
    forall p, p' | Holds(s, p, k) && Holds(s, p', k) ensures p == p' {
      OnePlace(s, p, p', k);
    }
    forall p | Holds(s, p, k) ensures PoolHas(s, k) || CallerHas(s, k) {
      if p.WithCaller? {
        assert Returns(s.callers[p.j], k);
      }
    }
  }

  lemma {:induction false} ReturnedStays(c: Config, s: State, run: seq<Step>, i: nat)
    requires IsRun(c, s, run) && i < |s.callers| && s.callers[i].Returned?
    ensures i < |After(c, s, run).callers| && After(c, s, run).callers[i] == s.callers[i]
    decreases |run|
  {
    if run != [] {
      StepKeepsReturned(c, s, run[0], i);
      ReturnedStays(c, Apply(c, s, run[0]), run[1..], i);
    }
  }

  lemma StepKeepsReturned(c: Config, s: State, t: Step, i: nat)
    requires Enabled(c, s, t) && i < |s.callers| && s.callers[i].Returned?
    ensures i < |Apply(c, s, t).callers| && Apply(c, s, t).callers[i] == s.callers[i]
  {
    match t
    case Next(_) =>
    case CallNext =>
    case _ => assert Apply(c, s, t).callers == s.callers;
  }

  /** Once a call of Next has returned a connection, the pool never closes it or hands it out again. */
  lemma ReturnedIsCallersForGood(c: Config, s: State, run: seq<Step>, i: nat, k: Conn)
    requires c.Valid() && Reachable(c, s) && IsRun(c, s, run)
    requires i < |s.callers| && Returns(s.callers[i], k)
    ensures var s' := After(c, s, run);
      && k !in s'.log.closes
      && !PoolHas(s', k)
      && forall j :: 0 <= j < |s'.callers| && Returns(s'.callers[j], k) ==> j == i
  {
    var s' := After(c, s, run);
    ReachableInv(c, s);
    RunKeepsInv(c, s, run);
    ReturnedStays(c, s, run, i);
    assert Owned(s', k);
    CallersAtLeast(HandedOut(k), s'.callers, i);
    HoldingMeansPoolHas(s', k);
    OnlyCallersHandOut(s', k);
    forall j | 0 <= j < |s'.callers| && Returns(s'.callers[j], k) ensures j == i {
      if j < i { CallersPair(HandedOut(k), s'.callers, j, i); }
      if i < j { CallersPair(HandedOut(k), s'.callers, i, j); }
    }
  }

  lemma OnlyCallersHold(s: State, k: Conn)
    requires forall w :: 0 <= w < |s.workers| ==> s.workers[w].Exited?
    requires !s.collector.Queueing? && s.queue == [] && !s.closer.Closing?
    requires forall i :: 0 <= i < |s.callers| ==> s.callers[i].Returned?
    ensures (exists p :: Holds(s, p, k)) <==> CallerHas(s, k)
  {
    forall j | 0 <= j < |s.callers| && Returns(s.callers[j], k) ensures Holds(s, WithCaller(j), k) {
    }
    forall p | Holds(s, p, k) ensures p.WithCaller? && Returns(s.callers[p.j], k) {
    }
  }

  /** After Close returned and with no Next in flight, nothing is left behind: each connection is
      closed or a caller's, and every slot is free. */
  lemma CloseLeavesNothing(c: Config, s: State)
    requires c.Valid() && Reachable(c, s)
    requires s.closer.Finished? && forall i :: 0 <= i < |s.callers| ==> s.callers[i].Returned?
    ensures s.slots == 0
    ensures forall k :: k in s.log.conns ==> (k in s.log.closes) != CallerHas(s, k)
  {
    ReachableInv(c, s);
    if Workers(SlotsHeld, s.workers) > 0 { var w := WorkerFor(SlotsHeld, s.workers); }
    if Callers(SlotsHeld, s.callers) > 0 { var i := CallerFor(SlotsHeld, s.callers); }
    forall k | k in s.log.conns ensures (k in s.log.closes) != CallerHas(s, k) {
      OneOwner(c, s, k);
      OnlyCallersHold(s, k);
    }
  }

  // --- Slots ----------------------------------------------------------------------------------

  /** The semaphore's tokens are exactly those of its holders: workers that dial, clean up or send a success, the
      collector with a candidate or its slot, each queued candidate, each call of Next and Close that has received
      one and not released it. */
  lemma SlotConservation(c: Config, s: State)
    requires c.Valid() && Reachable(c, s)
    ensures s.slots == Workers(SlotsHeld, s.workers) + One(s.collector.Queueing? || s.collector.Discarding?)
                       + |s.queue| + Callers(SlotsHeld, s.callers) + One(s.closer.Closing? || s.closer.Releasing?)
    ensures s.slots <= SLOTS
  {
    ReachableInv(c, s);
    QueuedSlots(s.queue);
  }

  /** Every receive from the semaphore channel in releaseSlot finds a token at once. */
  lemma ReleaseNeverBlocks(c: Config, s: State)
    requires c.Valid() && Reachable(c, s)
    ensures forall w :: 0 <= w < |s.workers| && (s.workers[w].ReleasingFailed? || s.workers[w].ReleasingUnsent?) ==>
              s.slots > 0
    ensures s.collector.Discarding? ==> s.slots > 0
    ensures forall i :: 0 <= i < |s.callers| && s.callers[i].Claimed? ==> s.slots > 0
    ensures s.closer.Releasing? ==> s.slots > 0
  {
    ReachableInv(c, s);
    forall w | 0 <= w < |s.workers| && (s.workers[w].ReleasingFailed? || s.workers[w].ReleasingUnsent?)
      ensures s.slots > 0
    {
      WorkersAtLeast(SlotsHeld, s.workers, w);
    }
    forall i | 0 <= i < |s.callers| && s.callers[i].Claimed? ensures s.slots > 0 {
      CallersAtLeast(SlotsHeld, s.callers, i);
    }
  }

  lemma {:induction false} OccupyingWorkers(ws: seq<Worker>)
    ensures Workers(Occupying, ws) <= Workers(SlotsHeld, ws)
  {
    if ws != [] {
      OccupyingWorkers(ws[1..]);
    }
  }

  lemma {:induction false} OccupyingCallers(ks: seq<Caller>)
    ensures Callers(Occupying, ks) == Callers(SlotsHeld, ks)
  {
    if ks != [] {
      OccupyingCallers(ks[1..]);
    }
  }

  lemma {:induction false} OccupyingQueue(q: seq<Candidate>)
    ensures Queued(Occupying, q) == |q|
  {
    if q != [] {
      OccupyingQueue(q[1..]);
    }
  }

  /** The shared budget: dials in progress and unclaimed connections are never more than four together. */
  lemma BudgetHolds(c: Config, s: State)
    requires c.Valid() && Reachable(c, s)
    ensures Total(Occupying, s) <= s.slots <= SLOTS
    ensures |s.workers| <= c.maxConcurrent
  {
    ReachableInv(c, s);
    OccupyingWorkers(s.workers);
    OccupyingCallers(s.callers);
    OccupyingQueue(s.queue);
    QueuedSlots(s.queue);
  }

  // --- The candidate queue --------------------------------------------------------------------

  /** The results about endpoints below `n`. */
  ghost function ReportsBelow(rs: seq<DialResult>, n: nat): nat {
    if n == 0 then 0 else ReportsBelow(rs, n - 1) + Reports(rs, n - 1)
  }

  lemma {:induction false} ReportsBelowSnoc(rs: seq<DialResult>, r: DialResult, n: nat)
    ensures ReportsBelow(rs + [r], n) == ReportsBelow(rs, n) + One(ResultEndpoint(r) < n)
  {
    if n > 0 {
      assert (rs + [r])[..|rs|] == rs;
      ReportsBelowSnoc(rs, r, n - 1);
    }
  }

  lemma {:induction false} ReportsBelowNone(n: nat)
    ensures ReportsBelow([], n) == 0
  {
    if n > 0 {
      ReportsBelowNone(n - 1);
    }
  }

  lemma {:induction false} ReportsBelowAll(rs: seq<DialResult>, n: nat)
    requires forall i :: 0 <= i < |rs| ==> ResultEndpoint(rs[i]) < n
    ensures ReportsBelow(rs, n) == |rs|
  {
    if rs == [] {
      ReportsBelowNone(n);
    } else {
      var init, r := rs[..|rs| - 1], rs[|rs| - 1];
      assert rs == init + [r];
      ReportsBelowAll(init, n);
      ReportsBelowSnoc(init, r, n);
    }
  }

  lemma {:induction false} ReportsBelowBound(rs: seq<DialResult>, n: nat)
    requires forall j :: Reports(rs, j) <= 1
    ensures ReportsBelow(rs, n) <= n
  {
    if n > 0 {
      ReportsBelowBound(rs, n - 1);
    }
  }

  lemma {:induction false} ReportedSomewhere(rs: seq<DialResult>, i: nat)
    requires i < |rs|
    ensures Reports(rs, ResultEndpoint(rs[i])) >= 1
  {
    if i < |rs| - 1 {
      ReportedSomewhere(rs[..|rs| - 1], i);
    }
  }

  lemma {:induction false} SuccessesAreResults(rs: seq<DialResult>)
    ensures |Successes(rs)| <= |rs|
  {
    if rs != [] {
      SuccessesAreResults(rs[..|rs| - 1]);
    }
  }

  /** One result per endpoint, hence never more results than endpoints. */
  lemma CollectedAtMostEndpoints(c: Config, s: State)
    requires Inv(c, s)
    ensures |s.collected| <= c.endpoints
  {
    forall j: nat ensures Reports(s.collected, j) <= One(j < s.fed) { assert Ledger(s, j); }
    forall i | 0 <= i < |s.collected| ensures ResultEndpoint(s.collected[i]) < s.fed {
      ReportedSomewhere(s.collected, i);
    }
    ReportsBelowAll(s.collected, s.fed);
    ReportsBelowBound(s.collected, s.fed);
  }

  /** Whenever the collector holds a success, the candidates channel has room for it. */
  lemma CollectorNeverBlocks(c: Config, s: State)
    requires c.Valid() && Reachable(c, s)
    ensures s.collector.Queueing? ==> CollectEnabled(c, s, Enqueue)
  {
    ReachableInv(c, s);
    QueuedSlots(s.queue);
    CollectedAtMostEndpoints(c, s);
    SuccessesAreResults(s.collected);
  }

  // --- Selects ------------------------------------------------------------------------------------------------

  /** Every select offers each branch that is ready, and no other; cancellation takes none away. */
  lemma ReadyBranches(c: Config, s: State, w: nat)
    requires c.Valid() && Reachable(c, s) && w < |s.workers|
    ensures s.workers[w].Idle? ==>
              && (Enabled(c, s, Offer(w)) <==> !s.jobsClosed && s.fed < c.endpoints)
              && (Enabled(c, s, Work(w, Quit)) <==> s.cancelled || s.jobsClosed)
    ensures s.workers[w].GotJob? ==>
              && (Enabled(c, s, Work(w, Acquire)) <==> s.slots < 4)
              && (Enabled(c, s, Work(w, Quit)) <==> s.cancelled)
    ensures s.workers[w].Sending? ==>
              && (Enabled(c, s, Deliver(w)) <==> s.collector.Receiving?)
              && (Enabled(c, s, Work(w, GiveUp)) <==> s.cancelled)
    ensures s.collector.Queueing? ==>
              && Enabled(c, s, Collect(Enqueue))
              && (Enabled(c, s, Collect(Discard)) <==> s.cancelled)
    ensures Enabled(c, s, StopFeeding) <==> !s.jobsClosed && (s.cancelled || s.fed == c.endpoints)
  {
    CollectorNeverBlocks(c, s);
  }
}
