/** What every step of the pool keeps, and hence every run from the initial state. */
module PoolInvariants {
  import opened PoolModel
  import opened PoolMeters

  // --- The invariants -------------------------------------------------------------------------

  /** The semaphore holds one token for each holder, and never more than its capacity. */
  ghost predicate SlotInv(s: State) {
    s.slots == Total(SlotsHeld, s) <= SLOTS
  }

  /** `k` has exactly one owner if a dial opened it: the pool, a caller, or nobody once it is closed. */
  ghost predicate Owned(s: State, k: Conn) {
    Total(Holding(k), s) + Total(HandedOut(k), s) + s.log.closes[k] == s.log.conns[k] <= 1
  }

  /** How many of the collected results are about endpoint `j`. */
  ghost function Reports(rs: seq<DialResult>, j: nat): nat {
    if rs == [] then 0 else Reports(rs[..|rs| - 1], j) + One(ResultEndpoint(rs[|rs| - 1]) == j)
  }

  /** Endpoint `j` is fed at most once; then it waits for its dial, was dialled, or was skipped. */
  ghost predicate FedOnce(s: State, j: nat) {
    Total(Undialed(j), s) + s.log.dials[j] + s.log.skipped[j] == One(j < s.fed)
  }

  /** Each dial of `j` is with its worker, reported to the collector, or dropped unsent. */
  ghost predicate Accounted(s: State, j: nat) {
    Total(Unreported(j), s) + Reports(s.collected, j) + s.log.unsent[j] == s.log.dials[j]
  }

  ghost predicate Ledger(s: State, j: nat) {
    FedOnce(s, j) && Accounted(s, j)
  }

  /** The successes among the collected results, in order. */
  ghost function Successes(rs: seq<DialResult>): seq<Candidate> {
    if rs == [] then [] else
      Successes(rs[..|rs| - 1])
      + match rs[|rs| - 1] { case Dialed(x) => [x] case Failed(_, _) => [] }
  }

  /** The failures other than cancellations among the collected results, in order. */
  ghost function Failures(rs: seq<DialResult>): seq<Failure> {
    if rs == [] then [] else
      Failures(rs[..|rs| - 1])
      + match rs[|rs| - 1] { case Failed(j, Other(code)) => [Failure(j, code)] case _ => [] }
  }

  ghost function InHand(k: Collector): seq<Candidate> {
    if k.Queueing? then [k.candidate] else []
  }

  ghost predicate CollectorFinished(k: Collector) {
    k.Finalized? || k.CandidatesClosed? || k.DoneClosed?
  }

  /** The candidates channel is first-in first-out, and the collector drops nothing unless cancelled. */
  ghost predicate CollectInv(s: State) {
    && s.failures == Failures(s.collected)
    && (CollectorFinished(s.collector) ==> s.exhaustErr == s.failures)
    && |s.taken| + |s.queue| + |InHand(s.collector)| + s.discarded == |Successes(s.collected)|
    && (s.discarded == 0 ==> s.taken + s.queue + InHand(s.collector) == Successes(s.collected))
  }

  ghost predicate Leaving(w: Worker) {
    w.ClosingUnsent? || w.ReleasingUnsent? || w.Exited?
  }

  /** Phases: who may have finished when. */
  ghost predicate ControlInv(c: Config, s: State) {
    && c.Valid()
    && |s.workers| == WorkerCount(c)
    && s.fed <= c.endpoints
    && (s.jobsClosed ==> s.fed == c.endpoints || s.cancelled)
    && (forall w :: 0 <= w < |s.workers| && Leaving(s.workers[w]) ==> s.jobsClosed || s.cancelled)
    && (forall w :: 0 <= w < |s.workers| && Leaving(s.workers[w]) && !s.workers[w].Exited? ==> s.cancelled)
    && (s.resultsClosed ==> forall w :: 0 <= w < |s.workers| ==> s.workers[w].Exited?)
    && (CollectorFinished(s.collector) ==> s.resultsClosed)
    && (!s.closer.NotCalled? ==> s.cancelled)
    && (!s.closer.NotCalled? && !s.closer.AwaitingDone? ==> s.collector.DoneClosed?)
    && (s.closer.Finished? ==> s.queue == [])
  }

  ghost predicate NothingLost(s: State) {
    s.discarded == 0 && s.log.skipped == multiset{} && s.log.unsent == multiset{}
  }

  /** Every endpoint was fed, and every result reached the collector and was kept. */
  ghost predicate Exhausted(c: Config, s: State) {
    && s.CandidatesAreClosed()
    && s.queue == []
    && s.fed == c.endpoints
    && NothingLost(s)
    && CloseCall !in s.receivers
  }

  /** A call of Next reports exhaustion only when discovery is exhausted, and with the final error. */
  ghost predicate NextInv(c: Config, s: State, i: nat)
    requires i < |s.callers|
  {
    && (s.callers[i].SawClosed? ==> s.CandidatesAreClosed() && s.queue == [])
    && (s.callers[i].Returned? && s.callers[i].result.NoMoreCandidates? ==>
          Exhausted(c, s) && s.callers[i].result.errs == s.exhaustErr)
  }

  /** The call has received `x`, and has it in hand, returned it, or gave up because of the context. */
  ghost predicate HasReceived(k: Caller, x: Candidate) {
    k == Claimed(x) || k == Unslotted(x) || k == Returned(Got(x)) || k == Returned(ContextError)
  }

  /** Each candidate received from the queue went to a call of Next of its own, or to Close. */
  ghost predicate ReceiptInv(s: State) {
    && |s.receivers| == |s.taken|
    && (forall r :: 0 <= r < |s.receivers| ==> Receipt(s, r))
    && (forall r, r' :: 0 <= r < r' < |s.receivers| ==> s.receivers[r] != s.receivers[r'] || s.receivers[r].CloseCall?)
    && (forall i :: 0 <= i < |s.callers| && s.callers[i] == Returned(ContextError) ==> s.cancelled)
  }

  ghost predicate Receipt(s: State, r: nat)
    requires r < |s.receivers| == |s.taken|
  {
    match s.receivers[r]
    case NextCall(i) => i < |s.callers| && HasReceived(s.callers[i], s.taken[r])
    case CloseCall => s.cancelled
  }

  ghost predicate Inv(c: Config, s: State) {
    && SlotInv(s)
    && (forall k :: Owned(s, k))
    && (forall j :: Ledger(s, j))
    && CollectInv(s)
    && ControlInv(c, s)
    && ReceiptInv(s)
    && (!s.cancelled ==> NothingLost(s))
    && (forall i :: 0 <= i < |s.callers| ==> NextInv(c, s, i))
  }

  // --- Feeder ---------------------------------------------------------------------------------

  lemma OwnedKeptByOffer(c: Config, s: State, w: nat, k: Conn)
    requires Owned(s, k) && OfferEnabled(c, s, w)
    ensures Owned(DoOffer(c, s, w), k)
  {
    OfferMoves(Holding(k), c, s, w);
    OfferMoves(HandedOut(k), c, s, w);
  }

  lemma LedgerKeptByOffer(c: Config, s: State, w: nat, j: nat)
    requires Ledger(s, j) && OfferEnabled(c, s, w)
    ensures Ledger(DoOffer(c, s, w), j)
  {
    OfferMoves(Undialed(j), c, s, w);
    OfferMoves(Unreported(j), c, s, w);
  }

  lemma OfferKeepsInv(c: Config, s: State, w: nat)
    requires Inv(c, s) && OfferEnabled(c, s, w)
    ensures Inv(c, DoOffer(c, s, w))
  {
    var s' := DoOffer(c, s, w);
    OfferMoves(SlotsHeld, c, s, w);
    ReceiptFrame(s, s');
    forall k ensures Owned(s', k) { OwnedKeptByOffer(c, s, w, k); }
    forall j ensures Ledger(s', j) { LedgerKeptByOffer(c, s, w, j); }
    forall i | 0 <= i < |s'.callers| ensures NextInv(c, s', i) { assert NextInv(c, s, i); }
  }

  // --- Workers --------------------------------------------------------------------------------

  lemma SlotBalance(pc: Worker, act: WorkerAct)
    requires AtAct(pc, act)
    ensures WorkerCharge(SlotsHeld, pc) + WorkerEffect(pc, act).acquired
         == WorkerCharge(SlotsHeld, WorkerAfter(pc, act)) + WorkerEffect(pc, act).released
  {
  }

  lemma ConnBalance(pc: Worker, act: WorkerAct, k: Conn)
    requires AtAct(pc, act)
    ensures WorkerCharge(Holding(k), pc) + WorkerEffect(pc, act).opens[k]
         == WorkerCharge(Holding(k), WorkerAfter(pc, act)) + WorkerEffect(pc, act).closes[k]
  {
    match act
    case Quit =>
    case Acquire =>
    case DialSucceeds(_) =>
    case DialFails(_, None) =>
    case DialFails(_, Some(_)) =>
    case CloseFailed =>
    case ReleaseFailed =>
    case GiveUp =>
    case CloseUnsent =>
    case ReleaseUnsent =>
  }

  lemma DialBalance(pc: Worker, act: WorkerAct, j: nat)
    requires AtAct(pc, act)
    ensures WorkerCharge(Undialed(j), pc)
         == WorkerCharge(Undialed(j), WorkerAfter(pc, act))
            + WorkerEffect(pc, act).dials[j] + WorkerEffect(pc, act).skips[j]
  {
  }

  lemma ReportBalance(pc: Worker, act: WorkerAct, j: nat)
    requires AtAct(pc, act)
    ensures WorkerCharge(Unreported(j), pc) + WorkerEffect(pc, act).dials[j]
         == WorkerCharge(Unreported(j), WorkerAfter(pc, act)) + WorkerEffect(pc, act).drops[j]
  {
    match act
    case Quit =>
    case Acquire =>
    case DialSucceeds(_) =>
    case DialFails(_, None) =>
    case DialFails(_, Some(_)) =>
    case CloseFailed =>
    case ReleaseFailed =>
    case GiveUp =>
    case CloseUnsent =>
    case ReleaseUnsent =>
  }

  lemma OwnedKeptByWork(s: State, w: nat, act: WorkerAct, k: Conn)
    requires Owned(s, k) && WorkEnabled(s, w, act)
    ensures Owned(DoWork(s, w, act), k)
  {
    WorkMoves(Holding(k), s, w, act);
    WorkMoves(HandedOut(k), s, w, act);
    ConnBalance(s.workers[w], act, k);
    FreshDial(s, w, act, k);
  }

  lemma FreshDial(s: State, w: nat, act: WorkerAct, k: Conn)
    requires WorkEnabled(s, w, act)
    ensures WorkerEffect(s.workers[w], act).opens[k] > 0 ==>
              WorkerEffect(s.workers[w], act).opens[k] == 1 && s.log.conns[k] == 0
  {
  }

  lemma LedgerKeptByWork(s: State, w: nat, act: WorkerAct, j: nat)
    requires Ledger(s, j) && WorkEnabled(s, w, act)
    ensures Ledger(DoWork(s, w, act), j)
  {
    WorkMoves(Undialed(j), s, w, act);
    WorkMoves(Unreported(j), s, w, act);
    DialBalance(s.workers[w], act, j);
    ReportBalance(s.workers[w], act, j);
  }

  lemma ControlKeptByWork(c: Config, s: State, w: nat, act: WorkerAct)
    requires ControlInv(c, s) && WorkEnabled(s, w, act)
    ensures ControlInv(c, DoWork(s, w, act))
    ensures !s.resultsClosed
  {
  }

  lemma NothingLostByWork(s: State, w: nat, act: WorkerAct)
    requires WorkEnabled(s, w, act) && !s.cancelled && NothingLost(s)
    ensures NothingLost(DoWork(s, w, act))
  {
  }

  lemma WorkKeepsInv(c: Config, s: State, w: nat, act: WorkerAct)
    requires Inv(c, s) && WorkEnabled(s, w, act)
    ensures Inv(c, DoWork(s, w, act))
  {
    var s' := DoWork(s, w, act);
    WorkMoves(SlotsHeld, s, w, act);
    SlotBalance(s.workers[w], act);
    ReceiptFrame(s, s');
    forall k ensures Owned(s', k) { OwnedKeptByWork(s, w, act, k); }
    forall j ensures Ledger(s', j) { LedgerKeptByWork(s, w, act, j); }
    ControlKeptByWork(c, s, w, act);
    if !s.cancelled { NothingLostByWork(s, w, act); }
    forall i | 0 <= i < |s'.callers| ensures NextInv(c, s', i) { assert NextInv(c, s, i); }
  }

  // --- Delivery -------------------------------------------------------------------------------

  lemma OwnedKeptByDeliver(s: State, w: nat, k: Conn)
    requires Owned(s, k) && DeliverEnabled(s, w)
    ensures Owned(DoDeliver(s, w), k)
  {
    DeliverMoves(Holding(k), s, w);
    assert Total(HandedOut(k), DoDeliver(s, w)) == Total(HandedOut(k), s) by { DeliverMoves(HandedOut(k), s, w); }
  }

  lemma LedgerKeptByDeliver(s: State, w: nat, j: nat)
    requires Ledger(s, j) && DeliverEnabled(s, w)
    ensures Ledger(DoDeliver(s, w), j)
  {
    DeliverMoves(Undialed(j), s, w);
    DeliverRecords(s, w);
    AccountedKeptByDeliver(s, w, j);
    hide DoDeliver, Total, Accounted;
  }

  lemma AccountedKeptByDeliver(s: State, w: nat, j: nat)
    requires Accounted(s, j) && DeliverEnabled(s, w)
    ensures Accounted(DoDeliver(s, w), j)
  {
    var result := s.workers[w].result;
    DeliverRecords(s, w);
    hide DoDeliver, Reports, Total;
    ReportsSnoc(s.collected, result, j);
    DeliverMoves(Unreported(j), s, w);
  }

  lemma DeliverRecords(s: State, w: nat)
    requires DeliverEnabled(s, w)
    ensures DoDeliver(s, w).collected == s.collected + [s.workers[w].result]
    ensures DoDeliver(s, w).log == s.log && DoDeliver(s, w).fed == s.fed
  {
  }

  lemma ReportsSnoc(rs: seq<DialResult>, r: DialResult, j: nat)
    ensures Reports(rs + [r], j) == Reports(rs, j) + One(ResultEndpoint(r) == j)
  {
    assert (rs + [r])[..|rs|] == rs;
  }

  lemma CollectedSnoc(rs: seq<DialResult>, r: DialResult)
    ensures Successes(rs + [r]) == Successes(rs) + if r.Dialed? then [r.candidate] else []
    ensures Failures(rs + [r]) ==
              Failures(rs) + if r.Failed? && r.err.Other? then [Failure(r.endpoint, r.err.code)] else []
  {
    assert (rs + [r])[..|rs|] == rs;
  }

  lemma CollectKeptByDeliver(s: State, w: nat)
    requires CollectInv(s) && DeliverEnabled(s, w)
    ensures CollectInv(DoDeliver(s, w))
  {
    hide Successes, Failures;
    CollectedSnoc(s.collected, s.workers[w].result);
  }

  lemma SlotInvKeptByDeliver(s: State, w: nat)
    requires SlotInv(s) && DeliverEnabled(s, w)
    ensures SlotInv(DoDeliver(s, w))
  {
    DeliverMoves(SlotsHeld, s, w);
  }

  lemma NextKeptByDeliver(c: Config, s: State, w: nat, i: nat)
    requires i < |s.callers| && NextInv(c, s, i) && DeliverEnabled(s, w)
    ensures NextInv(c, DoDeliver(s, w), i)
  {
  }

  lemma DeliverKeepsInv(c: Config, s: State, w: nat)
    requires Inv(c, s) && DeliverEnabled(s, w)
    ensures Inv(c, DoDeliver(s, w))
  {
    hide SlotInv, Owned, Ledger, CollectInv, NextInv, ReceiptInv;
    var s' := DoDeliver(s, w);
    SlotInvKeptByDeliver(s, w);
    ReceiptFrame(s, s');
    forall k ensures Owned(s', k) { OwnedKeptByDeliver(s, w, k); }
    forall j ensures Ledger(s', j) { LedgerKeptByDeliver(s, w, j); }
    CollectKeptByDeliver(s, w);
    forall i | 0 <= i < |s'.callers| ensures NextInv(c, s', i) { NextKeptByDeliver(c, s, w, i); }
  }

  // --- Collector ------------------------------------------------------------------------------

  lemma OwnedKeptByCollect(c: Config, s: State, act: CollectorAct, k: Conn)
    requires Owned(s, k) && CollectEnabled(c, s, act)
    ensures Owned(DoCollect(c, s, act), k)
  {
    CollectMoves(Holding(k), c, s, act);
    assert Total(HandedOut(k), DoCollect(c, s, act)) == Total(HandedOut(k), s) by {
      CollectMoves(HandedOut(k), c, s, act);
    }
  }

  lemma LedgerKeptByCollect(c: Config, s: State, act: CollectorAct, j: nat)
    requires Ledger(s, j) && CollectEnabled(c, s, act)
    ensures Ledger(DoCollect(c, s, act), j)
  {
    assert Total(Undialed(j), DoCollect(c, s, act)) == Total(Undialed(j), s) by {
      CollectMoves(Undialed(j), c, s, act);
    }
    assert Total(Unreported(j), DoCollect(c, s, act)) == Total(Unreported(j), s) by {
      CollectMoves(Unreported(j), c, s, act);
    }
  }

  lemma CollectKeptByCollect(c: Config, s: State, act: CollectorAct)
    requires CollectInv(s) && CollectEnabled(c, s, act)
    ensures CollectInv(DoCollect(c, s, act))
  {
  }

  lemma NextKeptByCollect(c: Config, s: State, act: CollectorAct, i: nat)
    requires i < |s.callers| && NextInv(c, s, i) && CollectEnabled(c, s, act)
    ensures NextInv(c, DoCollect(c, s, act), i)
  {
  }

  lemma SlotInvKeptByCollect(c: Config, s: State, act: CollectorAct)
    requires SlotInv(s) && CollectEnabled(c, s, act)
    ensures SlotInv(DoCollect(c, s, act))
  {
    CollectMoves(SlotsHeld, c, s, act);
  }

  lemma CollectKeepsInv(c: Config, s: State, act: CollectorAct)
    requires Inv(c, s) && CollectEnabled(c, s, act)
    ensures Inv(c, DoCollect(c, s, act))
  {
    hide SlotInv, Owned, Ledger, CollectInv, NextInv, ReceiptInv;
    var s' := DoCollect(c, s, act);
    SlotInvKeptByCollect(c, s, act);
    ReceiptFrame(s, s');
    forall k ensures Owned(s', k) { OwnedKeptByCollect(c, s, act, k); }
    forall j ensures Ledger(s', j) { LedgerKeptByCollect(c, s, act, j); }
    CollectKeptByCollect(c, s, act);
    forall i | 0 <= i < |s'.callers| ensures NextInv(c, s', i) { NextKeptByCollect(c, s, act, i); }
  }

  // --- Next -----------------------------------------------------------------------------------

  lemma OwnedKeptByNext(s: State, i: nat, k: Conn)
    requires Owned(s, k) && NextEnabled(s, i)
    ensures Owned(DoNext(s, i), k)
  {
    NextMoves(Holding(k), s, i);
    NextMoves(HandedOut(k), s, i);
    NextRecords(s, i);
    hide DoNext, Total;
  }

  lemma NextRecords(s: State, i: nat)
    requires NextEnabled(s, i)
    ensures var e := CallerEffect(s.cancelled, s.callers[i]);
      DoNext(s, i).log.conns == s.log.conns && DoNext(s, i).log.closes == s.log.closes + e.closes
  {
  }

  lemma LedgerKeptByNext(s: State, i: nat, j: nat)
    requires Ledger(s, j) && NextEnabled(s, i)
    ensures Ledger(DoNext(s, i), j)
  {
    assert Total(Undialed(j), DoNext(s, i)) == Total(Undialed(j), s) by { NextMoves(Undialed(j), s, i); }
    assert Total(Unreported(j), DoNext(s, i)) == Total(Unreported(j), s) by { NextMoves(Unreported(j), s, i); }
  }

  /** Uncancelled, the candidates channel closes only after every endpoint was fed. */
  lemma ClosedMeansExhausted(c: Config, s: State)
    requires ControlInv(c, s) && !s.cancelled && NothingLost(s) && s.CandidatesAreClosed() && s.queue == []
    requires ReceiptInv(s)
    ensures Exhausted(c, s)
  {
    assert Leaving(s.workers[0]);
    forall r | 0 <= r < |s.receivers| ensures s.receivers[r] != CloseCall {
      assert Receipt(s, r);
    }
  }

  lemma ReceiptKeptByNext(s: State, i: nat)
    requires ReceiptInv(s) && NextEnabled(s, i)
    ensures ReceiptInv(DoNext(s, i))
  {
    var s' := DoNext(s, i);
    forall r | 0 <= r < |s'.receivers| ensures Receipt(s', r) {
      if r < |s.receivers| { assert Receipt(s, r); }
    }
    forall r | 0 <= r < |s.receivers| && s.callers[i].Waiting? ensures s.receivers[r] != NextCall(i) {
      assert Receipt(s, r);
    }
  }

  lemma ReceiptKeptByClose(s: State)
    requires ReceiptInv(s) && CloseEnabled(s) && s.cancelled
    ensures ReceiptInv(DoClose(s))
  {
    var s' := DoClose(s);
    forall r | 0 <= r < |s'.receivers| ensures Receipt(s', r) {
      if r < |s.receivers| { assert Receipt(s, r); }
    }
  }

  /** A step that touches neither the receipts nor the calls of Next keeps what relates them. */
  lemma ReceiptFrame(s: State, s': State)
    requires ReceiptInv(s)
    requires s'.receivers == s.receivers && s'.taken == s.taken && (s.cancelled ==> s'.cancelled)
    requires s.callers <= s'.callers && forall i :: |s.callers| <= i < |s'.callers| ==> s'.callers[i] == Entering
    ensures ReceiptInv(s')
  {
    forall r | 0 <= r < |s'.receivers| ensures Receipt(s', r) { assert Receipt(s, r); }
  }

  lemma NextKeptByNext(c: Config, s: State, i: nat, i': nat)
    requires i' < |s.callers| && NextInv(c, s, i') && NextEnabled(s, i)
    requires s.callers[i].SawClosed? && !s.cancelled ==> Exhausted(c, s)
    ensures NextInv(c, DoNext(s, i), i')
  {
  }

  lemma CollectKeptByNext(s: State, i: nat)
    requires CollectInv(s) && NextEnabled(s, i)
    ensures CollectInv(DoNext(s, i))
  {
    hide Successes, Failures;
  }

  lemma ControlKeptByNext(c: Config, s: State, i: nat)
    requires ControlInv(c, s) && NextEnabled(s, i)
    ensures ControlInv(c, DoNext(s, i))
  {
  }

  lemma SlotInvKeptByNext(s: State, i: nat)
    requires SlotInv(s) && NextEnabled(s, i)
    ensures SlotInv(DoNext(s, i))
  {
    NextMoves(SlotsHeld, s, i);
  }

  lemma NextKeepsInv(c: Config, s: State, i: nat)
    requires Inv(c, s) && NextEnabled(s, i)
    ensures Inv(c, DoNext(s, i))
  {
    var s' := DoNext(s, i);
    SlotInvKeptByNext(s, i);
    CollectKeptByNext(s, i);
    ControlKeptByNext(c, s, i);
    assert NextInv(c, s, i);
    if s.callers[i].SawClosed? && !s.cancelled { ClosedMeansExhausted(c, s); }
    ReceiptKeptByNext(s, i);
    forall k ensures Owned(s', k) { OwnedKeptByNext(s, i, k); }
    forall j ensures Ledger(s', j) { LedgerKeptByNext(s, i, j); }
    forall i' | 0 <= i' < |s'.callers| ensures NextInv(c, s', i') {
      assert NextInv(c, s, i');
      NextKeptByNext(c, s, i, i');
    }
  }

  // --- Close ----------------------------------------------------------------------------------

  lemma OwnedKeptByClose(s: State, k: Conn)
    requires Owned(s, k) && CloseEnabled(s)
    ensures Owned(DoClose(s), k)
  {
    CloseMoves(Holding(k), s);
    assert Total(HandedOut(k), DoClose(s)) == Total(HandedOut(k), s) by { CloseMoves(HandedOut(k), s); }
  }

  lemma LedgerKeptByClose(s: State, j: nat)
    requires Ledger(s, j) && CloseEnabled(s)
    ensures Ledger(DoClose(s), j)
  {
    assert Total(Undialed(j), DoClose(s)) == Total(Undialed(j), s) by { CloseMoves(Undialed(j), s); }
    assert Total(Unreported(j), DoClose(s)) == Total(Unreported(j), s) by { CloseMoves(Unreported(j), s); }
  }

  lemma SlotInvKeptByClose(s: State)
    requires SlotInv(s) && CloseEnabled(s)
    ensures SlotInv(DoClose(s))
  {
    CloseMoves(SlotsHeld, s);
  }

  lemma CloseKeepsInv(c: Config, s: State)
    requires Inv(c, s) && CloseEnabled(s)
    ensures Inv(c, DoClose(s))
  {
    hide SlotInv, Owned, Ledger;
    var s' := DoClose(s);
    SlotInvKeptByClose(s);
    ReceiptKeptByClose(s);
    forall k ensures Owned(s', k) { OwnedKeptByClose(s, k); }
    forall j ensures Ledger(s', j) { LedgerKeptByClose(s, j); }
    forall i | 0 <= i < |s'.callers| ensures NextInv(c, s', i) { assert NextInv(c, s, i); }
  }
}
