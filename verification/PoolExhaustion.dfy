/** What ErrNoMoreCandidates means, and that exhaustErr is final when it is read. */
module PoolExhaustion {
  import opened PoolModel
  import opened PoolMeters
  import opened PoolInvariants
  import opened PoolRuns

  // --- exhaustErr -----------------------------------------------------------------------------

  /** No step changes exhaustErr once the collector has assigned it. */
  lemma StepKeepsExhaustErr(c: Config, s: State, t: Step)
    requires Enabled(c, s, t) && CollectorFinished(s.collector)
    ensures Apply(c, s, t).exhaustErr == s.exhaustErr && CollectorFinished(Apply(c, s, t).collector)
  {
    match t
    case Collect(act) =>
    case Work(w, act) => assert DoWork(s, w, act).collector == s.collector;
    case _ =>
  }

  lemma {:induction false} ExhaustErrIsFinal(c: Config, s: State, run: seq<Step>)
    requires IsRun(c, s, run) && CollectorFinished(s.collector)
    ensures After(c, s, run).exhaustErr == s.exhaustErr
    decreases |run|
  {
    if run != [] {
      StepKeepsExhaustErr(c, s, run[0]);
      ExhaustErrIsFinal(c, Apply(c, s, run[0]), run[1..]);
    }
  }

  /** Next reads exhaustErr only when nothing will change it any more. */
  lemma ExhaustErrReadWhenFinal(c: Config, s: State, i: nat, run: seq<Step>)
    requires c.Valid() && Reachable(c, s) && i < |s.callers| && s.callers[i].SawClosed?
    requires IsRun(c, s, run)
    ensures After(c, s, run).exhaustErr == s.exhaustErr == Failures(s.collected)
  {
    ReachableInv(c, s);
    assert NextInv(c, s, i);
    ExhaustErrIsFinal(c, s, run);
  }

  // --- Dials ----------------------------------------------------------------------------------

  /** In every run, an endpoint is dialled at most once. */
  lemma AtMostOneDial(c: Config, s: State, j: nat)
    requires c.Valid() && Reachable(c, s)
    ensures s.log.dials[j] <= One(j < c.endpoints)
  {
    ReachableInv(c, s);
    assert Ledger(s, j);
  }

  // --- ErrNoMoreCandidates --------------------------------------------------------------------

  ghost predicate ReportsExhaustion(s: State, i: nat) {
    i < |s.callers| && s.callers[i].Returned? && s.callers[i].result.NoMoreCandidates?
  }

  lemma ExhaustedWorkers(c: Config, s: State, j: nat)
    requires Inv(c, s) && s.CandidatesAreClosed()
    ensures Total(Undialed(j), s) == 0 == Total(Unreported(j), s)
  {
    if Workers(Undialed(j), s.workers) > 0 { var w := WorkerFor(Undialed(j), s.workers); }
    if Workers(Unreported(j), s.workers) > 0 { var w := WorkerFor(Unreported(j), s.workers); }
    if Queued(Undialed(j), s.queue) > 0 { var q := QueuedFor(Undialed(j), s.queue); }
    if Queued(Unreported(j), s.queue) > 0 { var q := QueuedFor(Unreported(j), s.queue); }
    if Callers(Undialed(j), s.callers) > 0 { var i := CallerFor(Undialed(j), s.callers); }
    if Callers(Unreported(j), s.callers) > 0 { var i := CallerFor(Unreported(j), s.callers); }
  }

  /** Exhaustion is complete: every endpoint was dialled exactly once and reported exactly once. The
      reports split into the successes, which went to calls of Next in collection order, one each; the
      failures, which make up the returned error in collection order; and the cancellations. */
  lemma ExhaustionIsComplete(c: Config, s: State, i: nat)
    requires c.Valid() && Reachable(c, s) && ReportsExhaustion(s, i)
    ensures forall j: nat :: s.log.dials[j] == Reports(s.collected, j) == One(j < c.endpoints)
    ensures s.taken == Successes(s.collected)
    ensures s.callers[i].result.errs == s.exhaustErr == Failures(s.collected)
    ensures |s.receivers| == |s.taken| && forall r :: 0 <= r < |s.taken| ==>
              && s.receivers[r].NextCall? && s.receivers[r].i < |s.callers|
              && HasReceived(s.callers[s.receivers[r].i], s.taken[r])
    ensures forall r, r' :: 0 <= r < r' < |s.taken| ==> s.receivers[r] != s.receivers[r']
  {
    ReachableInv(c, s);
    assert NextInv(c, s, i);
    forall j: nat ensures s.log.dials[j] == Reports(s.collected, j) == One(j < c.endpoints) {
      assert Ledger(s, j);
      ExhaustedWorkers(c, s, j);
    }
    assert !s.collector.Queueing?;
    forall r | 0 <= r < |s.taken|
      ensures s.receivers[r].NextCall? && s.receivers[r].i < |s.callers|
      ensures HasReceived(s.callers[s.receivers[r].i], s.taken[r])
    {
      assert Receipt(s, r);
    }
  }
}
