/** The invariant over whole runs, and what it says about connections, slots and the queue. */
module PoolRuns {
  import opened PoolModel
  import opened PoolMeters
  import opened PoolInvariants

  // --- Every reachable state keeps the invariant ------------------------------------------------

  /** Steps that only raise a flag or start Close. */
  ghost predicate Signal(t: Step) {
    t.Cancel? || t.StopFeeding? || t.CloseResults? || t.CallClose?
  }

  lemma SignalMoves(m: Meter, c: Config, s: State, t: Step)
    requires Enabled(c, s, t) && Signal(t)
    ensures var s' := Apply(c, s, t);
      && Total(m, s') + CloserCharge(m, s.closer) == Total(m, s) + CloserCharge(m, s'.closer)
      && (s'.closer == s.closer || (s.closer.NotCalled? && s'.closer.AwaitingDone?))
      && s'.slots == s.slots && s'.log == s.log && s'.fed == s.fed && s'.collected == s.collected
  {
  }

  lemma SignalKeepsOwned(c: Config, s: State, t: Step, k: Conn)
    requires Owned(s, k) && Enabled(c, s, t) && Signal(t)
    ensures Owned(Apply(c, s, t), k)
  {
    SignalMoves(Holding(k), c, s, t);
    SignalMoves(HandedOut(k), c, s, t);
    hide Apply, Enabled, Total;
  }

  lemma SignalKeepsLedger(c: Config, s: State, t: Step, j: nat)
    requires Ledger(s, j) && Enabled(c, s, t) && Signal(t)
    ensures Ledger(Apply(c, s, t), j)
  {
    SignalMoves(Undialed(j), c, s, t);
    SignalMoves(Unreported(j), c, s, t);
    hide Apply, Enabled, Total;
  }

  lemma SignalKeepsSlots(c: Config, s: State, t: Step)
    requires SlotInv(s) && Enabled(c, s, t) && Signal(t)
    ensures SlotInv(Apply(c, s, t))
  {
    SignalMoves(SlotsHeld, c, s, t);
  }

  lemma SignalKeepsNext(c: Config, s: State, t: Step, i: nat)
    requires i < |s.callers| && NextInv(c, s, i) && Enabled(c, s, t) && Signal(t)
    ensures i < |Apply(c, s, t).callers| && NextInv(c, Apply(c, s, t), i)
  {
  }

  lemma SignalKeepsInv(c: Config, s: State, t: Step)
    requires Inv(c, s) && Enabled(c, s, t) && Signal(t)
    ensures Inv(c, Apply(c, s, t))
  {
    hide SlotInv, Owned, Ledger, ReceiptInv, NextInv;
    var s' := Apply(c, s, t);
    SignalKeepsSlots(c, s, t);
    ReceiptFrame(s, s');
    forall k ensures Owned(s', k) { SignalKeepsOwned(c, s, t, k); }
    forall j ensures Ledger(s', j) { SignalKeepsLedger(c, s, t, j); }
    forall i | 0 <= i < |s'.callers| ensures NextInv(c, s', i) { SignalKeepsNext(c, s, t, i); }
  }

  lemma CallNextMoves(m: Meter, c: Config, s: State)
    ensures var s' := Apply(c, s, CallNext);
      && Total(m, s') == Total(m, s) + CallerCharge(m, Entering)
      && s'.slots == s.slots && s'.log == s.log && s'.fed == s.fed && s'.collected == s.collected
  {
    CallersAppend(m, s.callers, Entering);
  }

  lemma CallNextKeepsOwned(c: Config, s: State, k: Conn)
    requires Owned(s, k)
    ensures Owned(Apply(c, s, CallNext), k)
  {
    CallNextMoves(Holding(k), c, s);
    CallNextMoves(HandedOut(k), c, s);
    hide Apply, Total;
  }

  lemma CallNextKeepsLedger(c: Config, s: State, j: nat)
    requires Ledger(s, j)
    ensures Ledger(Apply(c, s, CallNext), j)
  {
    CallNextMoves(Undialed(j), c, s);
    CallNextMoves(Unreported(j), c, s);
    hide Apply, Total;
  }

  lemma CallNextKeepsInv(c: Config, s: State)
    requires Inv(c, s)
    ensures Inv(c, Apply(c, s, CallNext))
  {
    hide Owned, Ledger, ReceiptInv, Total;
    var s' := Apply(c, s, CallNext);
    CallNextMoves(SlotsHeld, c, s);
    ReceiptFrame(s, s');
    forall k ensures Owned(s', k) { CallNextKeepsOwned(c, s, k); }
    forall j ensures Ledger(s', j) { CallNextKeepsLedger(c, s, j); }
    forall i | 0 <= i < |s'.callers| ensures NextInv(c, s', i) {
      if i < |s.callers| { assert NextInv(c, s, i); }
    }
  }

  lemma StepKeepsInv(c: Config, s: State, t: Step)
    requires Inv(c, s) && Enabled(c, s, t)
    ensures Inv(c, Apply(c, s, t))
  {
    match t
    case Offer(w) => OfferKeepsInv(c, s, w);
    case Work(w, act) => WorkKeepsInv(c, s, w, act);
    case Deliver(w) => DeliverKeepsInv(c, s, w);
    case Collect(act) => CollectKeepsInv(c, s, act);
    case CallNext => CallNextKeepsInv(c, s);
    case Next(i) => NextKeepsInv(c, s, i);
    case Close => CloseKeepsInv(c, s);
    case Cancel => SignalKeepsInv(c, s, t);
    case StopFeeding => SignalKeepsInv(c, s, t);
    case CloseResults => SignalKeepsInv(c, s, t);
    case CallClose => SignalKeepsInv(c, s, t);
  }

  lemma {:induction false} IdleWorkersCharge(m: Meter, ws: seq<Worker>)
    requires forall w :: 0 <= w < |ws| ==> ws[w] == Idle
    ensures Workers(m, ws) == |ws| * WorkerCharge(m, Idle)
  {
    if ws != [] {
      IdleWorkersCharge(m, ws[1..]);
    }
  }

  lemma InitInv(c: Config)
    requires c.Valid()
    ensures Inv(c, Init(c))
  {
    var s := Init(c);
    forall m: Meter ensures Workers(m, s.workers) == |s.workers| * WorkerCharge(m, Idle) {
      IdleWorkersCharge(m, s.workers);
    }
    forall k ensures Owned(s, k) { assert Workers(Holding(k), s.workers) == 0; }
    forall j ensures Ledger(s, j) {
      assert Workers(Undialed(j), s.workers) == 0 == Workers(Unreported(j), s.workers);
    }
  }

  lemma {:induction false} RunKeepsInv(c: Config, s: State, run: seq<Step>)
    requires Inv(c, s) && IsRun(c, s, run)
    ensures Inv(c, After(c, s, run))
    decreases |run|
  {
    if run != [] {
      StepKeepsInv(c, s, run[0]);
      RunKeepsInv(c, Apply(c, s, run[0]), run[1..]);
    }
  }

  lemma ReachableInv(c: Config, s: State)
    requires c.Valid() && Reachable(c, s)
    ensures Inv(c, s)
  {
    var run :| IsRun(c, Init(c), run) && After(c, Init(c), run) == s;
    InitInv(c);
    RunKeepsInv(c, Init(c), run);
  }

  lemma {:induction false} RunsCompose(c: Config, s: State, run: seq<Step>, more: seq<Step>)
    requires IsRun(c, s, run) && IsRun(c, After(c, s, run), more)
    ensures IsRun(c, s, run + more) && After(c, s, run + more) == After(c, After(c, s, run), more)
    decreases |run|
  {
    if run == [] {
      assert run + more == more;
    } else {
      assert (run + more)[1..] == run[1..] + more;
      RunsCompose(c, Apply(c, s, run[0]), run[1..], more);
    }
  }

  lemma ReachableAfter(c: Config, s: State, run: seq<Step>)
    requires Reachable(c, s) && IsRun(c, s, run)
    ensures Reachable(c, After(c, s, run))
  {
    var before :| IsRun(c, Init(c), before) && After(c, Init(c), before) == s;
    RunsCompose(c, Init(c), before, run);
  }
}
