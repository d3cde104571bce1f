/**
 * Additive quantities of a pool state. A meter charges every goroutine, every queued candidate
 * and every call a number that depends on its program counter alone; a step of one actor then
 * changes the total by what it changes that actor's charge.
 */
module PoolMeters {
  import opened Wrappers
  import opened PoolModel

  datatype Meter =
    | SlotsHeld              // semaphore tokens the actor has to give back
    | Holding(conn: Conn)    // the pool has `conn` in hand here
    | HandedOut(conn: Conn)  // `conn` was returned by this call of Next
    | Served                 // this call of Next received a candidate and did not give it up
    | Undialed(job: nat)     // the endpoint was fed but not dialled yet
    | Unreported(job: nat)   // the endpoint was dialled but its result is still with the worker
    | Occupying              // a dial in progress, or a connection that still counts against the budget
    | PoolWork               // how much the pool's goroutines still have to do
    | AllWork                // the same for goroutines, calls of Next, and Close

  function One(b: bool): nat {
    if b then 1 else 0
  }

  function WorkerCharge(m: Meter, w: Worker): nat {
    match m
    case SlotsHeld =>
      One(!w.Idle? && !w.GotJob? && !w.Exited? && (w.Sending? ==> w.result.Dialed?))
    case Holding(k) => One(WorkerConn(w) == Some(k))
    case HandedOut(_) => 0
    case Served => 0
    case Undialed(j) => One(w == GotJob(j))
    case Unreported(j) => One(UnreportedJob(w) == Some(j))
    case Occupying => One(w.Dialing? || WorkerConn(w).Some?)
    case PoolWork => WorkerWork(w)
    case AllWork => 4 * WorkerWork(w)
  }

  /** The connection a worker has in hand. */
  function WorkerConn(w: Worker): Option<Conn> {
    match w
    case ClosingFailed(_, conn, _) => Some(conn)
    case Sending(Dialed(x)) => Some(x.conn)
    case ClosingUnsent(conn) => Some(conn)
    case _ => None
  }

  /** The job a worker has begun to dial and whose result it may still deliver. */
  function UnreportedJob(w: Worker): Option<nat> {
    match w
    case Dialing(job) => Some(job)
    case ClosingFailed(job, _, _) => Some(job)
    case ReleasingFailed(job, _) => Some(job)
    case Sending(r) => Some(ResultEndpoint(r))
    case _ => None
  }

  function WorkerWork(w: Worker): nat {
    match w
    case GotJob(_) => 6
    case Dialing(_) => 5
    case ClosingFailed(_, _, _) => 4
    case Sending(Dialed(_)) => 4
    case ReleasingFailed(_, _) => 3
    case ClosingUnsent(_) => 3
    case Sending(Failed(_, _)) => 2
    case ReleasingUnsent => 2
    case Idle => 1
    case Exited => 0
  }

  function CollectorCharge(m: Meter, k: Collector): nat {
    match m
    case SlotsHeld => One(k.Queueing? || k.Discarding?)
    case Holding(conn) => One(k.Queueing? && k.candidate.conn == conn)
    case Occupying => One(k.Queueing?)
    case PoolWork => CollectorWork(k)
    case AllWork => 4 * CollectorWork(k)
    case _ => 0
  }

  function CollectorWork(k: Collector): nat {
    match k
    case Queueing(_) => 5
    case Discarding => 4
    case Receiving => 3
    case Finalized => 2
    case CandidatesClosed => 1
    case DoneClosed => 0
  }

  function QueuedCharge(m: Meter, x: Candidate): nat {
    match m
    case SlotsHeld => 1
    case Occupying => 1
    case Holding(conn) => One(x.conn == conn)
    case AllWork => 3
    case _ => 0
  }

  function CallerCharge(m: Meter, k: Caller): nat {
    match m
    case SlotsHeld => One(k.Claimed?)
    case Occupying => One(k.Claimed?)
    case Holding(conn) => One((k.Claimed? || k.Unslotted?) && k.candidate.conn == conn)
    case Served => One(k.Claimed? || k.Unslotted? || (k.Returned? && k.result.Got?))
    case HandedOut(conn) => One(k.Returned? && k.result.Got? && k.result.candidate.conn == conn)
    case AllWork => (
      match k
      case Entering => 4
      case Waiting => 3
      case Claimed(_) => 2
      case Unslotted(_) => 1
      case SawClosed => 1
      case Returned(_) => 0)
    case _ => 0
  }

  function CloserCharge(m: Meter, k: Closer): nat {
    match m
    case SlotsHeld => One(k.Closing? || k.Releasing?)
    case Occupying => One(k.Closing?)
    case Holding(conn) => One(k.Closing? && k.candidate.conn == conn)
    case AllWork => (
      match k
      case NotCalled => 0
      case AwaitingDone => 2
      case Draining => 1
      case Closing(_) => 3
      case Releasing => 2
      case Finished => 0)
    case _ => 0
  }

  // --- Totals -------------------------------------------------------------------------------

  function Workers(m: Meter, ws: seq<Worker>): nat {
    if ws == [] then 0 else WorkerCharge(m, ws[0]) + Workers(m, ws[1..])
  }

  function Queued(m: Meter, q: seq<Candidate>): nat {
    if q == [] then 0 else QueuedCharge(m, q[0]) + Queued(m, q[1..])
  }

  function Callers(m: Meter, ks: seq<Caller>): nat {
    if ks == [] then 0 else CallerCharge(m, ks[0]) + Callers(m, ks[1..])
  }

  function Total(m: Meter, s: State): nat {
    Workers(m, s.workers) + CollectorCharge(m, s.collector) + Queued(m, s.queue) + Callers(m, s.callers)
    + CloserCharge(m, s.closer)
  }

  lemma {:induction false} WorkersUpdate(m: Meter, ws: seq<Worker>, i: nat, w: Worker)
    requires i < |ws|
    ensures Workers(m, ws[i := w]) + WorkerCharge(m, ws[i]) == Workers(m, ws) + WorkerCharge(m, w)
  {
    if i == 0 {
      assert ws[i := w][1..] == ws[1..];
    } else {
      assert ws[i := w][1..] == ws[1..][i - 1 := w];
      WorkersUpdate(m, ws[1..], i - 1, w);
    }
  }

  lemma {:induction false} CallersUpdate(m: Meter, ks: seq<Caller>, i: nat, k: Caller)
    requires i < |ks|
    ensures Callers(m, ks[i := k]) + CallerCharge(m, ks[i]) == Callers(m, ks) + CallerCharge(m, k)
  {
    if i == 0 {
      assert ks[i := k][1..] == ks[1..];
    } else {
      assert ks[i := k][1..] == ks[1..][i - 1 := k];
      CallersUpdate(m, ks[1..], i - 1, k);
    }
  }

  lemma {:induction false} CallersAppend(m: Meter, ks: seq<Caller>, k: Caller)
    ensures Callers(m, ks + [k]) == Callers(m, ks) + CallerCharge(m, k)
  {
    if ks != [] {
      assert (ks + [k])[1..] == ks[1..] + [k];
      CallersAppend(m, ks[1..], k);
    }
  }

  lemma {:induction false} QueuedAppend(m: Meter, q: seq<Candidate>, x: Candidate)
    ensures Queued(m, q + [x]) == Queued(m, q) + QueuedCharge(m, x)
  {
    if q != [] {
      assert (q + [x])[1..] == q[1..] + [x];
      QueuedAppend(m, q[1..], x);
    }
  }

  // --- Totals and single actors ---------------------------------------------------------------

  lemma {:induction false} WorkersAtLeast(m: Meter, ws: seq<Worker>, i: nat)
    requires i < |ws|
    ensures WorkerCharge(m, ws[i]) <= Workers(m, ws)
  {
    if i > 0 {
      WorkersAtLeast(m, ws[1..], i - 1);
    }
  }

  lemma {:induction false} WorkerFor(m: Meter, ws: seq<Worker>) returns (i: nat)
    requires Workers(m, ws) > 0
    ensures i < |ws| && WorkerCharge(m, ws[i]) > 0
  {
    if WorkerCharge(m, ws[0]) > 0 {
      i := 0;
    } else {
      i := WorkerFor(m, ws[1..]);
      i := i + 1;
    }
  }

  lemma {:induction false} CallersAtLeast(m: Meter, ks: seq<Caller>, i: nat)
    requires i < |ks|
    ensures CallerCharge(m, ks[i]) <= Callers(m, ks)
  {
    if i > 0 {
      CallersAtLeast(m, ks[1..], i - 1);
    }
  }

  lemma {:induction false} WorkersPair(m: Meter, ws: seq<Worker>, i: nat, j: nat)
    requires i < j < |ws|
    ensures WorkerCharge(m, ws[i]) + WorkerCharge(m, ws[j]) <= Workers(m, ws)
  {
    if i == 0 {
      WorkersAtLeast(m, ws[1..], j - 1);
    } else {
      WorkersPair(m, ws[1..], i - 1, j - 1);
    }
  }

  lemma {:induction false} QueuedPair(m: Meter, q: seq<Candidate>, i: nat, j: nat)
    requires i < j < |q|
    ensures QueuedCharge(m, q[i]) + QueuedCharge(m, q[j]) <= Queued(m, q)
  {
    if i == 0 {
      QueuedAtLeast(m, q[1..], j - 1);
    } else {
      QueuedPair(m, q[1..], i - 1, j - 1);
    }
  }

  lemma {:induction false} CallersPair(m: Meter, ks: seq<Caller>, i: nat, j: nat)
    requires i < j < |ks|
    ensures CallerCharge(m, ks[i]) + CallerCharge(m, ks[j]) <= Callers(m, ks)
  {
    if i == 0 {
      CallersAtLeast(m, ks[1..], j - 1);
    } else {
      CallersPair(m, ks[1..], i - 1, j - 1);
    }
  }

  lemma {:induction false} CallerFor(m: Meter, ks: seq<Caller>) returns (i: nat)
    requires Callers(m, ks) > 0
    ensures i < |ks| && CallerCharge(m, ks[i]) > 0
  {
    if CallerCharge(m, ks[0]) > 0 {
      i := 0;
    } else {
      i := CallerFor(m, ks[1..]);
      i := i + 1;
    }
  }

  lemma {:induction false} QueuedAtLeast(m: Meter, q: seq<Candidate>, i: nat)
    requires i < |q|
    ensures QueuedCharge(m, q[i]) <= Queued(m, q)
  {
    if i > 0 {
      QueuedAtLeast(m, q[1..], i - 1);
    }
  }

  lemma {:induction false} QueuedFor(m: Meter, q: seq<Candidate>) returns (i: nat)
    requires Queued(m, q) > 0
    ensures i < |q| && QueuedCharge(m, q[i]) > 0
  {
    if QueuedCharge(m, q[0]) > 0 {
      i := 0;
    } else {
      i := QueuedFor(m, q[1..]);
      i := i + 1;
    }
  }

  lemma {:induction false} QueuedSlots(q: seq<Candidate>)
    ensures Queued(SlotsHeld, q) == |q|
  {
    if q != [] {
      QueuedSlots(q[1..]);
    }
  }

  // --- How a step moves a total ---------------------------------------------------------------

  lemma OfferMoves(m: Meter, c: Config, s: State, w: nat)
    requires OfferEnabled(c, s, w)
    ensures Total(m, DoOffer(c, s, w)) + WorkerCharge(m, Idle) == Total(m, s) + WorkerCharge(m, GotJob(s.fed))
  {
    WorkersUpdate(m, s.workers, w, GotJob(s.fed));
  }

  lemma WorkMoves(m: Meter, s: State, w: nat, act: WorkerAct)
    requires WorkEnabled(s, w, act)
    ensures Total(m, DoWork(s, w, act)) + WorkerCharge(m, s.workers[w])
         == Total(m, s) + WorkerCharge(m, WorkerAfter(s.workers[w], act))
  {
    WorkersUpdate(m, s.workers, w, WorkerAfter(s.workers[w], act));
  }

  lemma DeliverMoves(m: Meter, s: State, w: nat)
    requires DeliverEnabled(s, w)
    ensures Total(m, DoDeliver(s, w)) + WorkerCharge(m, s.workers[w]) + CollectorCharge(m, Receiving)
         == Total(m, s) + WorkerCharge(m, Idle) + CollectorCharge(m, DoDeliver(s, w).collector)
  {
    WorkersUpdate(m, s.workers, w, Idle);
  }

  lemma CollectMoves(m: Meter, c: Config, s: State, act: CollectorAct)
    requires CollectEnabled(c, s, act)
    ensures Total(m, DoCollect(c, s, act)) + CollectorCharge(m, s.collector)
         == Total(m, s) + CollectorCharge(m, CollectorAfter(s.collector, act))
            + if act.Enqueue? then QueuedCharge(m, s.collector.candidate) else 0
  {
    if act.Enqueue? {
      QueuedAppend(m, s.queue, s.collector.candidate);
    }
  }

  lemma NextMoves(m: Meter, s: State, i: nat)
    requires NextEnabled(s, i)
    ensures Total(m, DoNext(s, i)) + CallerCharge(m, s.callers[i])
            + (if s.callers[i].Waiting? && s.queue != [] then QueuedCharge(m, s.queue[0]) else 0)
         == Total(m, s) + CallerCharge(m, CallerAfter(s, s.callers[i]))
  {
    CallersUpdate(m, s.callers, i, CallerAfter(s, s.callers[i]));
  }

  lemma CloseMoves(m: Meter, s: State)
    requires CloseEnabled(s)
    ensures Total(m, DoClose(s)) + CloserCharge(m, s.closer)
            + (if s.closer.Draining? && s.queue != [] then QueuedCharge(m, s.queue[0]) else 0)
         == Total(m, s) + CloserCharge(m, CloserAfter(s, s.closer))
  {
  }
}
