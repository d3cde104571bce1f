/**
 * The peer candidate pool as a labelled transition system: one program counter per goroutine,
 * one step per channel operation, dial outcome, connection close or context check.
 *
 * A `select` with several ready branches offers several steps; nothing here prefers one.
 */
module PoolModel {
  import opened Wrappers

  /** maxWaitingCandidates: the capacity of the semaphore channel. */
  const SLOTS: nat := 4
  /** maxConcurrentDials. */
  const MAX_DIALS: nat := 4

  /** A connection's identity; every dial that opens one opens a new one. */
  type Conn = nat

  /** An attempt's error: one for which errors.Is(err, context.Canceled) holds, or another. */
  datatype DialError = Canceled | Other(code: int)

  /** Endpoints are named by their position in the deduplicated list. */
  datatype Candidate = Candidate(endpoint: nat, conn: Conn)

  datatype Failure = Failure(endpoint: nat, code: int)

  datatype DialResult = Dialed(candidate: Candidate) | Failed(endpoint: nat, err: DialError)

  /** `endpoints` is the number of unique endpoints. */
  datatype Config = Config(endpoints: nat, maxConcurrent: nat) {
    /** What validatePoolArguments lets through. */
    ghost predicate Valid() {
      && endpoints > 0
      && 0 < maxConcurrent <= MAX_DIALS
    }
  }

  function Min(a: nat, b: nat): nat {
    if a < b then a else b
  }

  function WorkerCount(c: Config): nat {
    Min(c.maxConcurrent, c.endpoints)
  }

  /** The capacity of the candidates channel. */
  function QueueCapacity(c: Config): nat {
    Min(SLOTS, c.endpoints)
  }

  datatype Worker =
    | Idle                                                 // select on ctx.Done and jobs
    | GotJob(job: nat)                                     // in acquireSlot
    | Dialing(job: nat)                                    // in dialPeer, holding a slot
    | ClosingFailed(job: nat, conn: Conn, err: DialError)  // the dial failed but left a connection
    | ReleasingFailed(job: nat, err: DialError)            // in releaseSlot after a failed dial
    | Sending(result: DialResult)                          // select on results and ctx.Done
    | ClosingUnsent(conn: Conn)                            // an undelivered success, after cancellation
    | ReleasingUnsent                                      // ... its slot
    | Exited

  datatype Collector =
    | Receiving                      // ranging over results
    | Queueing(candidate: Candidate) // select on candidates and ctx.Done
    | Discarding                     // connection closed, slot not yet released
    | Finalized                      // exhaustErr assigned
    | CandidatesClosed               // first deferred close done
    | DoneClosed                     // second deferred close done

  datatype NextResult =
    | Got(candidate: Candidate)
    | ContextError
    | NoMoreCandidates(errs: seq<Failure>)

  /** One call of Next. */
  datatype Caller =
    | Entering                       // before the first context check
    | Waiting                        // receiving from candidates
    | Claimed(candidate: Candidate)  // received, slot still held
    | Unslotted(candidate: Candidate)// slot released, before the second context check
    | SawClosed                      // candidates closed and empty, before the context check
    | Returned(result: NextResult)

  /** The one execution of the closeOnce body. */
  datatype Closer =
    | NotCalled
    | AwaitingDone
    | Draining                       // ranging over candidates
    | Closing(candidate: Candidate)
    | Releasing                      // connection closed, slot not yet released
    | Finished

  /** Totals over the run so far. No guard reads them, except that a new connection must be new. */
  datatype Log = Log(
    conns: multiset<Conn>,       // connections returned by dials
    closes: multiset<Conn>,      // Conn.Close calls made by the pool
    dials: multiset<nat>,        // endpoints dialled
    skipped: multiset<nat>,      // jobs dropped in acquireSlot
    unsent: multiset<nat>)       // jobs whose result was never delivered

  /** Who received a candidate: the i-th call of Next, or Close. */
  datatype Receiver = NextCall(i: nat) | CloseCall

  datatype State = State(
    cancelled: bool,             // pool context; raised once, never lowered
    fed: nat,                    // endpoints handed to workers so far
    jobsClosed: bool,
    workers: seq<Worker>,
    resultsClosed: bool,
    collector: Collector,
    failures: seq<Failure>,      // collect's local slice
    exhaustErr: seq<Failure>,    // [] stands for the nil error
    queue: seq<Candidate>,       // contents of the candidates channel
    slots: nat,                  // tokens in the semaphore channel
    callers: seq<Caller>,        // every call of Next so far
    closer: Closer,
    // History; no guard reads it.
    collected: seq<DialResult>,  // results the collector received
    taken: seq<Candidate>,       // candidates received from the candidates channel
    receivers: seq<Receiver>,    // ... and who received them
    discarded: nat,              // candidates the collector closed instead of queueing
    log: Log
  ) {
    predicate CandidatesAreClosed() {
      collector.CandidatesClosed? || collector.DoneClosed?
    }
  }

  function Init(c: Config): State {
    State(false, 0, false, seq(WorkerCount(c), i => Idle), false, Receiving, [], [], [], 0, [], NotCalled,
          [], [], [], 0, Log(multiset{}, multiset{}, multiset{}, multiset{}, multiset{}))
  }

  datatype WorkerAct =
    | Quit                                        // a ctx.Done or closed-jobs branch that returns
    | Acquire
    | DialSucceeds(conn: Conn)
    | DialFails(err: DialError, left: Option<Conn>)  // `left`: a connection returned with the error
    | CloseFailed
    | ReleaseFailed
    | GiveUp                                      // the ctx.Done branch of the second select
    | CloseUnsent
    | ReleaseUnsent

  datatype CollectorAct = Enqueue | Discard | Proceed

  datatype Step =
    | Cancel                        // the parent context ends
    | Offer(w: nat)                 // feeder hands the next endpoint to worker w
    | StopFeeding
    | Work(w: nat, act: WorkerAct)
    | Deliver(w: nat)               // worker w hands its result to the collector
    | CloseResults                  // workers.Wait returned
    | Collect(cact: CollectorAct)
    | CallNext
    | Next(i: nat)                  // the i-th call of Next moves on
    | CallClose
    | Close                         // the closeOnce body moves on

  /** The goroutines newPoolWithDial starts. */
  predicate Internal(t: Step) {
    t.Offer? || t.StopFeeding? || t.Work? || t.Deliver? || t.CloseResults? || t.Collect?
  }

  // --- Effects ------------------------------------------------------------------------------

  /** What one move of an actor does to the semaphore and to connections, and what it records. */
  datatype Effect = Effect(
    acquired: nat,           // slots
    released: nat,
    opens: multiset<Conn>,   // connections coming out of a dial
    closes: multiset<Conn>,  // Conn.Close calls
    dials: multiset<nat>,
    skips: multiset<nat>,
    drops: multiset<nat>)

  const NOTHING := Effect(0, 0, multiset{}, multiset{}, multiset{}, multiset{}, multiset{})
  const RELEASE := NOTHING.(released := 1)

  function CloseConn(k: Conn): Effect {
    NOTHING.(closes := multiset{k})
  }

  /** Releasing blocks while the semaphore channel is empty, acquiring while it is full. */
  predicate CanPerform(s: State, e: Effect) {
    && (e.released > 0 ==> e.released <= s.slots)
    && (e.acquired > 0 ==> s.slots + e.acquired <= SLOTS)
  }

  function Perform(s: State, e: Effect): State
    requires CanPerform(s, e)
  {
    s.(slots := s.slots + e.acquired - e.released,
       log := s.log.(conns := s.log.conns + e.opens,
                     closes := s.log.closes + e.closes,
                     dials := s.log.dials + e.dials,
                     skipped := s.log.skipped + e.skips,
                     unsent := s.log.unsent + e.drops))
  }

  // --- Feeder -------------------------------------------------------------------------------

  predicate OfferEnabled(c: Config, s: State, w: nat) {
    !s.jobsClosed && s.fed < c.endpoints && w < |s.workers| && s.workers[w].Idle?
  }

  function DoOffer(c: Config, s: State, w: nat): State
    requires OfferEnabled(c, s, w)
  {
    s.(fed := s.fed + 1, workers := s.workers[w := GotJob(s.fed)])
  }

  predicate StopFeedingEnabled(c: Config, s: State) {
    !s.jobsClosed && (s.fed == c.endpoints || s.cancelled)
  }

  // --- Workers ------------------------------------------------------------------------------

  predicate AtAct(pc: Worker, act: WorkerAct) {
    match act
    case Quit => pc.Idle? || pc.GotJob?
    case Acquire => pc.GotJob?
    case DialSucceeds(_) => pc.Dialing?
    case DialFails(_, _) => pc.Dialing?
    case CloseFailed => pc.ClosingFailed?
    case ReleaseFailed => pc.ReleasingFailed?
    case GiveUp => pc.Sending?
    case CloseUnsent => pc.ClosingUnsent?
    case ReleaseUnsent => pc.ReleasingUnsent?
  }

  function WorkerAfter(pc: Worker, act: WorkerAct): Worker
    requires AtAct(pc, act)
  {
    match act
    case Quit => Exited
    case Acquire => Dialing(pc.job)
    case DialSucceeds(conn) => Sending(Dialed(Candidate(pc.job, conn)))
    case DialFails(err, None) => ReleasingFailed(pc.job, err)
    case DialFails(err, Some(conn)) => ClosingFailed(pc.job, conn, err)
    case CloseFailed => ReleasingFailed(pc.job, pc.err)
    case ReleaseFailed => Sending(Failed(pc.job, pc.err))
    case GiveUp => if pc.result.Dialed? then ClosingUnsent(pc.result.candidate.conn) else Exited
    case CloseUnsent => ReleasingUnsent
    case ReleaseUnsent => Exited
  }

  function WorkerEffect(pc: Worker, act: WorkerAct): Effect
    requires AtAct(pc, act)
  {
    match act
    case Quit => if pc.GotJob? then NOTHING.(skips := multiset{pc.job}) else NOTHING
    case Acquire => NOTHING.(acquired := 1, dials := multiset{pc.job})
    case DialSucceeds(conn) => NOTHING.(opens := multiset{conn})
    case DialFails(_, None) => NOTHING
    case DialFails(_, Some(conn)) => NOTHING.(opens := multiset{conn})
    case CloseFailed => CloseConn(pc.conn)
    case ReleaseFailed => RELEASE
    case GiveUp => NOTHING.(drops := multiset{ResultEndpoint(pc.result)})
    case CloseUnsent => CloseConn(pc.conn)
    case ReleaseUnsent => RELEASE
  }

  function ResultEndpoint(r: DialResult): nat {
    match r
    case Dialed(k) => k.endpoint
    case Failed(j, _) => j
  }

  predicate WorkEnabled(s: State, w: nat, act: WorkerAct) {
    && w < |s.workers|
    && AtAct(s.workers[w], act)
    && CanPerform(s, WorkerEffect(s.workers[w], act))
    && match act
       case Quit => s.cancelled || (s.workers[w].Idle? && s.jobsClosed)
       case DialSucceeds(conn) => conn !in s.log.conns
       case DialFails(_, left) => left.Some? ==> left.value !in s.log.conns
       case GiveUp => s.cancelled
       case _ => true
  }

  function DoWork(s: State, w: nat, act: WorkerAct): State
    requires WorkEnabled(s, w, act)
  {
    var pc := s.workers[w];
    Perform(s, WorkerEffect(pc, act)).(workers := s.workers[w := WorkerAfter(pc, act)])
  }

  // --- Results channel and collector --------------------------------------------------------

  predicate DeliverEnabled(s: State, w: nat) {
    w < |s.workers| && s.workers[w].Sending? && s.collector.Receiving?
  }

  function DoDeliver(s: State, w: nat): State
    requires DeliverEnabled(s, w)
  {
    var result := s.workers[w].result;
    var t := s.(workers := s.workers[w := Idle], collected := s.collected + [result]);
    match result
    case Dialed(k) => t.(collector := Queueing(k))
    case Failed(j, Canceled) => t
    case Failed(j, Other(code)) => t.(failures := s.failures + [Failure(j, code)])
  }

  predicate CloseResultsEnabled(s: State) {
    !s.resultsClosed && forall w :: 0 <= w < |s.workers| ==> s.workers[w].Exited?
  }

  predicate CollectEnabled(c: Config, s: State, act: CollectorAct) {
    match act
    case Enqueue => s.collector.Queueing? && |s.queue| < QueueCapacity(c)
    case Discard => s.collector.Queueing? && s.cancelled
    case Proceed =>
      match s.collector
      case Receiving => s.resultsClosed
      case Queueing(_) => false
      case Discarding => CanPerform(s, RELEASE)
      case Finalized => true
      case CandidatesClosed => true
      case DoneClosed => false
  }

  function CollectorAfter(pc: Collector, act: CollectorAct): Collector {
    match act
    case Enqueue => Receiving
    case Discard => Discarding
    case Proceed =>
      match pc
      case Receiving => Finalized
      case Discarding => Receiving
      case Finalized => CandidatesClosed
      case _ => DoneClosed
  }

  function DoCollect(c: Config, s: State, act: CollectorAct): State
    requires CollectEnabled(c, s, act)
  {
    var t := s.(collector := CollectorAfter(s.collector, act));
    match act
    case Enqueue => t.(queue := s.queue + [s.collector.candidate])
    case Discard => Perform(t, CloseConn(s.collector.candidate.conn)).(discarded := s.discarded + 1)
    case Proceed =>
      match s.collector
      case Receiving => t.(exhaustErr := s.failures)
      case Discarding => Perform(t, RELEASE)
      case _ => t
  }

  /** Receiving from the candidates channel takes its first element, or sees that it is closed. */
  predicate CanReceive(s: State) {
    s.queue != [] || s.CandidatesAreClosed()
  }

  /** The channel after a receive by an actor that found it nonempty. */
  function Receive(s: State, r: Receiver): State {
    if s.queue == [] then s else
      s.(queue := s.queue[1..], taken := s.taken + [s.queue[0]], receivers := s.receivers + [r])
  }

  // --- Next ---------------------------------------------------------------------------------

  function CallerAfter(s: State, pc: Caller): Caller {
    match pc
    case Entering => if s.cancelled then Returned(ContextError) else Waiting
    case Waiting => if s.queue != [] then Claimed(s.queue[0]) else SawClosed
    case Claimed(k) => Unslotted(k)
    case Unslotted(k) => Returned(if s.cancelled then ContextError else Got(k))
    case SawClosed => Returned(if s.cancelled then ContextError else NoMoreCandidates(s.exhaustErr))
    case Returned(_) => pc
  }

  function CallerEffect(cancelled: bool, pc: Caller): Effect {
    match pc
    case Claimed(_) => RELEASE
    case Unslotted(k) => if cancelled then CloseConn(k.conn) else NOTHING
    case _ => NOTHING
  }

  predicate NextEnabled(s: State, i: nat) {
    && i < |s.callers|
    && !s.callers[i].Returned?
    && CanPerform(s, CallerEffect(s.cancelled, s.callers[i]))
    && (s.callers[i].Waiting? ==> CanReceive(s))
  }

  function DoNext(s: State, i: nat): State
    requires NextEnabled(s, i)
  {
    var pc := s.callers[i];
    var t := Perform(s, CallerEffect(s.cancelled, pc)).(callers := s.callers[i := CallerAfter(s, pc)]);
    if pc.Waiting? then Receive(t, NextCall(i)) else t
  }

  // --- Close --------------------------------------------------------------------------------

  function CloserAfter(s: State, pc: Closer): Closer {
    match pc
    case NotCalled => AwaitingDone
    case AwaitingDone => Draining
    case Draining => if s.queue != [] then Closing(s.queue[0]) else Finished
    case Closing(_) => Releasing
    case Releasing => Draining
    case Finished => Finished
  }

  function CloserEffect(pc: Closer): Effect {
    match pc
    case Closing(k) => CloseConn(k.conn)
    case Releasing => RELEASE
    case _ => NOTHING
  }

  predicate CloseEnabled(s: State) {
    && !s.closer.NotCalled?
    && !s.closer.Finished?
    && CanPerform(s, CloserEffect(s.closer))
    && (s.closer.AwaitingDone? ==> s.collector.DoneClosed?)
    && (s.closer.Draining? ==> CanReceive(s))
  }

  function DoClose(s: State): State
    requires CloseEnabled(s)
  {
    var t := Perform(s, CloserEffect(s.closer)).(closer := CloserAfter(s, s.closer));
    if s.closer.Draining? then Receive(t, CloseCall) else t
  }

  // --- The system ---------------------------------------------------------------------------

  predicate Enabled(c: Config, s: State, t: Step) {
    match t
    case Cancel => true
    case Offer(w) => OfferEnabled(c, s, w)
    case StopFeeding => StopFeedingEnabled(c, s)
    case Work(w, act) => WorkEnabled(s, w, act)
    case Deliver(w) => DeliverEnabled(s, w)
    case CloseResults => CloseResultsEnabled(s)
    case Collect(act) => CollectEnabled(c, s, act)
    case CallNext => true
    case Next(i) => NextEnabled(s, i)
    case CallClose => s.closer.NotCalled?
    case Close => CloseEnabled(s)
  }

  function Apply(c: Config, s: State, t: Step): State
    requires Enabled(c, s, t)
  {
    match t
    case Cancel => s.(cancelled := true)
    case Offer(w) => DoOffer(c, s, w)
    case StopFeeding => s.(jobsClosed := true)
    case Work(w, act) => DoWork(s, w, act)
    case Deliver(w) => DoDeliver(s, w)
    case CloseResults => s.(resultsClosed := true)
    case Collect(act) => DoCollect(c, s, act)
    case CallNext => s.(callers := s.callers + [Entering])
    case Next(i) => DoNext(s, i)
    case CallClose => s.(cancelled := true, closer := AwaitingDone)
    case Close => DoClose(s)
  }

  // --- Runs ---------------------------------------------------------------------------------

  ghost predicate IsRun(c: Config, s: State, run: seq<Step>)
    decreases |run|
  {
    run == [] || (Enabled(c, s, run[0]) && IsRun(c, Apply(c, s, run[0]), run[1..]))
  }

  ghost function After(c: Config, s: State, run: seq<Step>): State
    requires IsRun(c, s, run)
    decreases |run|
  {
    if run == [] then s else After(c, Apply(c, s, run[0]), run[1..])
  }

  ghost predicate Reachable(c: Config, s: State) {
    exists run :: IsRun(c, Init(c), run) && After(c, Init(c), run) == s
  }
}
