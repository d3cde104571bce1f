/** What the dials of a run came to, read off the run's steps, and what the pool reports about them. */
module PoolOutcomes {
  import opened Wrappers
  import opened PoolModel
  import opened PoolMeters
  import opened PoolInvariants
  import opened PoolRuns
  import opened PoolExhaustion
  import opened PoolCompletion
  import opened DialFirst

  // --- Outcomes of a run ------------------------------------------------------------------------------------

  /** How the dial that this step ends came out: the endpoint the worker was dialling, with the connection or the
      error the dial returned. */
  ghost function EndedDial(s: State, t: Step): Option<DialResult> {
    match t
    case Work(w, DialSucceeds(conn)) =>
      if w < |s.workers| && s.workers[w].Dialing? then Some(Dialed(Candidate(s.workers[w].job, conn))) else None
    case Work(w, DialFails(err, _)) =>
      if w < |s.workers| && s.workers[w].Dialing? then Some(Failed(s.workers[w].job, err)) else None
    case _ => None
  }

  /** How many dials of a run came out as `x`. */
  ghost function Outcomes(c: Config, s: State, run: seq<Step>, x: DialResult): nat
    requires IsRun(c, s, run)
    decreases |run|
  {
    if run == [] then 0 else One(EndedDial(s, run[0]) == Some(x)) + Outcomes(c, Apply(c, s, run[0]), run[1..], x)
  }

  /** The result that a worker gives up sending in this step. */
  ghost function Dropped(s: State, t: Step): Option<DialResult> {
    if t.Work? && t.act.GiveUp? && t.w < |s.workers| && s.workers[t.w].Sending? then Some(s.workers[t.w].result)
    else None
  }

  ghost function Drops(c: Config, s: State, run: seq<Step>, x: DialResult): nat
    requires IsRun(c, s, run)
    decreases |run|
  {
    if run == [] then 0 else One(Dropped(s, run[0]) == Some(x)) + Drops(c, Apply(c, s, run[0]), run[1..], x)
  }

  /** The outcome a worker still has to report. */
  ghost function ToReport(w: Worker): Option<DialResult> {
    match w
    case ClosingFailed(job, _, err) => Some(Failed(job, err))
    case ReleasingFailed(job, err) => Some(Failed(job, err))
    case Sending(result) => Some(result)
    case _ => None
  }

  /** How many workers have `x` to report. */
  ghost function WithWorkers(ws: seq<Worker>, x: DialResult): nat {
    if ws == [] then 0 else One(ToReport(ws[0]) == Some(x)) + WithWorkers(ws[1..], x)
  }

  lemma {:induction false} WithWorkersUpdate(ws: seq<Worker>, i: nat, w: Worker, x: DialResult)
    requires i < |ws|
    ensures WithWorkers(ws[i := w], x) + One(ToReport(ws[i]) == Some(x))
         == WithWorkers(ws, x) + One(ToReport(w) == Some(x))
  {
    hide ToReport;
    if i == 0 {
      assert ws[i := w][1..] == ws[1..];
    } else {
      assert ws[i := w][1..] == ws[1..][i - 1 := w];
      WithWorkersUpdate(ws[1..], i - 1, w, x);
    }
  }

  lemma {:induction false} NothingToReport(ws: seq<Worker>, x: DialResult)
    requires forall w :: 0 <= w < |ws| ==> ws[w].Idle? || ws[w].Exited?
    ensures WithWorkers(ws, x) == 0
  {
    if ws != [] {
      NothingToReport(ws[1..], x);
    }
  }

  // --- Nothing is lost or made up ---------------------------------------------------------------------------

  /** How many times `x` reached the collector or is still with a worker. */
  ghost function Known(s: State, x: DialResult): nat {
    multiset(s.collected)[x] + WithWorkers(s.workers, x)
  }

  /** Ending a dial gives a worker its outcome to report, giving up takes the result away, and no other move of a
      worker changes what it has to report. */
  lemma ActKeepsOutcome(pc: Worker, act: WorkerAct)
    requires AtAct(pc, act)
    ensures act.DialSucceeds? ==>
              ToReport(pc) == None && ToReport(WorkerAfter(pc, act)) == Some(Dialed(Candidate(pc.job, act.conn)))
    ensures act.DialFails? ==> ToReport(pc) == None && ToReport(WorkerAfter(pc, act)) == Some(Failed(pc.job, act.err))
    ensures act.GiveUp? ==> ToReport(pc) == Some(pc.result) && ToReport(WorkerAfter(pc, act)) == None
    ensures !act.DialSucceeds? && !act.DialFails? && !act.GiveUp? ==> ToReport(pc) == ToReport(WorkerAfter(pc, act))
  {
  }

  lemma WorkerKeepsOutcome(s: State, w: nat, act: WorkerAct, x: DialResult)
    requires WorkEnabled(s, w, act)
    ensures One(ToReport(WorkerAfter(s.workers[w], act)) == Some(x)) + One(Dropped(s, Work(w, act)) == Some(x))
         == One(ToReport(s.workers[w]) == Some(x)) + One(EndedDial(s, Work(w, act)) == Some(x))
  {
    ActKeepsOutcome(s.workers[w], act);
    hide WorkerAfter, ToReport, CanPerform, WorkerEffect;
  }

  lemma WorkRecords(s: State, w: nat, act: WorkerAct)
    requires WorkEnabled(s, w, act)
    ensures DoWork(s, w, act).collected == s.collected
    ensures DoWork(s, w, act).workers == s.workers[w := WorkerAfter(s.workers[w], act)]
  {
  }

  lemma WorkKeepsOutcomes(s: State, w: nat, act: WorkerAct, x: DialResult)
    requires WorkEnabled(s, w, act)
    ensures Known(DoWork(s, w, act), x) + One(Dropped(s, Work(w, act)) == Some(x))
         == Known(s, x) + One(EndedDial(s, Work(w, act)) == Some(x))
  {
    WorkRecords(s, w, act);
    WorkerKeepsOutcome(s, w, act, x);
    WithWorkersUpdate(s.workers, w, WorkerAfter(s.workers[w], act), x);
    hide DoWork, WorkerAfter, Dropped, EndedDial, ToReport, WithWorkers;
  }

  lemma DeliverKeepsOutcomes(s: State, w: nat, x: DialResult)
    requires DeliverEnabled(s, w)
    ensures Known(DoDeliver(s, w), x) == Known(s, x)
  {
    DeliverRecords(s, w);
    WithWorkersUpdate(s.workers, w, Idle, x);
    assert DoDeliver(s, w).workers == s.workers[w := Idle];
    hide DoDeliver, WithWorkers;
  }

  lemma OfferKeepsOutcomes(c: Config, s: State, w: nat, x: DialResult)
    requires OfferEnabled(c, s, w)
    ensures Known(DoOffer(c, s, w), x) == Known(s, x)
  {
    WithWorkersUpdate(s.workers, w, GotJob(s.fed), x);
  }

  lemma CollectRecords(c: Config, s: State, act: CollectorAct)
    requires CollectEnabled(c, s, act)
    ensures DoCollect(c, s, act).collected == s.collected && DoCollect(c, s, act).workers == s.workers
  {
  }

  lemma NextRecordsResults(s: State, i: nat)
    requires NextEnabled(s, i)
    ensures DoNext(s, i).collected == s.collected && DoNext(s, i).workers == s.workers
  {
  }

  lemma CloseRecords(s: State)
    requires CloseEnabled(s)
    ensures DoClose(s).collected == s.collected && DoClose(s).workers == s.workers
  {
  }

  lemma StepKeepsOutcomes(c: Config, s: State, t: Step, x: DialResult)
    requires Enabled(c, s, t)
    ensures Known(Apply(c, s, t), x) + One(Dropped(s, t) == Some(x)) == Known(s, x) + One(EndedDial(s, t) == Some(x))
  {
    hide DoWork, DoDeliver, DoOffer, DoCollect, DoNext, DoClose, WithWorkers;
    match t
    case Work(w, act) => WorkKeepsOutcomes(s, w, act, x);
    case Deliver(w) => DeliverKeepsOutcomes(s, w, x);
    case Offer(w) => OfferKeepsOutcomes(c, s, w, x);
    case Collect(act) => CollectRecords(c, s, act);
    case Next(i) => NextRecordsResults(s, i);
    case Close => CloseRecords(s);
    case _ =>
  }

  lemma {:induction false} RunKeepsOutcomes(c: Config, s: State, run: seq<Step>, x: DialResult)
    requires IsRun(c, s, run)
    ensures Known(PoolModel.After(c, s, run), x) + Drops(c, s, run, x) == Known(s, x) + Outcomes(c, s, run, x)
    decreases |run|
  {
    hide Known, Dropped, EndedDial, Apply, Enabled;
    if run != [] {
      StepKeepsOutcomes(c, s, run[0], x);
      RunKeepsOutcomes(c, Apply(c, s, run[0]), run[1..], x);
    }
  }

  /** In every run, each outcome `x` of a dial is accounted for: as often as dials came out as `x`, it was collected,
      is still with a worker, or was dropped unsent. */
  lemma EveryOutcomeIsReported(c: Config, run: seq<Step>, x: DialResult)
    requires IsRun(c, Init(c), run)
    ensures var s := PoolModel.After(c, Init(c), run);
      Outcomes(c, Init(c), run, x) == multiset(s.collected)[x] + WithWorkers(s.workers, x) + Drops(c, Init(c), run, x)
  {
    RunKeepsOutcomes(c, Init(c), run, x);
    NothingToReport(Init(c).workers, x);
  }

  // --- Nothing is dropped before cancellation -----------------------------------------------------------------

  lemma StepUnsent(c: Config, s: State, t: Step)
    requires Enabled(c, s, t)
    ensures Apply(c, s, t).log.unsent == multiset{} ==> s.log.unsent == multiset{} && Dropped(s, t).None?
  {
    if t.Work? && t.act.GiveUp? {
      assert ResultEndpoint(s.workers[t.w].result) in Apply(c, s, t).log.unsent;
    }
    if j :| j in s.log.unsent {
      assert Apply(c, s, t).log.unsent[j] >= s.log.unsent[j];
    }
  }

  lemma {:induction false} NothingUnsentNothingDropped(c: Config, s: State, run: seq<Step>, x: DialResult)
    requires IsRun(c, s, run) && PoolModel.After(c, s, run).log.unsent == multiset{}
    ensures s.log.unsent == multiset{} && Drops(c, s, run, x) == 0
    decreases |run|
  {
    hide Apply, Enabled, Dropped;
    if run != [] {
      NothingUnsentNothingDropped(c, Apply(c, s, run[0]), run[1..], x);
      StepUnsent(c, s, run[0]);
    }
  }

  // --- Successes and failures -----------------------------------------------------------------------------------

  lemma {:induction false} SuccessesCount(rs: seq<DialResult>, x: Candidate)
    ensures multiset(Successes(rs))[x] == multiset(rs)[Dialed(x)]
  {
    if rs != [] {
      var init, r := rs[..|rs| - 1], rs[|rs| - 1];
      assert rs == init + [r];
      SuccessesCount(init, x);
      CollectedSnoc(init, r);
      hide Successes, Failures;
    }
  }

  lemma {:induction false} FailuresCount(rs: seq<DialResult>, j: nat, code: int)
    ensures multiset(Failures(rs))[Failure(j, code)] == multiset(rs)[Failed(j, Other(code))]
  {
    if rs != [] {
      var init, r := rs[..|rs| - 1], rs[|rs| - 1];
      assert rs == init + [r];
      FailuresCount(init, j, code);
      CollectedSnoc(init, r);
      OneMoreFailure(Failures(init), init, r, j, code);
    }
  }

  lemma OneMoreFailure(fs: seq<Failure>, rs: seq<DialResult>, r: DialResult, j: nat, code: int)
    requires multiset(fs)[Failure(j, code)] == multiset(rs)[Failed(j, Other(code))]
    ensures var more := if r.Failed? && r.err.Other? then [Failure(r.endpoint, r.err.code)] else [];
      multiset(fs + more)[Failure(j, code)] == multiset(rs + [r])[Failed(j, Other(code))]
  {
  }

  /** Exhaustion and the dials: when some Next of the run reported exhaustion, the candidates received are exactly
      the connections that dials of the run opened successfully, and the errors it returned are exactly the errors
      of the dials that failed other than by cancellation. */
  lemma ExhaustionMatchesDials(c: Config, run: seq<Step>, i: nat)
    requires c.Valid() && IsRun(c, Init(c), run) && ReportsExhaustion(PoolModel.After(c, Init(c), run), i)
    ensures var s := PoolModel.After(c, Init(c), run);
      && (forall x :: Outcomes(c, Init(c), run, Dialed(x)) == multiset(s.taken)[x])
      && (forall j: nat, code ::
            Outcomes(c, Init(c), run, Failed(j, Other(code))) == multiset(s.callers[i].result.errs)[Failure(j, code)])
  {
    var s := PoolModel.After(c, Init(c), run);
    assert Reachable(c, s);
    ReachableInv(c, s);
    assert NextInv(c, s, i);
    ExhaustionIsComplete(c, s, i);
    forall x ensures Outcomes(c, Init(c), run, Dialed(x)) == multiset(s.taken)[x] {
      NothingElseKnown(c, run, i, Dialed(x));
      SuccessesCount(s.collected, x);
    }
    forall j: nat, code
      ensures Outcomes(c, Init(c), run, Failed(j, Other(code))) == multiset(s.callers[i].result.errs)[Failure(j, code)]
    {
      NothingElseKnown(c, run, i, Failed(j, Other(code)));
      FailuresCount(s.collected, j, code);
    }
  }

  lemma NothingElseKnown(c: Config, run: seq<Step>, i: nat, x: DialResult)
    requires c.Valid() && IsRun(c, Init(c), run) && ReportsExhaustion(PoolModel.After(c, Init(c), run), i)
    ensures Outcomes(c, Init(c), run, x) == multiset(PoolModel.After(c, Init(c), run).collected)[x]
  {
    var s := PoolModel.After(c, Init(c), run);
    assert Reachable(c, s);
    ReachableInv(c, s);
    assert NextInv(c, s, i);
    EveryOutcomeIsReported(c, run, x);
    NothingUnsentNothingDropped(c, Init(c), run, x);
    NothingToReport(s.workers, x);
  }

  // --- Steps that end a dial with success -----------------------------------------------------------------------

  ghost predicate DialSuccess(t: Step) {
    t.Work? && t.act.DialSucceeds?
  }

  /** Some dial of the run succeeded. */
  ghost predicate SomeDialSucceeds(run: seq<Step>) {
    exists k :: 0 <= k < |run| && DialSuccess(run[k])
  }

  lemma SomeDialFirst(run: seq<Step>)
    requires run != []
    ensures SomeDialSucceeds(run) <==> DialSuccess(run[0]) || SomeDialSucceeds(run[1..])
  {
    if k :| 0 <= k < |run[1..]| && DialSuccess(run[1..][k]) {
      assert DialSuccess(run[k + 1]);
    }
    if k :| 0 <= k < |run| && DialSuccess(run[k]) {
      assert k > 0 ==> run[1..][k - 1] == run[k];
    }
  }

  lemma StepSuccess(c: Config, s: State, t: Step)
    requires Enabled(c, s, t)
    ensures DialSuccess(t) ==> exists x :: EndedDial(s, t) == Some(Dialed(x))
    ensures forall x :: EndedDial(s, t) == Some(Dialed(x)) ==> DialSuccess(t)
  {
    if DialSuccess(t) {
      assert EndedDial(s, t) == Some(Dialed(Candidate(s.workers[t.w].job, t.act.conn)));
    }
  }

  /** A run with a successful dial has the connection it opened among its outcomes, and only then. */
  lemma {:induction false} SuccessIsAStep(c: Config, s: State, run: seq<Step>)
    requires IsRun(c, s, run)
    ensures SomeDialSucceeds(run) <==> exists x :: Outcomes(c, s, run, Dialed(x)) > 0
    decreases |run|
  {
    hide Apply, Enabled, EndedDial, DialSuccess, SomeDialSucceeds;
    if run == [] {
      NoStepsNoDials();
    } else {
      SomeDialFirst(run);
      StepSuccess(c, s, run[0]);
      SuccessIsAStep(c, Apply(c, s, run[0]), run[1..]);
      if x :| Outcomes(c, Apply(c, s, run[0]), run[1..], Dialed(x)) > 0 {
        assert Outcomes(c, s, run, Dialed(x)) > 0;
      }
      if x :| EndedDial(s, run[0]) == Some(Dialed(x)) {
        assert Outcomes(c, s, run, Dialed(x)) > 0;
      }
      if x :| Outcomes(c, s, run, Dialed(x)) > 0 {
        assert EndedDial(s, run[0]) == Some(Dialed(x)) || Outcomes(c, Apply(c, s, run[0]), run[1..], Dialed(x)) > 0;
      }
    }
  }

  lemma NoStepsNoDials()
    ensures !SomeDialSucceeds([])
  {
  }

  /** An uncancelled DialFirst, at whatever moment it returns, returns a candidate if and only if some dial of the
      run has succeeded; and the candidate is one that a dial of the run opened, with the endpoint it dialled. */
  lemma FirstMatchesDials(c: Config, run: seq<Step>)
    requires c.Valid() && IsRun(c, Init(c), run)
    requires FirstReturned(c, PoolModel.After(c, Init(c), run)) && !PoolModel.After(c, Init(c), run).cancelled
    ensures var s := PoolModel.After(c, Init(c), run);
      && (ReturnedCandidate(s.callers[0]) <==> SomeDialSucceeds(run))
      && (ReturnedCandidate(s.callers[0]) ==> Outcomes(c, Init(c), run, Dialed(s.callers[0].result.candidate)) > 0)
  {
    var s := PoolModel.After(c, Init(c), run);
    FirstResult(c, s);
    SuccessIsAStep(c, Init(c), run);
    if ReturnedCandidate(s.callers[0]) {
      var x := s.callers[0].result.candidate;
      EveryOutcomeIsReported(c, run, Dialed(x));
      SuccessesCount(s.collected, x);
      assert x in multiset(Successes(s.collected));
    } else {
      ExhaustionMatchesDials(c, run, 0);
      ExhaustionIsComplete(c, s, 0);
    }
  }
}
