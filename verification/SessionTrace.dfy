/** Everything FetchPiece does on a connection, for every peer stream and every behaviour of the world. */
module SessionTrace {
  import opened Wrappers
  import opened Bytes
  import opened Wire
  import opened Payloads
  import opened Bitfields
  import opened SessionModel

  // --- A protocol monitor -------------------------------------------------------------------------

  /** What an observer of the connection knows: the session state the received messages imply, whether
      a watcher is live, whether Interested was sent, the unanswered request, the number of bytes
      delivered, and the message just received. */
  datatype Monitor = Monitor(
    state: SessState,
    watching: bool,
    interested: bool,
    pending: Option<Request>,
    fetched: nat,
    last: Option<Message>)

  function Start(st: SessState): Monitor {
    Monitor(st, false, false, None, 0, None)
  }

  function Observe(mon: Monitor, e: Event): (mon': Monitor)
    requires |mon.state.bits| == BitfieldBytes(mon.state.pieceCount)
    ensures |mon'.state.bits| == BitfieldBytes(mon'.state.pieceCount)
  {
    match e
    case Watch => mon.(watching := true, last := None)
    case Unwatch => mon.(watching := false, last := None)
    case Got(m) => mon.(state := Accept(mon.state, m).state, last := Some(m))
    case Sent(m) =>
      if ParseRequest(m).Ok? then mon.(pending := Some(ParseRequest(m).value), last := None)
      else mon.(interested := true, last := None)
    case SendFailed(_) => mon.(last := None)
    case Delivered(_, data) => mon.(pending := None, fetched := mon.fetched + |data|, last := None)
    case Refused(_, _) => mon.(last := None)
  }

  /** Interested: once, and only when the piece is advertised. A request: only after Interested, with the
      piece advertised, the peer unchoking and the previous request answered, for the next block. */
  ghost predicate MaySend(mon: Monitor, piece: PieceSpec, m: Message)
    requires |mon.state.bits| == BitfieldBytes(mon.state.pieceCount)
  {
    && mon.watching
    && mon.state.Has(piece.index)
    && if m == INTERESTED_MESSAGE then !mon.interested
       else
         && mon.interested
         && mon.pending.None?
         && !mon.state.choked
         && mon.fetched < piece.length
         && ParseRequest(m) == Ok(Request(piece.index, mon.fetched, BlockLength(piece.length, mon.fetched)))
  }

  /** A block goes to the callback only as the peer's answer to the unanswered request. */
  ghost predicate MayDeliver(mon: Monitor, piece: PieceSpec, offset: uint32, data: seq<byte>) {
    && mon.watching
    && offset == mon.fetched
    && |data| < TWO_TO_THE_32
    && mon.pending == Some(Request(piece.index, offset, |data|))
    && mon.last.Some?
    && ParsePiece(mon.last.value) == Ok(Block(piece.index, offset, data))
  }

  ghost predicate Permits(mon: Monitor, piece: PieceSpec, e: Event)
    requires |mon.state.bits| == BitfieldBytes(mon.state.pieceCount)
  {
    match e
    case Watch => !mon.watching
    case Unwatch => mon.watching
    case Got(m) => mon.watching && Accept(mon.state, m).error.None?
    case Sent(m) => MaySend(mon, piece, m)
    case SendFailed(m) => MaySend(mon, piece, m)
    case Delivered(offset, data) => MayDeliver(mon, piece, offset, data)
    case Refused(offset, data) => MayDeliver(mon, piece, offset, data)
  }

  function Observed(st: SessState, t: seq<Event>): (mon: Monitor)
    requires |st.bits| == BitfieldBytes(st.pieceCount)
    ensures |mon.state.bits| == BitfieldBytes(mon.state.pieceCount)
  {
    if t == [] then Start(st) else Observe(Observed(st, t[..|t| - 1]), t[|t| - 1])
  }

  /** Each event is permitted by what the observer knew before it. */
  ghost predicate Legal(st: SessState, piece: PieceSpec, t: seq<Event>)
    requires |st.bits| == BitfieldBytes(st.pieceCount)
  {
    t == [] || (Legal(st, piece, t[..|t| - 1]) && Permits(Observed(st, t[..|t| - 1]), piece, t[|t| - 1]))
  }

  /** A run that started in state `st` with nothing logged. */
  ghost predicate Follows(st: SessState, piece: PieceSpec, r: Run) {
    && |st.bits| == BitfieldBytes(st.pieceCount)
    && Legal(st, piece, r.trace)
    && Observed(st, r.trace).state == r.state
  }

  lemma LogFollows(st: SessState, piece: PieceSpec, r: Run, e: Event)
    requires Follows(st, piece, r) && Permits(Observed(st, r.trace), piece, e) && !e.Got?
    ensures Follows(st, piece, r.Log(e))
    ensures Observed(st, r.Log(e).trace) == Observe(Observed(st, r.trace), e)
  {
    var t := r.trace + [e];
    assert t[..|t| - 1] == r.trace;
  }

  // --- Reading ------------------------------------------------------------------------------------

  /** A message Read returns was accepted in the state before it. */
  lemma {:induction false} ReadAccepts(st: SessState, input: seq<byte>)
    requires |st.bits| == BitfieldBytes(st.pieceCount)
    ensures var out := Read(st, input);
      out.received.Message? ==> Accept(st, out.received.message) == Verdict(None, out.state)
    decreases |input|
  {
    var step := ReadStep(input, st.pieceCount);
    if step.result.Ok? && !step.result.value.Enclosed? {
      ReadAccepts(st, step.rest);
    }
  }

  lemma ReadFollows(st: SessState, piece: PieceSpec, w: World, r: Run)
    requires Follows(st, piece, r) && Observed(st, r.trace).watching
    ensures var out := ReadWithContext(w, r);
      && (out.received.Message? ==>
            && Follows(st, piece, out.run)
            && Observed(st, out.run.trace) == Observe(Observed(st, r.trace), Got(out.received.message)))
      && (out.received.Failure? ==> out.run.trace == r.trace)
  {
    var out := ReadWithContext(w, r);
    if out.received.Message? {
      ReadAccepts(r.state, r.rest);
      var m := out.received.message;
      var t := r.trace + [Got(m)];
      assert out.run.trace == t && t[..|t| - 1] == r.trace;
    }
  }

  // --- Setup --------------------------------------------------------------------------------------

  /** Legal so far; the trace may end in a failed read, whose state the observer does not see. */
  ghost predicate Stopped(st: SessState, piece: PieceSpec, t: seq<Event>) {
    && |st.bits| == BitfieldBytes(st.pieceCount)
    && Legal(st, piece, t)
  }

  /** Only messages were received between `before` and `after`. */
  ghost predicate OnlyRead(before: Monitor, after: Monitor) {
    && after.watching == before.watching
    && after.interested == before.interested
    && after.pending == before.pending
    && after.fetched == before.fetched
  }

  lemma {:induction false} AwaitPieceFollows(st: SessState, piece: PieceSpec, w: World, r: Run)
    requires Follows(st, piece, r) && Observed(st, r.trace).watching
    ensures var out := AwaitPiece(w, r, piece.index);
      && Stopped(st, piece, out.run.trace)
      && OnlyRead(Observed(st, r.trace), Observed(st, out.run.trace))
      && (out.error.None? ==> Follows(st, piece, out.run) && out.run.state.Has(piece.index))
    decreases |r.rest|
  {
    hide Legal, Observed, Accept;
    if !r.state.Has(piece.index) {
      ReadFollows(st, piece, w, r);
      var reading := ReadWithContext(w, r);
      if reading.received.Message? {
        AwaitPieceFollows(st, piece, w, reading.run);
      }
    }
  }

  /** Pieces already advertised stay advertised, because no second Bitfield is accepted. */
  lemma AcceptKeepsPiece(st: SessState, m: Message, i: nat)
    requires |st.bits| == BitfieldBytes(st.pieceCount) && Accept(st, m).error.None? && !st.bitfieldAllowed
    requires st.Has(i)
    ensures Accept(st, m).state.Has(i) && !Accept(st, m).state.bitfieldAllowed
  {
    if m.id == HAVE {
      SetBitSets(st.bits, ParseHave(m).value, i);
    }
  }

  /** The peer advertised the piece, and its Bitfield can no longer take that back. */
  ghost predicate Secured(r: Run, index: nat)
    requires r.Valid()
  {
    r.state.Has(index) && !r.state.bitfieldAllowed
  }

  lemma ReadKeepsSecured(w: World, r: Run, index: nat)
    requires r.Valid() && Secured(r, index) && ReadWithContext(w, r).received.Message?
    ensures Secured(ReadWithContext(w, r).run, index)
    ensures !r.state.choked && ReadWithContext(w, r).received.message.id != CHOKE ==>
              !ReadWithContext(w, r).run.state.choked
  {
    ReadAccepts(r.state, r.rest);
    AcceptKeepsPiece(r.state, ReadWithContext(w, r).received.message, index);
  }

  lemma {:induction false} AwaitUnchokeFollows(st: SessState, piece: PieceSpec, w: World, r: Run)
    requires Follows(st, piece, r) && Observed(st, r.trace).watching && Secured(r, piece.index)
    ensures var out := AwaitUnchoke(w, r);
      && Stopped(st, piece, out.run.trace)
      && OnlyRead(Observed(st, r.trace), Observed(st, out.run.trace))
      && (out.error.None? ==> Follows(st, piece, out.run) && Secured(out.run, piece.index) && !out.run.state.choked)
    decreases |r.rest|
  {
    if r.state.choked {
      ReadFollows(st, piece, w, r);
      var reading := ReadWithContext(w, r);
      if reading.received.Message? {
        ReadKeepsSecured(w, r, piece.index);
        AwaitUnchokeFollows(st, piece, w, reading.run);
      }
    }
  }

  // --- One block ----------------------------------------------------------------------------------

  lemma TakeBlockFollows(st: SessState, piece: PieceSpec, w: World, r: Run, q: Request, m: Message)
    requires Follows(st, piece, r) && q.index == piece.index
    requires var mon := Observed(st, r.trace);
      mon.watching && mon.pending == Some(q) && mon.fetched == q.begin && mon.last == Some(m)
    ensures var out := TakeBlock(w, r, q, m);
      && Follows(st, piece, out.run)
      && Observed(st, out.run.trace).watching
      && (out.error.Some? ==> Observed(st, out.run.trace).fetched == q.begin)
      && (out.error.None? ==>
            var mon, mon' := Observed(st, r.trace), Observed(st, out.run.trace);
            mon' == mon.(pending := None, fetched := q.begin + q.length, last := None))
  {
    hide Legal, Observed, ParsePiece;
    if ParsePiece(m).Ok? {
      var b := ParsePiece(m).value;
      if b.index == q.index && b.begin == q.begin && |b.data| == q.length {
        LogFollows(st, piece, r.Tick().Tick(), Refused(q.begin, b.data));
        LogFollows(st, piece, r.Tick().Tick(), Delivered(q.begin, b.data));
      }
    }
  }

  /** Unchoked, the piece secured, and q the next block. */
  ghost predicate InTransfer(st: SessState, piece: PieceSpec, r: Run, offset: nat) {
    && Follows(st, piece, r)
    && Secured(r, piece.index)
    && !r.state.choked
    && Observed(st, r.trace).interested
    && Observed(st, r.trace).fetched == offset
  }

  /** How fetching the block at `offset` ends: having delivered it, or with nothing more delivered. */
  ghost predicate BlockEnds(st: SessState, piece: PieceSpec, out: Outcome, offset: nat, next: nat) {
    && Stopped(st, piece, out.run.trace)
    && (out.error.Some? ==> Observed(st, out.run.trace).fetched == offset)
    && (out.error.None? ==> InTransfer(st, piece, out.run, next) && Observed(st, out.run.trace).pending.None?)
  }

  lemma {:induction false} AwaitBlockFollows(st: SessState, piece: PieceSpec, w: World, r: Run, q: Request)
    requires InTransfer(st, piece, r, q.begin) && q.index == piece.index
    requires Observed(st, r.trace).watching && Observed(st, r.trace).pending == Some(q)
    ensures var out := AwaitBlock(w, r, q);
      BlockEnds(st, piece, out, q.begin, q.begin + q.length) && Observed(st, out.run.trace).watching
    decreases |r.rest|
  {
    ReadFollows(st, piece, w, r);
    var reading := ReadWithContext(w, r);
    if reading.received.Message? {
      var m := reading.received.message;
      ReadKeepsSecured(w, r, piece.index);
      if m.id == PIECE {
        TakeBlockFollows(st, piece, w, reading.run, q, m);
      } else if m.id != CHOKE {
        AwaitBlockFollows(st, piece, w, reading.run, q);
      }
    }
  }

  lemma RequestIsValid(piece: PieceSpec, offset: uint32)
    requires offset < piece.length
    ensures var q := Request(piece.index, offset, BlockLength(piece.length, offset));
      && NewRequest(q).Ok?
      && ParseRequest(NewRequest(q).value) == Ok(q)
      && NewRequest(q).value != INTERESTED_MESSAGE
  {
    var q := Request(piece.index, offset, BlockLength(piece.length, offset));
    RequestRoundTrip(NewRequest(q).value, q);
  }

  lemma FetchBlockFollows(st: SessState, piece: PieceSpec, w: World, r: Run, offset: uint32)
    requires InTransfer(st, piece, r, offset) && offset < piece.length
    requires !Observed(st, r.trace).watching && Observed(st, r.trace).pending.None?
    ensures var q := Request(piece.index, offset, BlockLength(piece.length, offset));
      var out := FetchBlock(w, r, q);
      BlockEnds(st, piece, out, offset, offset + q.length) && !Observed(st, out.run.trace).watching
  {
    if w(r.clock) {
      var r1 := r.Tick();
      LogFollows(st, piece, r1, Watch);
      RequestBlockFollows(st, piece, w, r1.Log(Watch), offset);
      var out := RequestBlock(w, r1.Log(Watch), Request(piece.index, offset, BlockLength(piece.length, offset)));
      UnwatchIsLegal(st, piece, out.run.trace);
    }
  }

  lemma RequestBlockFollows(st: SessState, piece: PieceSpec, w: World, r: Run, offset: uint32)
    requires InTransfer(st, piece, r, offset) && offset < piece.length
    requires Observed(st, r.trace).watching && Observed(st, r.trace).pending.None?
    ensures var q := Request(piece.index, offset, BlockLength(piece.length, offset));
      var out := RequestBlock(w, r, q);
      BlockEnds(st, piece, out, offset, offset + q.length) && Observed(st, out.run.trace).watching
  {
    RequestIsValid(piece, offset);
    var q := Request(piece.index, offset, BlockLength(piece.length, offset));
    var m := NewRequest(q).value;
    if w(r.clock) {
      LogFollows(st, piece, r.Tick().Tick(), SendFailed(m));
      LogFollows(st, piece, r.Tick().Tick(), Sent(m));
      var sent := Send(w, r.Tick(), m);
      if sent.error.None? {
        AwaitBlockFollows(st, piece, w, sent.run, q);
      }
    }
  }

  /** Stopping the watcher is legal however the block ended. */
  lemma UnwatchIsLegal(st: SessState, piece: PieceSpec, t: seq<Event>)
    requires Stopped(st, piece, t) && Observed(st, t).watching
    ensures Stopped(st, piece, t + [Unwatch])
    ensures Observed(st, t + [Unwatch]) == Observed(st, t).(watching := false, last := None)
  {
    var t' := t + [Unwatch];
    assert t'[..|t'| - 1] == t;
  }

  // --- The whole piece ----------------------------------------------------------------------------

  /** How FetchPiece ends once the peer is ready. */
  ghost predicate PieceEnds(st: SessState, piece: PieceSpec, out: Outcome) {
    && Stopped(st, piece, out.run.trace)
    && !Observed(st, out.run.trace).watching
    && Observed(st, out.run.trace).fetched <= piece.length
    && (out.error.None? ==> Observed(st, out.run.trace).fetched == piece.length && Follows(st, piece, out.run))
  }

  /** Between blocks: the next one starts at `offset`. */
  ghost predicate BetweenBlocks(st: SessState, piece: PieceSpec, r: Run, offset: nat) {
    && InTransfer(st, piece, r, offset)
    && !Observed(st, r.trace).watching
    && Observed(st, r.trace).pending.None?
  }

  lemma BlocksDone(st: SessState, piece: PieceSpec, w: World, r: Run, end: Outcome)
    requires BetweenBlocks(st, piece, r, piece.length) && end == FetchBlocks(w, r, piece, piece.length)
    ensures PieceEnds(st, piece, end)
  {
  }

  lemma NextBlock(st: SessState, piece: PieceSpec, w: World, r: Run, offset: uint32, end: Outcome)
    returns (out: Outcome, next: uint32)
    requires BetweenBlocks(st, piece, r, offset) && offset < piece.length
    requires end == FetchBlocks(w, r, piece, offset)
    ensures out.error.Some? ==> PieceEnds(st, piece, end)
    ensures out.error.None? ==>
              && offset < next <= piece.length
              && BetweenBlocks(st, piece, out.run, next)
              && end == FetchBlocks(w, out.run, piece, next)
  {
    hide FetchBlock, FetchBlocks, Legal, Observed;
    next := offset + BlockLength(piece.length, offset);
    out := FetchBlock(w, r, Request(piece.index, offset, BlockLength(piece.length, offset)));
    FetchBlocksUnfolds(w, r, piece, offset);
    FetchBlockFollows(st, piece, w, r, offset);
  }

  lemma {:induction false} FetchBlocksFollows(
      st: SessState, piece: PieceSpec, w: World, r: Run, offset: uint32, end: Outcome)
    requires BetweenBlocks(st, piece, r, offset) && offset < piece.length
    requires end == FetchBlocks(w, r, piece, offset)
    ensures PieceEnds(st, piece, end)
    decreases piece.length - offset
  {
    hide *;
    var out, next := NextBlock(st, piece, w, r, offset, end);
    if out.error.None? {
      if next == piece.length {
        BlocksDone(st, piece, w, out.run, end);
      } else {
        FetchBlocksFollows(st, piece, w, out.run, next, end);
      }
    }
  }

  /** How the setup phase ends: ready for the first request, or with nothing requested. */
  ghost predicate SetupEnds(st: SessState, piece: PieceSpec, out: Outcome) {
    && Stopped(st, piece, out.run.trace)
    && Observed(st, out.run.trace).watching
    && Observed(st, out.run.trace).fetched == 0
    && Observed(st, out.run.trace).pending.None?
    && (out.error.None? ==> InTransfer(st, piece, out.run, 0))
  }

  lemma InterestedFollows(st: SessState, piece: PieceSpec, w: World, r: Run)
    requires Follows(st, piece, r) && Secured(r, piece.index)
    requires var mon := Observed(st, r.trace);
      mon.watching && !mon.interested && mon.pending.None? && mon.fetched == 0
    ensures var sent := Send(w, r, INTERESTED_MESSAGE);
      var mon := Observed(st, sent.run.trace);
      && Follows(st, piece, sent.run) && Secured(sent.run, piece.index)
      && mon.watching && mon.pending.None? && mon.fetched == 0
      && (sent.error.None? ==> mon.interested)
  {
    LogFollows(st, piece, r.Tick(), Sent(INTERESTED_MESSAGE));
    LogFollows(st, piece, r.Tick(), SendFailed(INTERESTED_MESSAGE));
  }

  lemma PrepareFollows(st: SessState, piece: PieceSpec, w: World, r: Run)
    requires Coherent(st) && Follows(st, piece, r) && piece.index < st.pieceCount
    requires var mon := Observed(st, r.trace);
      mon.watching && !mon.interested && mon.pending.None? && mon.fetched == 0
    ensures SetupEnds(st, piece, Prepare(w, r, piece.index))
  {
    hide Legal, Observed, AwaitPiece, AwaitUnchoke, Send;
    AwaitPieceFollows(st, piece, w, r);
    var found := AwaitPiece(w, r, piece.index);
    if found.error.None? {
      CoherentSoFar(st, found.run.trace);
      InterestedFollows(st, piece, w, found.run);
      var sent := Send(w, found.run, INTERESTED_MESSAGE);
      if sent.error.None? {
        AwaitUnchokeFollows(st, piece, w, sent.run);
      }
    }
  }

  lemma {:induction false} CoherentSoFar(st: SessState, t: seq<Event>)
    requires Coherent(st)
    ensures Coherent(Observed(st, t).state)
  {
    if t != [] {
      CoherentSoFar(st, t[..|t| - 1]);
      if t[|t| - 1].Got? {
        AcceptKeepsCoherent(Observed(st, t[..|t| - 1]).state, t[|t| - 1].message);
      }
    }
  }

  /** Whatever the peer sends and however the world answers, FetchPiece does only what the monitor
      permits, leaves no watcher behind, and delivers the piece from its start: all of it on success,
      a part that ends on a block boundary otherwise. */
  lemma FetchPieceIsLegal(w: World, r: Run, piece: PieceSpec)
    requires Coherent(r.state) && r.trace == []
    ensures var out := FetchPiece(w, r, piece);
      var mon := Observed(r.state, out.run.trace);
      && Legal(r.state, piece, out.run.trace)
      && !mon.watching
      && mon.fetched <= piece.length
      && (out.error.None? ==> mon.fetched == piece.length > 0 && mon.state == out.run.state)
  {
    hide RequestBlock, FetchBlock, FetchBlocks, Prepare;
    var st := r.state;
    if piece.index < st.pieceCount && piece.length > 0 && w(r.clock) {
      var r1 := r.Tick();
      assert Follows(st, piece, r1);
      if w(r1.clock) {
        var r2 := r1.Tick();
        LogFollows(st, piece, r2, Watch);
        PrepareFollows(st, piece, w, r2.Log(Watch));
        var prepared := Prepare(w, r2.Log(Watch), piece.index);
        UnwatchIsLegal(st, piece, prepared.run.trace);
        if prepared.error.None? {
          var start := prepared.run.Log(Unwatch);
          FetchBlocksFollows(st, piece, w, start, 0, FetchBlocks(w, start, piece, 0));
        }
      }
    }
  }
}
