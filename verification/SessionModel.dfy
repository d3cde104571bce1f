/**
 * What a session does with a peer's byte stream, as functions: the specification that the methods
 * of class Session are proved to compute.
 */
module SessionModel {
  import opened Wrappers
  import opened Bytes
  import opened Wire
  import opened Payloads
  import opened Bitfields

  // --- Session state ----------------------------------------------------------------------------

  /** The fields of Session that messages change, and the piece count. */
  datatype SessState = SessState(choked: bool, pieceCount: nat, bits: seq<byte>, bitfieldAllowed: bool) {
    ghost predicate Valid() {
      pieceCount <= MAX_PIECES && ValidBits(bits, pieceCount)
    }

    predicate Has(i: nat)
      requires |bits| == BitfieldBytes(pieceCount)
    {
      i < pieceCount && Bit(bits, i)
    }
  }

  /** NewSession: choked, nothing advertised, a bitfield may come. */
  function Initial(n: nat): SessState {
    SessState(true, n, NoBits(n), true)
  }

  datatype SessionError =
    | WireError(error: Error)  // from ReadFrame or a payload parser
    | Protocol                 // ErrPeerProtocol
    | Choked                   // ErrPeerChoked
    | Unavailable              // ErrPieceUnavailable
    | ContextEnded             // the context's own error
    | WatchFailed              // the connection deadline could not be set
    | WriteFailed
    | BlockRefused             // the callback's error
    | BadPiece                 // index or length of the piece itself

  /** The state Read leaves, with the error it returns if it returns one. */
  datatype Verdict = Verdict(error: Option<SessionError>, state: SessState)

  /** What Read does with one message after the frame was accepted. */
  function Accept(st: SessState, m: Message): (v: Verdict)
    requires |st.bits| == BitfieldBytes(st.pieceCount)
    ensures |v.state.bits| == |st.bits| && v.state.pieceCount == st.pieceCount
  {
    if m.id == BITFIELD && !st.bitfieldAllowed then Verdict(Some(Protocol), st)
    else
      var open := st.(bitfieldAllowed := false);
      if m.id == CHOKE then Verdict(None, open.(choked := true))
      else if m.id == UNCHOKE then Verdict(None, open.(choked := false))
      else if m.id == BITFIELD then (
        match BitfieldError(m.payload, st.pieceCount)
        case Some(e) => Verdict(Some(WireError(e)), open)
        case None => Verdict(None, open.(bits := m.payload)))
      else if m.id == HAVE then (
        match ParseHave(m)
        case Err(e) => Verdict(Some(WireError(e)), open)
        case Ok(index) =>
          if index >= st.pieceCount then Verdict(Some(Protocol), open)
          else Verdict(None, open.(bits := SetBit(st.bits, index))))
      else Verdict(None, open)
  }

  lemma AcceptKeepsValid(st: SessState, m: Message)
    requires st.Valid()
    ensures Accept(st, m).state.Valid() && Accept(st, m).state.pieceCount == st.pieceCount
  {
    if m.id == BITFIELD {
      ParseAcceptsValidBits(m.payload, st.pieceCount);
    } else if m.id == HAVE && ParseHave(m).Ok? && ParseHave(m).value < st.pieceCount {
      SetBitAddsPiece(st.bits, st.pieceCount, ParseHave(m).value);
    }
  }

  // --- Coherence --------------------------------------------------------------------------------

  /** While a Bitfield may still come, nothing is advertised and the peer chokes. */
  ghost predicate Coherent(st: SessState) {
    && st.Valid()
    && (st.bitfieldAllowed ==> st.choked && forall i :: 0 <= i < st.pieceCount ==> !st.Has(i))
  }

  lemma AcceptKeepsCoherent(st: SessState, m: Message)
    requires Coherent(st)
    ensures Coherent(Accept(st, m).state)
  {
    AcceptKeepsValid(st, m);
  }

  lemma InitialIsCoherent(n: nat)
    requires n <= MAX_PIECES
    ensures Coherent(Initial(n)) && Pieces(Initial(n).bits, n) == {}
  {
    NoBitsIsEmpty(n);
    assert forall i :: 0 <= i < n ==> (Initial(n).Has(i) <==> i in Pieces(Initial(n).bits, n));
  }

  // --- Read -------------------------------------------------------------------------------------

  datatype Received = Message(message: Message) | Failure(error: SessionError)

  datatype ReadOutcome = ReadOutcome(received: Received, state: SessState, rest: seq<byte>)

  /** Session.Read: skips keep-alives and unsupported frames, then applies one message. */
  function Read(st: SessState, input: seq<byte>): (out: ReadOutcome)
    requires |st.bits| == BitfieldBytes(st.pieceCount)
    ensures |out.rest| <= |input| && (out.received.Message? ==> |out.rest| < |input|)
    ensures |out.state.bits| == BitfieldBytes(out.state.pieceCount) && out.state.pieceCount == st.pieceCount
    decreases |input|
  {
    var step := ReadStep(input, st.pieceCount);
    match step.result
    case Err(e) => ReadOutcome(Failure(WireError(e)), st, step.rest)
    case Ok(Enclosed(m)) =>
      var v := Accept(st, m);
      ReadOutcome(if v.error.Some? then Failure(v.error.value) else Received.Message(m), v.state, step.rest)
    case Ok(_) => Read(st, step.rest)
  }

  lemma {:induction false} ReadKeepsValid(st: SessState, input: seq<byte>)
    requires st.Valid()
    ensures Read(st, input).state.Valid()
    decreases |input|
  {
    var step := ReadStep(input, st.pieceCount);
    if step.result.Ok? {
      if step.result.value.Enclosed? {
        AcceptKeepsValid(st, step.result.value.message);
      } else {
        ReadKeepsValid(st, step.rest);
      }
    }
  }

  // --- Fetching a piece -------------------------------------------------------------------------

  /** Answers of the outside world, in the order in which it is asked: whether a context is still
      live, a deadline could be set, a write succeeded, a block was accepted. */
  type World = nat -> bool

  datatype PieceSpec = PieceSpec(index: uint32, length: uint32)

  datatype Event =
    | Watch                                         // watchContext succeeded
    | Unwatch                                       // its stop function returned
    | Got(message: Message)                         // Read returned this message
    | Sent(message: Message)
    | SendFailed(message: Message)
    | Delivered(offset: uint32, data: seq<byte>)    // the callback accepted the block
    | Refused(offset: uint32, data: seq<byte>)      // the callback failed

  /** A session in the middle of a call: its state, the unread input, the number of questions asked so
      far, and everything that happened on the connection. */
  datatype Run = Run(state: SessState, rest: seq<byte>, clock: nat, trace: seq<Event>) {
    predicate Valid() {
      |state.bits| == BitfieldBytes(state.pieceCount)
    }

    function Log(e: Event): Run {
      this.(trace := trace + [e])
    }

    function Tick(): Run {
      this.(clock := clock + 1)
    }
  }

  datatype Outcome = Outcome(error: Option<SessionError>, run: Run)

  /** contextIOError: the context's error if it has ended, else `e`. */
  function ContextOr(w: World, r: Run, e: SessionError): Outcome {
    Outcome(Some(if w(r.clock) then e else ContextEnded), r.Tick())
  }

  datatype Reading = Reading(received: Received, run: Run)

  /** readWithContext. */
  function ReadWithContext(w: World, r: Run): (out: Reading)
    requires r.Valid()
    ensures out.run.Valid() && out.run.state.pieceCount == r.state.pieceCount
    ensures out.received.Message? ==> |out.run.rest| < |r.rest|
  {
    var read := Read(r.state, r.rest);
    var r' := r.(state := read.state, rest := read.rest);
    match read.received
    case Message(m) => Reading(read.received, r'.Log(Got(m)))
    case Failure(e) => Reading(Failure(ContextOr(w, r', e).error.value), r'.Tick())
  }

  /** Sending one message; a failed write is classified by contextIOError. */
  function Send(w: World, r: Run, m: Message): Outcome {
    if w(r.clock) then Outcome(None, r.Tick().Log(Sent(m)))
    else ContextOr(w, r.Tick().Log(SendFailed(m)), WriteFailed)
  }

  /** The loop of waitUntilReady that waits for the piece to be advertised. */
  function AwaitPiece(w: World, r: Run, index: nat): (out: Outcome)
    requires r.Valid()
    ensures out.run.Valid() && out.run.state.pieceCount == r.state.pieceCount
    decreases |r.rest|
  {
    if r.state.Has(index) then Outcome(None, r)
    else
      var reading := ReadWithContext(w, r);
      match reading.received
      case Failure(e) => Outcome(Some(e), reading.run)
      case Message(m) =>
        if m.id == BITFIELD && !reading.run.state.Has(index) then Outcome(Some(Unavailable), reading.run)
        else if m.id == PIECE then Outcome(Some(Protocol), reading.run)
        else AwaitPiece(w, reading.run, index)
  }

  /** The loop of waitUntilReady that waits for Unchoke. */
  function AwaitUnchoke(w: World, r: Run): (out: Outcome)
    requires r.Valid()
    ensures out.run.Valid() && out.run.state.pieceCount == r.state.pieceCount
    decreases |r.rest|
  {
    if !r.state.choked then Outcome(None, r)
    else
      var reading := ReadWithContext(w, r);
      match reading.received
      case Failure(e) => Outcome(Some(e), reading.run)
      case Message(m) =>
        if m.id == PIECE then Outcome(Some(Protocol), reading.run)
        else AwaitUnchoke(w, reading.run)
  }

  const INTERESTED_MESSAGE := Wire.Message(INTERESTED, [])

  lemma InterestedBytes()
    ensures Encode(INTERESTED_MESSAGE) == [0, 0, 0, 1, 2]
  {
    assert PutUint32(1) == [0, 0, 0, 1];
  }

  /** waitUntilReady between watchContext and its stop function. */
  function Prepare(w: World, r: Run, index: nat): (out: Outcome)
    requires r.Valid()
    ensures out.run.Valid() && out.run.state.pieceCount == r.state.pieceCount
  {
    var found := AwaitPiece(w, r, index);
    if found.error.Some? then found
    else
      var sent := Send(w, found.run, INTERESTED_MESSAGE);
      if sent.error.Some? then sent
      else
        var ready := AwaitUnchoke(w, sent.run);
        if ready.error.Some? then ready
        else Outcome(if w(ready.run.clock) then None else Some(ContextEnded), ready.run.Tick())
  }

  /** waitUntilReady. */
  function WaitUntilReady(w: World, r: Run, index: nat): (out: Outcome)
    requires r.Valid()
    ensures out.run.Valid() && out.run.state.pieceCount == r.state.pieceCount
  {
    if !w(r.clock) then Outcome(Some(WatchFailed), r.Tick())
    else
      var out := Prepare(w, r.Tick().Log(Watch), index);
      Outcome(out.error, out.run.Log(Unwatch))
  }

  /** The inner loop of FetchPiece: reads until the outstanding request is answered. */
  function AwaitBlock(w: World, r: Run, q: Request): (out: Outcome)
    requires r.Valid()
    ensures out.run.Valid() && out.run.state.pieceCount == r.state.pieceCount
    decreases |r.rest|
  {
    var reading := ReadWithContext(w, r);
    match reading.received
    case Failure(e) => Outcome(Some(e), reading.run)
    case Message(m) =>
      if m.id == CHOKE then Outcome(Some(Choked), reading.run)
      else if m.id == PIECE then TakeBlock(w, reading.run, q, m)
      else AwaitBlock(w, reading.run, q)
  }

  /** What FetchPiece does with a Piece message. */
  function TakeBlock(w: World, r: Run, q: Request, m: Message): (out: Outcome)
    requires r.Valid()
    ensures out.run.Valid() && out.run.state == r.state
  {
    match ParsePiece(m)
    case Err(e) => Outcome(Some(WireError(e)), r)
    case Ok(b) =>
      if b.index != q.index || b.begin != q.begin || |b.data| != q.length then Outcome(Some(Protocol), r)
      else if !w(r.clock) then Outcome(Some(ContextEnded), r.Tick())
      else if !w(r.clock + 1) then Outcome(Some(BlockRefused), r.Tick().Tick().Log(Refused(q.begin, b.data)))
      else Outcome(None, r.Tick().Tick().Log(Delivered(q.begin, b.data)))
  }

  /** One block between watchContext and its stop function. */
  function RequestBlock(w: World, r: Run, q: Request): (out: Outcome)
    requires r.Valid()
    ensures out.run.Valid() && out.run.state.pieceCount == r.state.pieceCount
  {
    if !w(r.clock) then Outcome(Some(ContextEnded), r.Tick())
    else
      match NewRequest(q)
      case Err(e) => ContextOr(w, r.Tick(), WireError(e))
      case Ok(m) =>
        var sent := Send(w, r.Tick(), m);
        if sent.error.Some? then sent else AwaitBlock(w, sent.run, q)
  }

  /** The function literal of FetchPiece: one block with its own watcher. */
  function FetchBlock(w: World, r: Run, q: Request): (out: Outcome)
    requires r.Valid()
    ensures out.run.Valid() && out.run.state.pieceCount == r.state.pieceCount
  {
    if !w(r.clock) then Outcome(Some(WatchFailed), r.Tick())
    else
      var out := RequestBlock(w, r.Tick().Log(Watch), q);
      Outcome(out.error, out.run.Log(Unwatch))
  }

  /** min(MaxBlockSize, piece.Length-blockOffset). */
  function BlockLength(length: uint32, offset: uint32): uint32
    requires offset <= length
  {
    if length - offset < MAX_BLOCK then length - offset else MAX_BLOCK
  }

  /** The block loop of FetchPiece from `offset` on. */
  function FetchBlocks(w: World, r: Run, piece: PieceSpec, offset: uint32): (out: Outcome)
    requires r.Valid() && offset <= piece.length
    ensures out.run.Valid() && out.run.state.pieceCount == r.state.pieceCount
    decreases piece.length - offset
  {
    if offset == piece.length then Outcome(None, r)
    else
      var length := BlockLength(piece.length, offset);
      var out := FetchBlock(w, r, Request(piece.index, offset, length));
      if out.error.Some? then out else FetchBlocks(w, out.run, piece, offset + length)
  }

  lemma FetchBlocksUnfolds(w: World, r: Run, piece: PieceSpec, offset: uint32)
    requires r.Valid() && offset < piece.length
    ensures var length := BlockLength(piece.length, offset);
      var out := FetchBlock(w, r, Request(piece.index, offset, length));
      FetchBlocks(w, r, piece, offset) ==
        if out.error.Some? then out else FetchBlocks(w, out.run, piece, offset + length)
  {
  }

  lemma FetchBlocksEnds(w: World, r: Run, piece: PieceSpec)
    requires r.Valid()
    ensures FetchBlocks(w, r, piece, piece.length) == Outcome(None, r)
  {
  }

  /** FetchPiece. */
  function FetchPiece(w: World, r: Run, piece: PieceSpec): (out: Outcome)
    requires r.Valid()
    ensures out.run.Valid() && out.run.state.pieceCount == r.state.pieceCount
  {
    if piece.index >= r.state.pieceCount || piece.length == 0 then Outcome(Some(BadPiece), r)
    else if !w(r.clock) then Outcome(Some(ContextEnded), r.Tick())
    else
      var ready := WaitUntilReady(w, r.Tick(), piece.index);
      if ready.error.Some? then ready else FetchBlocks(w, ready.run, piece, 0)
  }
}
