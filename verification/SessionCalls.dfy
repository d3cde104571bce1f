/** A session used again and again: any sequence of Read and FetchPiece calls, however each of them ends. */
module SessionCalls {
  import opened Bytes
  import opened Wire
  import opened Payloads
  import opened Tiling
  import opened SessionModel
  import opened SessionTrace
  import opened FetchTheorems

  // --- Every outcome keeps the session coherent -----------------------------------------------------

  lemma {:induction false} ReadKeepsCoherent(st: SessState, input: seq<byte>)
    requires Coherent(st)
    ensures Coherent(Read(st, input).state)
    decreases |input|
  {
    var step := ReadStep(input, st.pieceCount);
    if step.result.Ok? {
      if step.result.value.Enclosed? {
        AcceptKeepsCoherent(st, step.result.value.message);
      } else {
        ReadKeepsCoherent(st, step.rest);
      }
    }
  }

  lemma {:induction false} AwaitPieceKeepsCoherent(w: World, r: Run, index: nat)
    requires Coherent(r.state)
    ensures Coherent(AwaitPiece(w, r, index).run.state)
    decreases |r.rest|
  {
    if !r.state.Has(index) {
      hide Coherent;
      ReadKeepsCoherent(r.state, r.rest);
      var reading := ReadWithContext(w, r);
      if reading.received.Message? {
        AwaitPieceKeepsCoherent(w, reading.run, index);
      }
    }
  }

  lemma {:induction false} AwaitUnchokeKeepsCoherent(w: World, r: Run)
    requires Coherent(r.state)
    ensures Coherent(AwaitUnchoke(w, r).run.state)
    decreases |r.rest|
  {
    if r.state.choked {
      hide Coherent;
      ReadKeepsCoherent(r.state, r.rest);
      var reading := ReadWithContext(w, r);
      if reading.received.Message? {
        AwaitUnchokeKeepsCoherent(w, reading.run);
      }
    }
  }

  lemma {:induction false} AwaitBlockKeepsCoherent(w: World, r: Run, q: Request)
    requires Coherent(r.state)
    ensures Coherent(AwaitBlock(w, r, q).run.state)
    decreases |r.rest|
  {
    assert r.Valid();
    hide Coherent;
    ReadKeepsCoherent(r.state, r.rest);
    var reading := ReadWithContext(w, r);
    if reading.received.Message? && reading.received.message.id != CHOKE && reading.received.message.id != PIECE {
      AwaitBlockKeepsCoherent(w, reading.run, q);
    }
  }

  lemma WaitUntilReadyKeepsCoherent(w: World, r: Run, index: nat)
    requires Coherent(r.state)
    ensures Coherent(WaitUntilReady(w, r, index).run.state)
  {
    var r1 := r.Tick().Log(Watch);
    assert r1.Valid();
    hide Coherent, AwaitPiece, AwaitUnchoke;
    AwaitPieceKeepsCoherent(w, r1, index);
    var found := AwaitPiece(w, r1, index);
    AwaitUnchokeKeepsCoherent(w, Send(w, found.run, INTERESTED_MESSAGE).run);
  }

  lemma FetchBlockKeepsCoherent(w: World, r: Run, q: Request)
    requires Coherent(r.state)
    ensures Coherent(FetchBlock(w, r, q).run.state)
  {
    var r1 := r.Tick().Log(Watch);
    assert r1.Valid();
    hide Coherent, AwaitBlock;
    if NewRequest(q).Ok? {
      AwaitBlockKeepsCoherent(w, Send(w, r1.Tick(), NewRequest(q).value).run, q);
    }
  }

  lemma NextBlockKeepsCoherent(w: World, r: Run, piece: PieceSpec, offset: uint32, end: Outcome)
      returns (out: Outcome, next: uint32)
    requires Coherent(r.state) && offset < piece.length && end == FetchBlocks(w, r, piece, offset)
    ensures Coherent(out.run.state) && (out.error.Some? ==> out == end)
    ensures out.error.None? ==> offset < next <= piece.length && end == FetchBlocks(w, out.run, piece, next)
  {
    hide FetchBlock, FetchBlocks;
    next := offset + BlockLength(piece.length, offset);
    var q := Request(piece.index, offset, BlockLength(piece.length, offset));
    out := FetchBlock(w, r, q);
    FetchBlockKeepsCoherent(w, r, q);
    FetchBlocksUnfolds(w, r, piece, offset);
  }

  lemma {:induction false} FetchBlocksKeepsCoherent(w: World, r: Run, piece: PieceSpec, offset: uint32, end: Outcome)
    requires Coherent(r.state) && offset <= piece.length && end == FetchBlocks(w, r, piece, offset)
    ensures Coherent(end.run.state)
    decreases piece.length - offset
  {
    if offset == piece.length {
      FetchBlocksEnds(w, r, piece);
    } else {
      hide *;
      var out, next := NextBlockKeepsCoherent(w, r, piece, offset, end);
      if out.error.None? {
        FetchBlocksKeepsCoherent(w, out.run, piece, next, end);
      }
    }
  }

  /** However FetchPiece ends, the session it leaves is one that FetchPiece can be called on. */
  lemma FetchPieceKeepsCoherent(w: World, r: Run, piece: PieceSpec)
    requires Coherent(r.state)
    ensures Coherent(FetchPiece(w, r, piece).run.state)
  {
    assert r.Tick().Valid();
    hide Coherent, WaitUntilReady, FetchBlocks;
    WaitUntilReadyKeepsCoherent(w, r.Tick(), piece.index);
    var ready := WaitUntilReady(w, r.Tick(), piece.index).run;
    FetchBlocksKeepsCoherent(w, ready, piece, 0, FetchBlocks(w, ready, piece, 0));
  }

  // --- Sequences of calls -----------------------------------------------------------------------------

  datatype Call = ReadCall | FetchCall(piece: PieceSpec)

  /** The session after one more call; the trace is that of this call alone. */
  function Perform(w: World, r: Run, call: Call): (r': Run)
    requires r.Valid()
    ensures r'.Valid()
  {
    match call
    case ReadCall =>
      var read := Read(r.state, r.rest);
      r.(state := read.state, rest := read.rest, trace := [])
    case FetchCall(piece) => FetchPiece(w, r.(trace := []), piece).run
  }

  ghost function AfterCalls(w: World, r: Run, calls: seq<Call>): (r': Run)
    requires r.Valid()
    ensures r'.Valid()
  {
    if calls == [] then r else Perform(w, AfterCalls(w, r, calls[..|calls| - 1]), calls[|calls| - 1])
  }

  /** A session as NewSession leaves it. */
  function Fresh(n: nat, input: seq<byte>, clock: nat): Run {
    Run(Initial(n), input, clock, [])
  }

  lemma {:induction false} CallsKeepCoherent(w: World, r: Run, calls: seq<Call>)
    requires Coherent(r.state)
    ensures Coherent(AfterCalls(w, r, calls).state)
  {
    if calls != [] {
      CallsKeepCoherent(w, r, calls[..|calls| - 1]);
      hide Coherent;
      var before := AfterCalls(w, r, calls[..|calls| - 1]);
      match calls[|calls| - 1]
      case ReadCall => ReadKeepsCoherent(before.state, before.rest);
      case FetchCall(piece) => FetchPieceKeepsCoherent(w, before.(trace := []), piece);
    }
  }

  /** What one FetchPiece call may do, and what it delivers, from the state in which it was made. */
  ghost predicate FetchConforms(st: SessState, piece: PieceSpec, out: Outcome) {
    && |st.bits| == Wire.BitfieldBytes(st.pieceCount)
    && Legal(st, piece, out.run.trace)
    && !Observed(st, out.run.trace).watching
    && (out.error.None? ==> FetchTheorems.Delivered(out.run.trace) == BlocksFrom(piece.length, 0))
    && (exists n ::
          && n <= piece.length
          && |Content(out.run.trace)| == n
          && Tiles(FetchTheorems.Delivered(out.run.trace), 0, n))
  }

  lemma FetchPieceConforms(w: World, r: Run, piece: PieceSpec)
    requires Coherent(r.state) && r.trace == []
    ensures FetchConforms(r.state, piece, FetchPiece(w, r, piece))
  {
    FetchPieceIsLegal(w, r, piece);
    FetchPieceDeliversBlocks(w, r, piece);
    FetchPieceTiles(w, r, piece);
  }

  /** In any sequence of Read and FetchPiece calls on a session from NewSession, successful or not, every
      FetchPiece call follows the protocol, leaves no watcher behind, and delivers a tiling: of the whole
      piece if it succeeds, of a part from its start if it fails. */
  lemma EveryFetchConforms(w: World, n: nat, input: seq<byte>, clock: nat, calls: seq<Call>, k: nat)
    requires n <= MAX_PIECES && k < |calls| && calls[k].FetchCall?
    ensures var r := AfterCalls(w, Fresh(n, input, clock), calls[..k]).(trace := []);
      && FetchConforms(r.state, calls[k].piece, FetchPiece(w, r, calls[k].piece))
      && AfterCalls(w, Fresh(n, input, clock), calls[..k + 1]) == FetchPiece(w, r, calls[k].piece).run
  {
    InitialIsCoherent(n);
    hide FetchPiece, FetchConforms, Coherent, Read;
    CallsKeepCoherent(w, Fresh(n, input, clock), calls[..k]);
    var r := AfterCalls(w, Fresh(n, input, clock), calls[..k]).(trace := []);
    FetchPieceConforms(w, r, calls[k].piece);
    assert calls[..k + 1][..k] == calls[..k];
  }
}
