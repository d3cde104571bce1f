/** Keep-alives and unsupported frames make no difference to a session. */
module SessionStutter {
  import opened Bytes
  import opened Wire
  import opened Payloads
  import opened Bitfields
  import opened SessionModel
  import opened SessionHistory

  // --- Streams up to frames that are skipped --------------------------------------------------------

  /** The stream without keep-alives and unsupported frames, up to the first frame that is rejected. */
  function Strip(input: seq<byte>, n: nat): seq<byte>
    decreases |input|
  {
    var step := ReadStep(input, n);
    match step.result
    case Err(_) => input
    case Ok(Enclosed(_)) => input[..|input| - |step.rest|] + Strip(step.rest, n)
    case Ok(_) => Strip(step.rest, n)
  }

  /** The two streams differ only in frames that are skipped. */
  ghost predicate Same(a: seq<byte>, b: seq<byte>, n: nat) {
    Strip(a, n) == Strip(b, n)
  }

  /** A stripped message is read as before, and the rest of the stripped stream is the stripped rest. */
  lemma StripKeepsMessage(input: seq<byte>, n: nat)
    requires ValidPieceCount(n)
    requires ReadStep(input, n).result.Ok? && ReadStep(input, n).result.value.Enclosed?
    ensures ReadStep(Strip(input, n), n) == Step(ReadStep(input, n).result, Strip(ReadStep(input, n).rest, n))
  {
    var step := ReadStep(input, n);
    assert Strip(input, n) == input[..|input| - |step.rest|] + Strip(step.rest, n);
    hide ReadStep, Strip, Encodes;
    WriteAfterRead(input, n);
    ReadIsLocal(input[..|input| - |step.rest|], Strip(step.rest, n), step.result.value, n);
  }

  lemma {:induction false} StripTwice(input: seq<byte>, n: nat)
    requires ValidPieceCount(n)
    ensures Strip(Strip(input, n), n) == Strip(input, n)
    decreases |input|
  {
    var step := ReadStep(input, n);
    if step.result.Ok? {
      StripTwice(step.rest, n);
      if step.result.value.Enclosed? {
        StripKeepsMessage(input, n);
        var used := input[..|input| - |step.rest|];
        var s := Strip(input, n);
        assert s[..|s| - |Strip(step.rest, n)|] == used;
      }
    }
  }

  /** Reading from a stream and from the stripped stream gives the same message and state. */
  lemma {:induction false} ReadStripped(st: SessState, input: seq<byte>)
    requires st.Valid()
    ensures var n := st.pieceCount;
      var a, b := Read(st, input), Read(st, Strip(input, n));
      && a.received == b.received && a.state == b.state
      && (a.received.Message? ==> Same(a.rest, b.rest, n))
    decreases |input|
  {
    var n := st.pieceCount;
    var step := ReadStep(input, n);
    if step.result.Ok? {
      if step.result.value.Enclosed? {
        StripKeepsMessage(input, n);
        StripTwice(step.rest, n);
      } else {
        ReadStripped(st, step.rest);
      }
    }
  }

  lemma SameReads(st: SessState, a: seq<byte>, b: seq<byte>)
    requires st.Valid() && Same(a, b, st.pieceCount)
    ensures var x, y := Read(st, a), Read(st, b);
      && x.received == y.received && x.state == y.state
      && (x.received.Message? ==> Same(x.rest, y.rest, st.pieceCount))
  {
    ReadStripped(st, a);
    ReadStripped(st, b);
  }

  /** What Read returns, exactly: behind the frames that are skipped comes a frame that ReadFrame rejects, or a
      message, which is returned unless it violates the session. */
  lemma ReadExactly(st: SessState, input: seq<byte>)
    requires st.Valid()
    ensures var next := ReadStep(Strip(input, st.pieceCount), st.pieceCount).result;
      var received := Read(st, input).received;
      match next
      case Err(e) => received == Failure(WireError(e)) && Read(st, input).state == st
      case Ok(f) =>
        && f.Enclosed?
        && received == if f.message.id == BITFIELD && !st.bitfieldAllowed then Failure(Protocol)
                       else if f.message.id == BITFIELD && !ValidBits(f.message.payload, st.pieceCount) then
                         Failure(WireError(Malformed))
                       else if f.message.id == HAVE && Uint32(f.message.payload) >= st.pieceCount then Failure(Protocol)
                       else Received.Message(f.message)
  {
    var n := st.pieceCount;
    StripLeadsToMessage(input, n);
    ReadStripped(st, input);
    var step := ReadStep(Strip(input, n), n);
    if step.result.Ok? {
      LayeredValidation(st, Strip(input, n), step.result.value.message);
    }
    BrokenReadKeepsState(st, input);
  }

  lemma {:induction false} StripLeadsToMessage(input: seq<byte>, n: nat)
    requires ValidPieceCount(n)
    ensures var next := ReadStep(Strip(input, n), n).result;
      next.Ok? ==> next.value.Enclosed?
    decreases |input|
  {
    var step := ReadStep(input, n);
    if step.result.Ok? {
      if step.result.value.Enclosed? {
        StripKeepsMessage(input, n);
      } else {
        StripLeadsToMessage(step.rest, n);
      }
    }
  }

  lemma {:induction false} BrokenReadKeepsState(st: SessState, input: seq<byte>)
    requires st.Valid()
    ensures ReadStep(Strip(input, st.pieceCount), st.pieceCount).result.Err? ==> Read(st, input).state == st
    decreases |input|
  {
    var step := ReadStep(input, st.pieceCount);
    if step.result.Ok? {
      if step.result.value.Enclosed? {
        StripKeepsMessage(input, st.pieceCount);
      } else {
        BrokenReadKeepsState(st, step.rest);
      }
    }
  }

  // --- Inserting frames -----------------------------------------------------------------------------

  /** A stretch of stream that consists of whole accepted frames. */
  ghost predicate WholeFrames(bytes: seq<byte>, n: nat) {
    ReadAll(bytes, n).error.None?
  }

  /** Any number of keep-alives and unsupported frames. */
  ghost predicate Skippable(bytes: seq<byte>, n: nat) {
    WholeFrames(bytes, n) && forall f :: f in ReadAll(bytes, n).frames ==> !f.Enclosed?
  }

  /** The first frame of a stretch of whole frames reads the same whatever follows the stretch. */
  lemma FirstFrame(bytes: seq<byte>, tail: seq<byte>, n: nat)
    requires ValidPieceCount(n) && WholeFrames(bytes, n) && bytes != []
    ensures var step := ReadStep(bytes, n);
      && step.result.Ok? && WholeFrames(step.rest, n)
      && ReadStep(bytes + tail, n) == Step(step.result, step.rest + tail)
      && (bytes + tail)[..|bytes| - |step.rest|] == bytes[..|bytes| - |step.rest|]
  {
    var step := ReadStep(bytes, n);
    WriteAfterRead(bytes, n);
    var used := bytes[..|bytes| - |step.rest|];
    assert bytes + tail == used + (step.rest + tail);
    ReadIsLocal(used, step.rest + tail, step.result.value, n);
  }

  lemma {:induction false} SkippableIsSkipped(bytes: seq<byte>, tail: seq<byte>, n: nat)
    requires ValidPieceCount(n) && Skippable(bytes, n)
    ensures Strip(bytes + tail, n) == Strip(tail, n)
    decreases |bytes|
  {
    if bytes == [] {
      assert bytes + tail == tail;
    } else {
      FirstFrame(bytes, tail, n);
      var step := ReadStep(bytes, n);
      assert step.result.value in ReadAll(bytes, n).frames;
      SkippableIsSkipped(step.rest, tail, n);
    }
  }

  /** Inserting skippable frames at a frame boundary leaves the stream the same. */
  lemma {:induction false} InsertionIsSame(before: seq<byte>, extra: seq<byte>, after: seq<byte>, n: nat)
    requires ValidPieceCount(n) && WholeFrames(before, n) && Skippable(extra, n)
    ensures Same(before + extra + after, before + after, n)
    decreases |before|
  {
    if before == [] {
      assert before + extra + after == extra + after && before + after == after;
      SkippableIsSkipped(extra, after, n);
    } else {
      var step := ReadStep(before, n);
      assert before + extra + after == before + (extra + after);
      FirstFrame(before, extra + after, n);
      FirstFrame(before, after, n);
      assert step.rest + (extra + after) == step.rest + extra + after;
      InsertionIsSame(step.rest, extra, after, n);
    }
  }

  // --- Fetching from equal streams ------------------------------------------------------------------

  /** Two runs that differ at most in skippable frames still to come. */
  ghost predicate SameRun(a: Run, b: Run) {
    && a.state == b.state && a.clock == b.clock && a.trace == b.trace
    && a.state.Valid()
    && Same(a.rest, b.rest, a.state.pieceCount)
  }

  /** The same result, state, questions asked and trace; and streams that stay the same on success. */
  ghost predicate SameOutcome(a: Outcome, b: Outcome) {
    && a.error == b.error
    && a.run.state == b.run.state && a.run.clock == b.run.clock && a.run.trace == b.run.trace
    && (a.error.None? ==> SameRun(a.run, b.run))
  }

  lemma ReadSame(w: World, a: Run, b: Run)
    requires SameRun(a, b)
    ensures var x, y := ReadWithContext(w, a), ReadWithContext(w, b);
      && x.received == y.received
      && x.run.state == y.run.state && x.run.clock == y.run.clock && x.run.trace == y.run.trace
      && (x.received.Message? ==> SameRun(x.run, y.run))
  {
    SameReads(a.state, a.rest, b.rest);
    ReadKeepsValid(a.state, a.rest);
  }

  lemma {:induction false} AwaitPieceSame(w: World, a: Run, b: Run, index: nat)
    requires SameRun(a, b)
    ensures SameOutcome(AwaitPiece(w, a, index), AwaitPiece(w, b, index))
    decreases |a.rest|
  {
    if !a.state.Has(index) {
      ReadSame(w, a, b);
      var x, y := ReadWithContext(w, a), ReadWithContext(w, b);
      if x.received.Message? {
        AwaitPieceSame(w, x.run, y.run, index);
      }
    }
  }

  lemma {:induction false} AwaitUnchokeSame(w: World, a: Run, b: Run)
    requires SameRun(a, b)
    ensures SameOutcome(AwaitUnchoke(w, a), AwaitUnchoke(w, b))
    decreases |a.rest|
  {
    if a.state.choked {
      ReadSame(w, a, b);
      var x, y := ReadWithContext(w, a), ReadWithContext(w, b);
      if x.received.Message? {
        AwaitUnchokeSame(w, x.run, y.run);
      }
    }
  }

  lemma SendSame(w: World, a: Run, b: Run, m: Message)
    requires SameRun(a, b)
    ensures SameOutcome(Send(w, a, m), Send(w, b, m))
  {
  }

  lemma PrepareSame(w: World, a: Run, b: Run, index: nat)
    requires SameRun(a, b)
    ensures SameOutcome(Prepare(w, a, index), Prepare(w, b, index))
  {
    AwaitPieceSame(w, a, b, index);
    var a2, b2 := AwaitPiece(w, a, index), AwaitPiece(w, b, index);
    if a2.error.None? {
      SendSame(w, a2.run, b2.run, INTERESTED_MESSAGE);
      var a3, b3 := Send(w, a2.run, INTERESTED_MESSAGE), Send(w, b2.run, INTERESTED_MESSAGE);
      if a3.error.None? {
        AwaitUnchokeSame(w, a3.run, b3.run);
      }
    }
  }

  lemma WaitUntilReadySame(w: World, a: Run, b: Run, index: nat)
    requires SameRun(a, b)
    ensures SameOutcome(WaitUntilReady(w, a, index), WaitUntilReady(w, b, index))
  {
    PrepareSame(w, a.Tick().Log(Watch), b.Tick().Log(Watch), index);
  }

  lemma TakeBlockSame(w: World, a: Run, b: Run, q: Request, m: Message)
    requires SameRun(a, b)
    ensures SameOutcome(TakeBlock(w, a, q, m), TakeBlock(w, b, q, m))
  {
    hide ParsePiece, Strip;
  }

  lemma {:induction false} AwaitBlockSame(w: World, a: Run, b: Run, q: Request)
    requires SameRun(a, b)
    ensures SameOutcome(AwaitBlock(w, a, q), AwaitBlock(w, b, q))
    decreases |a.rest|
  {
    hide TakeBlock, ReadWithContext, Strip;
    ReadSame(w, a, b);
    var x, y := ReadWithContext(w, a), ReadWithContext(w, b);
    if x.received.Message? {
      var m := x.received.message;
      if m.id == PIECE {
        TakeBlockSame(w, x.run, y.run, q, m);
      } else if m.id != CHOKE {
        AwaitBlockSame(w, x.run, y.run, q);
      }
    }
  }

  lemma FetchBlockSame(w: World, a: Run, b: Run, q: Request)
    requires SameRun(a, b)
    ensures SameOutcome(FetchBlock(w, a, q), FetchBlock(w, b, q))
  {
    var a1, b1 := a.Tick().Log(Watch), b.Tick().Log(Watch);
    if w(a1.clock) && NewRequest(q).Ok? {
      var m := NewRequest(q).value;
      var a2, b2 := Send(w, a1.Tick(), m), Send(w, b1.Tick(), m);
      if a2.error.None? {
        AwaitBlockSame(w, a2.run, b2.run, q);
      }
    }
  }

  lemma NextBlockSame(w: World, a: Run, b: Run, piece: PieceSpec, offset: uint32, endA: Outcome, endB: Outcome)
      returns (x: Outcome, y: Outcome)
    requires SameRun(a, b) && offset < piece.length
    requires endA == FetchBlocks(w, a, piece, offset) && endB == FetchBlocks(w, b, piece, offset)
    ensures x.error.Some? ==> SameOutcome(endA, endB)
    ensures x.error.None? ==> SameRun(x.run, y.run)
    ensures x.error.None? ==> endA == FetchBlocks(w, x.run, piece, offset + BlockLength(piece.length, offset))
    ensures x.error.None? ==> endB == FetchBlocks(w, y.run, piece, offset + BlockLength(piece.length, offset))
  {
    var q := Request(piece.index, offset, BlockLength(piece.length, offset));
    x, y := FetchBlock(w, a, q), FetchBlock(w, b, q);
    FetchBlockSame(w, a, b, q);
    FetchBlocksUnfolds(w, a, piece, offset);
    FetchBlocksUnfolds(w, b, piece, offset);
  }

  lemma {:induction false} FetchBlocksSame(
      w: World, a: Run, b: Run, piece: PieceSpec, offset: uint32, endA: Outcome, endB: Outcome)
    requires SameRun(a, b) && offset < piece.length
    requires endA == FetchBlocks(w, a, piece, offset) && endB == FetchBlocks(w, b, piece, offset)
    ensures SameOutcome(endA, endB)
    decreases piece.length - offset
  {
    hide FetchBlock, FetchBlocks;
    var x, y := NextBlockSame(w, a, b, piece, offset, endA, endB);
    if x.error.None? {
      var next := offset + BlockLength(piece.length, offset);
      if next == piece.length {
        BlocksEndSame(w, x.run, y.run, piece, endA, endB);
      } else {
        FetchBlocksSame(w, x.run, y.run, piece, next, endA, endB);
      }
    }
  }

  lemma BlocksEndSame(w: World, a: Run, b: Run, piece: PieceSpec, endA: Outcome, endB: Outcome)
    requires SameRun(a, b)
    requires endA == FetchBlocks(w, a, piece, piece.length) && endB == FetchBlocks(w, b, piece, piece.length)
    ensures SameOutcome(endA, endB)
  {
    FetchBlocksEnds(w, a, piece);
    FetchBlocksEnds(w, b, piece);
  }

  lemma FetchPieceSame(w: World, a: Run, b: Run, piece: PieceSpec)
    requires SameRun(a, b)
    ensures SameOutcome(FetchPiece(w, a, piece), FetchPiece(w, b, piece))
  {
    if piece.index < a.state.pieceCount && piece.length > 0 && w(a.clock) {
      WaitUntilReadySame(w, a.Tick(), b.Tick(), piece.index);
      var x, y := WaitUntilReady(w, a.Tick(), piece.index), WaitUntilReady(w, b.Tick(), piece.index);
      if x.error.None? {
        FetchBlocksSame(w, x.run, y.run, piece, 0, FetchBlocks(w, x.run, piece, 0), FetchBlocks(w, y.run, piece, 0));
      }
    }
  }

  /** Any number of keep-alives or unsupported frames inserted at a frame boundary changes nothing: not the
      next message Read returns nor the session state, not what FetchPiece returns, sends or delivers. */
  lemma StutteringInvariance(w: World, r: Run, piece: PieceSpec, before: seq<byte>, extra: seq<byte>, after: seq<byte>)
    requires r.state.Valid()
    requires WholeFrames(before, r.state.pieceCount) && Skippable(extra, r.state.pieceCount)
    ensures var plain, padded := Read(r.state, before + after), Read(r.state, before + extra + after);
      plain.received == padded.received && plain.state == padded.state
    ensures SameOutcome(FetchPiece(w, r.(rest := before + extra + after), piece),
                        FetchPiece(w, r.(rest := before + after), piece))
  {
    InsertionIsSame(before, extra, after, r.state.pieceCount);
    SameReads(r.state, before + after, before + extra + after);
    FetchPieceSame(w, r.(rest := before + extra + after), r.(rest := before + after), piece);
  }
}
