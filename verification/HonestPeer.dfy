/** Peers that FetchPiece succeeds with: what they send, byte for byte. */
module HonestPeer {
  import opened Bytes
  import opened Wire
  import opened Payloads
  import opened Bitfields
  import opened SessionModel
  import opened SessionHistory
  import opened SessionStutter
  import opened FetchTheorems
  import opened FetchSuccess

  /** Messages ReadFrame can return. */
  ghost predicate AllWellFormed(ms: seq<Message>, n: nat) {
    forall k :: 0 <= k < |ms| ==> WellFormed(ms[k], n)
  }

  function EncodeMessages(ms: seq<Message>): seq<byte>
    requires forall k :: 0 <= k < |ms| ==> |ms[k].payload| < MAX_MESSAGE
  {
    if ms == [] then [] else Encode(ms[0]) + EncodeMessages(ms[1..])
  }

  lemma ReadEncoded(st: SessState, m: Message, rest: seq<byte>)
    requires st.Valid() && WellFormed(m, st.pieceCount) && Accept(st, m).error.None?
    ensures Read(st, Encode(m) + rest) == ReadOutcome(Received.Message(m), Accept(st, m).state, rest)
  {
    ReadAfterWrite(m, rest, st.pieceCount);
  }

  /** An accepted history is read as sent, and what follows it is left alone. */
  lemma {:induction false} EncodedReads(st: SessState, ms: seq<Message>, tail: seq<byte>)
    requires st.Valid() && AllAccepted(st, ms) && AllWellFormed(ms, st.pieceCount)
    ensures Reads(st, EncodeMessages(ms) + tail, ms, tail)
    decreases |ms|
  {
    if ms == [] {
      assert EncodeMessages(ms) + tail == tail;
    } else {
      var m, more := ms[0], ms[1..];
      assert ms == [m] + more;
      FirstAccepted(st, m, more);
      AfterCons(st, m, more);
      AcceptKeepsValid(st, m);
      assert EncodeMessages(ms) + tail == Encode(m) + (EncodeMessages(more) + tail);
      ReadEncoded(st, m, EncodeMessages(more) + tail);
      EncodedReads(Accept(st, m).state, more, tail);
    }
  }

  lemma {:induction false} FirstAccepted(st: SessState, m: Message, ms: seq<Message>)
    requires |st.bits| == BitfieldBytes(st.pieceCount) && AllAccepted(st, [m] + ms)
    ensures Accept(st, m).error.None?
  {
    var all := [m] + ms;
    if ms == [] {
      assert all[..0] == [] && all[0] == m;
      assert SessionHistory.After(st, all[..0]) == st;
    } else {
      assert all[..|all| - 1] == [m] + ms[..|ms| - 1];
      FirstAccepted(st, m, ms[..|ms| - 1]);
    }
  }

  /** Any acceptable conversation in which the peer advertises, unchokes and answers, with keep-alives and
      unsupported frames anywhere between its messages and anything at all after them, gets a fresh session the
      peer's data; what comes after is left unread. */
  lemma PeerServes(
      w: World, piece: PieceSpec, data: seq<byte>, n: nat, clock: nat,
      advert: seq<Message>, ready: seq<Message>, bs: seq<seq<Message>>, input: seq<byte>, tail: seq<byte>)
    requires Fair(w) && piece.index < n <= MAX_PIECES && piece.length > 0
    requires Transfer(Initial(n), piece, data, advert, ready, bs)
    requires var ms := advert + (ready + Flat(bs));
      Acceptable(ms, n) && AllWellFormed(ms, n) && Same(input, EncodeMessages(ms) + tail, n)
    ensures var out := FetchPiece(w, Run(Initial(n), input, clock, []), piece);
      && out.error.None? && Content(out.run.trace) == data
      && Same(out.run.rest, tail, n)
      && (input == EncodeMessages(advert + (ready + Flat(bs))) + tail ==> out.run.rest == tail)
  {
    var ms := advert + (ready + Flat(bs));
    InitialIsCoherent(n);
    AcceptedIffAcceptable(n, ms);
    EncodedReads(Initial(n), ms, tail);
    var plain := Run(Initial(n), EncodeMessages(ms) + tail, clock, []);
    hide Transfer, Reads, FetchPiece, Acceptable, AllWellFormed, EncodeMessages, Same, AllAccepted;
    TransferHeard(w, plain, piece, data, advert, ready, bs, tail);
    FetchPieceSame(w, Run(Initial(n), input, clock, []), plain, piece);
  }

  // --- The plain conversation -------------------------------------------------------------------------

  const UNCHOKE_MESSAGE := Wire.Message(UNCHOKE, [])

  /** The peer's answer to a request. */
  function Answer(q: Request, data: seq<byte>): Message
    requires |data| == q.length <= MAX_BLOCK
  {
    NewPiece(Block(q.index, q.begin, data)).value
  }

  /** An answer for each block, and nothing in between. */
  function PlainAnswers(piece: PieceSpec, offset: uint32, data: seq<byte>): seq<seq<Message>>
    requires offset <= piece.length && |data| == piece.length - offset
    decreases piece.length - offset
  {
    if offset == piece.length then []
    else
      var length := BlockLength(piece.length, offset);
      [[Answer(BlockAt(piece, offset), data[..length])]] + PlainAnswers(piece, offset + length, data[length..])
  }

  lemma AnswerAnswers(q: Request, data: seq<byte>, n: nat)
    requires |data| == q.length <= MAX_BLOCK
    ensures Answers([Answer(q, data)], q, data) && WellFormed(Answer(q, data), n) && Answer(q, data).id == PIECE
  {
    PieceRoundTrip(Answer(q, data), Block(q.index, q.begin, data));
    var ms := [Answer(q, data)];
    assert ms[..|ms| - 1] == [];
  }

  lemma {:induction false} PlainAnswersServe(piece: PieceSpec, offset: uint32, data: seq<byte>)
    requires offset <= piece.length && |data| == piece.length - offset
    ensures Serves(PlainAnswers(piece, offset, data), piece, offset, data)
    decreases piece.length - offset
  {
    hide Answers, Answer, Flat;
    if offset < piece.length {
      var length := BlockLength(piece.length, offset);
      var q := BlockAt(piece, offset);
      AnswerAnswers(q, data[..length], 0);
      PlainAnswersServe(piece, offset + length, data[length..]);
      var bs := PlainAnswers(piece, offset + length, data[length..]);
      ServesCons([Answer(q, data[..length])], bs, piece, offset, data[..length], data[length..]);
      assert data[..length] + data[length..] == data;
    }
  }

  ghost predicate OnlyBlocks(ms: seq<Message>, n: nat) {
    forall k :: 0 <= k < |ms| ==> ms[k].id == PIECE && WellFormed(ms[k], n)
  }

  lemma {:induction false} PlainAnswersAreBlocks(piece: PieceSpec, offset: uint32, data: seq<byte>, n: nat)
    requires offset <= piece.length && |data| == piece.length - offset
    ensures OnlyBlocks(Flat(PlainAnswers(piece, offset, data)), n)
    decreases piece.length - offset
  {
    hide Answer, Answers, WellFormed;
    if offset < piece.length {
      var length := BlockLength(piece.length, offset);
      var m := Answer(BlockAt(piece, offset), data[..length]);
      AnswerAnswers(BlockAt(piece, offset), data[..length], n);
      PlainAnswersAreBlocks(piece, offset + length, data[length..], n);
      var bs := PlainAnswers(piece, offset + length, data[length..]);
      assert Flat([[m]] + bs) == [m] + Flat(bs) by {
        assert ([[m]] + bs)[1..] == bs;
      }
    }
  }

  /** A peer that has the piece: its Bitfield, Unchoke, and the blocks. */
  function Transmission(piece: PieceSpec, data: seq<byte>, bits: seq<byte>): seq<Message>
    requires |data| == piece.length
  {
    [Wire.Message(BITFIELD, bits)] + ([UNCHOKE_MESSAGE] + Flat(PlainAnswers(piece, 0, data)))
  }

  lemma TransmissionTransfers(piece: PieceSpec, data: seq<byte>, bits: seq<byte>, n: nat)
    requires n <= MAX_PIECES && |data| == piece.length && ValidBits(bits, n) && piece.index in Pieces(bits, n)
    ensures Transfer(Initial(n), piece, data, [Wire.Message(BITFIELD, bits)], [UNCHOKE_MESSAGE],
                     PlainAnswers(piece, 0, data))
  {
    var st := Initial(n);
    var m := Wire.Message(BITFIELD, bits);
    InitialIsCoherent(n);
    ParseAcceptsValidBits(bits, n);
    var st1 := Accept(st, m).state;
    var st2 := Accept(st1, UNCHOKE_MESSAGE).state;
    var none: seq<Message> := [];
    assert [m] + none == [m] && [UNCHOKE_MESSAGE] + none == [UNCHOKE_MESSAGE];
    AfterCons(st, m, none);
    FirstTimeNow(st1, HasIt(piece.index));
    AdvertisesCons(st, m, none, piece.index);
    FirstTimeNow(st2, Unchokes());
    ReadiesCons(st1, UNCHOKE_MESSAGE, none);
    PlainAnswersServe(piece, 0, data);
  }

  lemma TransmissionIsAcceptable(piece: PieceSpec, data: seq<byte>, bits: seq<byte>, n: nat)
    requires |data| == piece.length && ValidBits(bits, n) && |bits| < MAX_MESSAGE
    ensures var ms := Transmission(piece, data, bits);
      AllWellFormed(ms, n) && Acceptable(ms, n)
  {
    PlainAnswersAreBlocks(piece, 0, data, n);
    var bs := PlainAnswers(piece, 0, data);
    var ms := Transmission(piece, data, bits);
    assert ms[0] == Wire.Message(BITFIELD, bits) && ms[1] == UNCHOKE_MESSAGE;
    forall k | 2 <= k < |ms| ensures ms[k].id == PIECE && WellFormed(ms[k], n) {
      assert ms[k] == Flat(bs)[k - 2];
    }
  }

  /** The bytes of the plain conversation. */
  ghost function TransmissionBytes(piece: PieceSpec, data: seq<byte>, bits: seq<byte>, n: nat): seq<byte>
    requires |data| == piece.length && ValidBits(bits, n) && |bits| < MAX_MESSAGE
  {
    TransmissionIsAcceptable(piece, data, bits, n);
    EncodeMessages(Transmission(piece, data, bits))
  }

  /** Such a peer serves any piece it has, whatever skippable frames it adds and whatever it sends afterwards,
      which is left unread. */
  lemma HonestPeerServes(
      w: World, piece: PieceSpec, data: seq<byte>, bits: seq<byte>, n: nat, clock: nat, input: seq<byte>,
      tail: seq<byte>)
    requires Fair(w) && n <= MAX_PIECES && |data| == piece.length > 0
    requires ValidBits(bits, n) && |bits| < MAX_MESSAGE && piece.index in Pieces(bits, n)
    requires Same(input, TransmissionBytes(piece, data, bits, n) + tail, n)
    ensures var out := FetchPiece(w, Run(Initial(n), input, clock, []), piece);
      && out.error.None? && Content(out.run.trace) == data
      && Same(out.run.rest, tail, n)
      && (input == TransmissionBytes(piece, data, bits, n) + tail ==> out.run.rest == tail)
  {
    TransmissionTransfers(piece, data, bits, n);
    TransmissionIsAcceptable(piece, data, bits, n);
    PeerServes(w, piece, data, n, clock,
               [Wire.Message(BITFIELD, bits)], [UNCHOKE_MESSAGE], PlainAnswers(piece, 0, data), input, tail);
  }
}
