/** What a legal trace means for the peer and for the piece. */
module FetchTheorems {
  import opened Bytes
  import opened Wire
  import opened Payloads
  import opened Tiling
  import opened SessionModel
  import opened SessionTrace

  // --- Requests -----------------------------------------------------------------------------------

  ghost predicate IsRequest(e: Event, q: Request) {
    e.Sent? && ParseRequest(e.message) == Ok(q)
  }

  ghost predicate IsInterested(e: Event) {
    e == Sent(INTERESTED_MESSAGE)
  }

  /** Legality is about every event of the trace. */
  lemma {:induction false} LegalAt(st: SessState, piece: PieceSpec, t: seq<Event>, k: nat)
    requires |st.bits| == BitfieldBytes(st.pieceCount) && Legal(st, piece, t) && k <= |t|
    ensures Legal(st, piece, t[..k])
    ensures k < |t| ==> Permits(Observed(st, t[..k]), piece, t[k])
  {
    if k < |t| {
      var init := t[..|t| - 1];
      LegalAt(st, piece, init, k);
      assert init[..k] == t[..k];
    } else {
      assert t[..k] == t;
    }
  }

  /** The observer has seen Interested exactly if it was sent. */
  lemma {:induction false} InterestedSeen(st: SessState, piece: PieceSpec, t: seq<Event>)
    requires |st.bits| == BitfieldBytes(st.pieceCount) && Legal(st, piece, t)
    ensures Observed(st, t).interested <==> exists j :: 0 <= j < |t| && IsInterested(t[j])
  {
    if t != [] {
      InterestedSeen(st, piece, t[..|t| - 1]);
      var e := t[|t| - 1];
      assert IsInterested(e) ==> ParseRequest(e.message).Err?;
      if j :| 0 <= j < |t| - 1 && IsInterested(t[j]) {
        assert t[..|t| - 1][j] == t[j];
      }
    }
  }

  lemma PendingBefore(st: SessState, piece: PieceSpec, t: seq<Event>)
    requires |st.bits| == BitfieldBytes(st.pieceCount) && Legal(st, piece, t)
    requires Observed(st, t).pending.Some?
    ensures t != [] && Legal(st, piece, t[..|t| - 1])
    ensures var e := t[|t| - 1];
      if e.Sent? && ParseRequest(e.message).Ok? then IsRequest(e, Observed(st, t).pending.value)
      else Observed(st, t[..|t| - 1]).pending == Observed(st, t).pending && !e.Delivered?
  {
    hide ParseRequest, Permits, Accept;
  }

  /** The unanswered request is the latest one, and nothing was delivered since. */
  lemma {:induction false} PendingSeen(st: SessState, piece: PieceSpec, t: seq<Event>) returns (j: nat)
    requires |st.bits| == BitfieldBytes(st.pieceCount) && Legal(st, piece, t)
    requires Observed(st, t).pending.Some?
    ensures j < |t| && IsRequest(t[j], Observed(st, t).pending.value)
    ensures forall i :: j < i < |t| ==> !t[i].Delivered? && !(t[i].Sent? && ParseRequest(t[i].message).Ok?)
  {
    hide *;
    PendingBefore(st, piece, t);
    var init, e := t[..|t| - 1], t[|t| - 1];
    if e.Sent? && ParseRequest(e.message).Ok? {
      j := |t| - 1;
    } else {
      j := PendingSeen(st, piece, init);
      assert t[j] == init[j];
      forall i | j < i < |t| ensures !t[i].Delivered? && !(t[i].Sent? && ParseRequest(t[i].message).Ok?) {
        assert i < |init| ==> t[i] == init[i];
      }
    }
  }

  /** As long as nothing is delivered a request stays unanswered. */
  lemma {:induction false} StillPending(st: SessState, piece: PieceSpec, t: seq<Event>, j: nat)
    requires |st.bits| == BitfieldBytes(st.pieceCount) && Legal(st, piece, t)
    requires j < |t| && t[j].Sent? && ParseRequest(t[j].message).Ok?
    requires forall i :: j < i < |t| ==> !t[i].Delivered?
    ensures Observed(st, t).pending.Some?
  {
    if j < |t| - 1 {
      StillPending(st, piece, t[..|t| - 1], j);
    }
  }

  /** Interested is sent at most once: never before an event that sends it. */
  lemma InterestedOnce(st: SessState, piece: PieceSpec, t: seq<Event>, j: nat)
    requires |st.bits| == BitfieldBytes(st.pieceCount) && Legal(st, piece, t)
    requires j < |t| && IsInterested(t[j])
    ensures forall i :: 0 <= i < j ==> !IsInterested(t[i])
  {
    LegalAt(st, piece, t, j);
    InterestedSeen(st, piece, t[..j]);
    forall i | 0 <= i < j ensures !IsInterested(t[i]) {
      assert t[..j][i] == t[i];
    }
  }

  /** Each request follows Interested, finds the piece advertised and the session unchoked, asks for a block
      inside the piece of a length the wire allows, and follows the answer to the request before it. */
  lemma RequestsAreInOrder(st: SessState, piece: PieceSpec, t: seq<Event>, k: nat, q: Request)
    requires |st.bits| == BitfieldBytes(st.pieceCount) && Legal(st, piece, t)
    requires k < |t| && IsRequest(t[k], q)
    ensures exists j :: 0 <= j < k && IsInterested(t[j])
    ensures Observed(st, t[..k]).state.Has(piece.index) && !Observed(st, t[..k]).state.choked
    ensures q.index == piece.index && 1 <= q.length <= MAX_BLOCK && q.begin + q.length <= piece.length
    ensures q.length == BlockLength(piece.length, q.begin)
    ensures forall j :: 0 <= j < k && t[j].Sent? && ParseRequest(t[j].message).Ok? ==>
              exists d :: j < d < k && t[d].Delivered?
  {
    LegalAt(st, piece, t, k);
    InterestedSeen(st, piece, t[..k]);
    assert t[k].message != INTERESTED_MESSAGE;
    var i :| 0 <= i < k && IsInterested(t[..k][i]);
    assert IsInterested(t[i]);
    forall j | 0 <= j < k && t[j].Sent? && ParseRequest(t[j].message).Ok?
      ensures exists d :: j < d < k && t[d].Delivered?
    {
      if forall d :: j < d < k ==> !t[d].Delivered? {
        StillPending(st, piece, t[..k], j);
      }
    }
  }

  lemma LastSeen(st: SessState, t: seq<Event>)
    requires |st.bits| == BitfieldBytes(st.pieceCount)
    ensures Observed(st, t).last.Some? ==> t != [] && t[|t| - 1] == Got(Observed(st, t).last.value)
  {
  }

  /** Each delivered block is the peer's latest message, and answers the latest request exactly. */
  lemma DeliveriesAnswerRequests(st: SessState, piece: PieceSpec, t: seq<Event>, k: nat)
      returns (j: nat, m: Message)
    requires |st.bits| == BitfieldBytes(st.pieceCount) && Legal(st, piece, t)
    requires k < |t| && t[k].Delivered?
    ensures 0 < k && t[k - 1] == Got(m) && ParsePiece(m) == Ok(Block(piece.index, t[k].offset, t[k].data))
    ensures j < k && |t[k].data| < TWO_TO_THE_32 && IsRequest(t[j], Request(piece.index, t[k].offset, |t[k].data|))
    ensures forall i :: j < i < k ==> !(t[i].Sent? && ParseRequest(t[i].message).Ok?)
  {
    hide Legal, Observed, ParsePiece, ParseRequest;
    LegalAt(st, piece, t, k);
    LastSeen(st, t[..k]);
    m := Observed(st, t[..k]).last.value;
    j := PendingSeen(st, piece, t[..k]);
  }

  // --- Blocks -------------------------------------------------------------------------------------

  /** The spans of the delivered blocks, in order. */
  ghost function Delivered(t: seq<Event>): seq<Span> {
    if t == [] then [] else
      var init, e := t[..|t| - 1], t[|t| - 1];
      if e.Delivered? then Delivered(init) + [Span(e.offset, |e.data|)] else Delivered(init)
  }

  /** The bytes of the delivered blocks, in order. */
  ghost function Content(t: seq<Event>): seq<byte> {
    if t == [] then [] else
      var init, e := t[..|t| - 1], t[|t| - 1];
      if e.Delivered? then Content(init) + e.data else Content(init)
  }

  /** A delivered block starts where the one before it ended and is neither empty nor too long. */
  lemma DeliveredFits(st: SessState, piece: PieceSpec, t: seq<Event>, e: Event)
    requires |st.bits| == BitfieldBytes(st.pieceCount) && Legal(st, piece, t)
    requires e.Delivered? && Permits(Observed(st, t), piece, e)
    ensures e.offset == Observed(st, t).fetched < piece.length && 0 < |e.data| <= MAX_BLOCK
    ensures |e.data| == BlockLength(piece.length, e.offset)
  {
    var j := PendingSeen(st, piece, t);
    RequestsAreInOrder(st, piece, t, j, Observed(st, t).pending.value);
  }

  lemma {:induction false} DeliveriesTile(st: SessState, piece: PieceSpec, t: seq<Event>)
    requires |st.bits| == BitfieldBytes(st.pieceCount) && Legal(st, piece, t)
    ensures Tiles(Delivered(t), 0, Observed(st, t).fetched)
    ensures forall i :: 0 <= i < |Delivered(t)| ==> Delivered(t)[i].length <= MAX_BLOCK
    ensures |Content(t)| == Observed(st, t).fetched
  {
    if t != [] {
      var init, e := t[..|t| - 1], t[|t| - 1];
      DeliveriesTile(st, piece, init);
      if e.Delivered? {
        DeliveredFits(st, piece, init, e);
        TilesSnoc(Delivered(init), Span(e.offset, |e.data|), 0);
      }
    }
  }

  /** FetchPiece hands the callback an exact tiling of the piece on success, and of a part of it from its
      start on failure, in blocks of at most 16 KiB, whatever the peer and the world do. */
  lemma FetchPieceTiles(w: World, r: Run, piece: PieceSpec)
    requires Coherent(r.state) && r.trace == []
    ensures var out := FetchPiece(w, r, piece);
      && (out.error.None? ==> piece.length > 0 && Tiles(Delivered(out.run.trace), 0, piece.length))
      && (exists n :: n <= piece.length && |Content(out.run.trace)| == n && Tiles(Delivered(out.run.trace), 0, n))
      && (forall i :: 0 <= i < |Delivered(out.run.trace)| ==> 0 < Delivered(out.run.trace)[i].length <= MAX_BLOCK)
  {
    FetchPieceIsLegal(w, r, piece);
    var t := FetchPiece(w, r, piece).run.trace;
    DeliveriesTile(r.state, piece, t);
    var n := Observed(r.state, t).fetched;
    assert n <= piece.length && |Content(t)| == n && Tiles(Delivered(t), 0, n);
    TilesPositive(Delivered(t), 0, n);
  }

  lemma {:induction false} TilesPositive(spans: seq<Span>, lo: nat, hi: nat)
    requires Tiles(spans, lo, hi)
    ensures forall i :: 0 <= i < |spans| ==> spans[i].length > 0
  {
    if spans != [] {
      TilesPositive(spans[1..], lo + spans[0].length, hi);
    }
  }

  /** The blocks FetchPiece asks for, from `offset` on. */
  function BlocksFrom(length: uint32, offset: uint32): seq<Span>
    requires offset <= length
    decreases length - offset
  {
    if offset == length then [] else
      var n := BlockLength(length, offset);
      [Span(offset, n)] + BlocksFrom(length, offset + n)
  }

  lemma {:induction false} BlocksTile(length: uint32, offset: uint32)
    requires offset <= length
    ensures Tiles(BlocksFrom(length, offset), offset, length)
    ensures forall i :: 0 <= i < |BlocksFrom(length, offset)| ==> BlocksFrom(length, offset)[i].length <= MAX_BLOCK
    decreases length - offset
  {
    if offset < length {
      BlocksTile(length, offset + BlockLength(length, offset));
    }
  }

  /** Block `k` begins at 16384 * k and has 16384 bytes, the last one what is left of the piece. */
  lemma {:induction false} BlocksOf16K(length: uint32, offset: uint32, k: nat)
    requires offset <= length && k < |BlocksFrom(length, offset)|
    ensures var b := BlocksFrom(length, offset)[k];
      && b.start == offset + 16384 * k < length
      && b.length == (if length - b.start < 16384 then length - b.start else 16384)
      && (k + 1 == |BlocksFrom(length, offset)| <==> b.start + b.length == length)
    decreases length - offset
  {
    var next: uint32 := offset + BlockLength(length, offset);
    if k > 0 {
      BlocksOf16K(length, next, k - 1);
    } else if next < length {
      BlocksOf16K(length, next, 0);
    }
  }

  /** What was delivered and what is still to come make up the blocks of the piece. */
  lemma {:induction false} DeliveriesAreBlocks(st: SessState, piece: PieceSpec, t: seq<Event>)
    requires |st.bits| == BitfieldBytes(st.pieceCount) && Legal(st, piece, t)
    ensures Observed(st, t).fetched <= piece.length
    ensures Delivered(t) + BlocksFrom(piece.length, Observed(st, t).fetched) == BlocksFrom(piece.length, 0)
  {
    if t != [] {
      var init, e := t[..|t| - 1], t[|t| - 1];
      DeliveriesAreBlocks(st, piece, init);
      if e.Delivered? {
        DeliveredFits(st, piece, init, e);
        var s := Span(e.offset, |e.data|);
        var rest := BlocksFrom(piece.length, e.offset + |e.data|);
        assert Delivered(init) + ([s] + rest) == (Delivered(init) + [s]) + rest;
      }
    }
  }

  /** A successful FetchPiece delivers exactly the 16 KiB blocks of the piece, the last one shorter. */
  lemma FetchPieceDeliversBlocks(w: World, r: Run, piece: PieceSpec)
    requires Coherent(r.state) && r.trace == []
    ensures var out := FetchPiece(w, r, piece);
      out.error.None? ==> Delivered(out.run.trace) == BlocksFrom(piece.length, 0)
  {
    FetchPieceIsLegal(w, r, piece);
    var t := FetchPiece(w, r, piece).run.trace;
    DeliveriesAreBlocks(r.state, piece, t);
    assert Delivered(t) + [] == Delivered(t);
  }
}
