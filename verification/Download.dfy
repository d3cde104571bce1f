/** The core of the download-piece command: where the piece lies, what is fetched, what is published. */
module Download {
  import opened Bytes
  import opened Wire
  import opened Bitfields
  import opened Tiling
  import M = SessionModel
  import opened SessionTrace
  import opened FetchTheorems
  import opened Sessions
  import opened Layouts
  import opened FetchSuccess
  import opened HonestPeer
  import opened SessionStutter

  /** The digest function; nothing is assumed about it. */
  type Digester = seq<byte> -> seq<byte>

  datatype DownloadError =
    | NoSuchPiece
    | BadLength            // outside the wire protocol's offset range
    | SessionFailed        // NewSession rejected the piece count
    | FetchFailed(error: M.SessionError)
    | HashMismatch

  datatype Published = Published(data: seq<byte>) | NotPublished(error: DownloadError)

  // --- What the temporary file holds ----------------------------------------------------------------

  /** Writing blocks that tile a piece into an empty file leaves their concatenation. */
  lemma {:induction false} ReplayIsContent(st: M.SessState, piece: M.PieceSpec, t: seq<M.Event>)
    requires |st.bits| == BitfieldBytes(st.pieceCount) && Legal(st, piece, t)
    ensures Replay([], t) == Content(t) && |Content(t)| == Observed(st, t).fetched
  {
    if t != [] {
      var init, e := t[..|t| - 1], t[|t| - 1];
      ReplayIsContent(st, piece, init);
      if e.Delivered? {
        DeliveredFits(st, piece, init, e);
        assert Content(init)[..e.offset] == Content(init);
      }
    }
  }

  /** After a successful fetch into an empty file, the file is exactly the piece's bytes as delivered. */
  lemma FetchedFile(w: M.World, r: M.Run, piece: M.PieceSpec)
    requires M.Coherent(r.state) && r.trace == []
    ensures var out := M.FetchPiece(w, r, piece);
      out.error.None? ==>
        && Replay([], out.run.trace) == Content(out.run.trace)
        && |Content(out.run.trace)| == piece.length
        && Delivered(out.run.trace) == BlocksFrom(piece.length, 0)
  {
    FetchPieceIsLegal(w, r, piece);
    FetchPieceDeliversBlocks(w, r, piece);
    ReplayIsContent(r.state, piece, M.FetchPiece(w, r, piece).run.trace);
  }

  /** What downloadPiece must come to for a piece of wire size, given everything the peer will send. */
  ghost function Expected(t: TorrentFile, i: nat, w: M.World, input: seq<byte>, clock: nat, sha1: Digester): Published
    requires Accepted(t) && i < |t.pieceHashes| && WireSized(t, i)
  {
    AcceptedNumbers(t);
    var start := M.Run(M.Initial(|t.pieceHashes|), input, clock, []);
    var out := M.FetchPiece(w, start, M.PieceSpec(i, PieceSize(t, i)));
    var data := Content(out.run.trace);
    if out.error.Some? then NotPublished(FetchFailed(out.error.value))
    else if sha1(data) != t.pieceHashes[i] then NotPublished(HashMismatch)
    else Published(data)
  }

  /** When nothing else fails, a piece is published exactly if the peer's conversation serves data with the
      right digest, and then the data published is that data. */
  lemma PublishedExactly(
      t: TorrentFile, i: uint32, w: M.World, input: seq<byte>, clock: nat, sha1: Digester, data: seq<byte>)
    requires Accepted(t) && i < |t.pieceHashes| && WireSized(t, i) && Fair(w)
    ensures |t.pieceHashes| <= MAX_PIECES
    ensures Expected(t, i, w, input, clock, sha1) == Published(data) <==>
              && sha1(data) == t.pieceHashes[i]
              && exists rest, advert, ready, bs ::
                   && Transfer(M.Initial(|t.pieceHashes|), M.PieceSpec(i, PieceSize(t, i)), data, advert, ready, bs)
                   && Reads(M.Initial(|t.pieceHashes|), input, advert + (ready + Flat(bs)), rest)
  {
    AcceptedNumbers(t);
    var start := M.Run(M.Initial(|t.pieceHashes|), input, clock, []);
    FetchedExactly(w, start, M.PieceSpec(i, PieceSize(t, i)), data);
    hide Transfer, Reads, M.FetchPiece, M.Initial, PieceSize, Content;
  }

  lemma FetchedExactly(w: M.World, r: M.Run, piece: M.PieceSpec, data: seq<byte>)
    requires Fair(w) && r.Valid() && r.trace == [] && piece.index < r.state.pieceCount && piece.length > 0
    ensures (var out := M.FetchPiece(w, r, piece);
             out.error.None? && Content(out.run.trace) == data)
       <==> exists rest, advert, ready, bs ::
              && Transfer(r.state, piece, data, advert, ready, bs)
              && Reads(r.state, r.rest, advert + (ready + Flat(bs)), rest)
  {
    hide Transfer, Reads, M.FetchPiece;
    assert Content(r.trace) + data == data;
    FetchSucceedsExactly(w, r, piece, data, M.FetchPiece(w, r, piece).run.rest);
    forall rest, advert, ready, bs |
      Transfer(r.state, piece, data, advert, ready, bs) && Reads(r.state, r.rest, advert + (ready + Flat(bs)), rest)
      ensures var out := M.FetchPiece(w, r, piece);
        out.error.None? && Content(out.run.trace) == data
    {
      FetchSucceedsExactly(w, r, piece, data, rest);
    }
  }

  /** So a peer that plainly transmits a piece with the right digest has it published. */
  lemma HonestDownload(
      t: TorrentFile, i: uint32, w: M.World, input: seq<byte>, clock: nat, sha1: Digester, data: seq<byte>,
      bits: seq<byte>, tail: seq<byte>)
    requires Accepted(t) && i < |t.pieceHashes| && WireSized(t, i) && Fair(w)
    requires |data| == PieceSize(t, i) && sha1(data) == t.pieceHashes[i]
    requires ValidBits(bits, |t.pieceHashes|) && |bits| < MAX_MESSAGE && i in Pieces(bits, |t.pieceHashes|)
    requires var n := |t.pieceHashes|;
      Same(input, TransmissionBytes(M.PieceSpec(i, PieceSize(t, i)), data, bits, n) + tail, n)
    ensures Expected(t, i, w, input, clock, sha1) == Published(data)
  {
    AcceptedNumbers(t);
    HonestPeerServes(w, M.PieceSpec(i, PieceSize(t, i)), data, bits, |t.pieceHashes|, clock, input, tail);
  }

  // --- downloadPiece --------------------------------------------------------------------------------

  /** downloadPiece from the index checks to publication, over a connection that was already chosen. The
      output appears only if the whole piece was delivered in blocks that tile it and its digest matches;
      then the output is exactly those bytes. */
  method DownloadPiece(t: TorrentFile, piece: int, conn: Connection, temp: TempFile, sha1: Digester)
      returns (result: Published)
    requires Accepted(t) && temp.contents == []
    modifies conn, conn.reader, temp
    ensures result.Published? ==>
              && 0 <= piece < |t.pieceHashes|
              && |result.data| == PieceSize(t, piece)
              && sha1(result.data) == t.pieceHashes[piece]
              && result.data == Content(conn.trace) == temp.contents
              && Tiles(Delivered(conn.trace), 0, |result.data|)
    ensures piece < 0 || piece >= |t.pieceHashes| <==> result == NotPublished(NoSuchPiece)
    ensures result == NotPublished(BadLength) <==> 0 <= piece < |t.pieceHashes| && !WireSized(t, piece)
    ensures result != NotPublished(SessionFailed)
    ensures 0 <= piece < |t.pieceHashes| && WireSized(t, piece) ==>
              result == Expected(t, piece, conn.world, old(conn.reader.input), old(conn.clock), sha1)
  {
    if piece < 0 || piece >= |t.pieceHashes| {
      return NotPublished(NoSuchPiece);
    }
    PieceInFile(t, piece);
    AcceptedNumbers(t);
    var start := Wrap64(piece * t.pieceLength);
    var left := Wrap64(t.length - start);
    var length: int := if t.pieceLength < left then t.pieceLength else left;
    assert length == PieceSize(t, piece);
    if length <= 0 || length > TWO_TO_THE_32 - 1 {
      return NotPublished(BadLength);
    }
    var session := Session.NewSession(conn, |t.pieceHashes|);
    if session.Err? {
      return NotPublished(SessionFailed);
    }
    M.InitialIsCoherent(|t.pieceHashes|);
    var spec := M.PieceSpec(piece, length);
    ghost var r := session.value.View().(trace := []);
    FetchedFile(conn.world, r, spec);
    FetchPieceTiles(conn.world, r, spec);
    assert r == M.Run(M.Initial(|t.pieceHashes|), old(conn.reader.input), old(conn.clock), []);
    hide M.FetchPiece, M.Initial;
    var error := session.value.FetchPiece(spec, temp);
    if error.Some? {
      return NotPublished(FetchFailed(error.value));
    }
    var hashed := temp.contents[..length];
    assert hashed == temp.contents;
    if sha1(hashed) != t.pieceHashes[piece] {
      return NotPublished(HashMismatch);
    }
    result := Published(temp.contents);
  }
}
