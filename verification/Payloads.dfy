/** The payloads of Have, Request and Piece messages. */
module Payloads {
  import opened Bytes
  import opened Wire

  datatype Request = Request(index: uint32, begin: uint32, length: uint32)

  datatype Block = Block(index: uint32, begin: uint32, data: seq<byte>)

  function NewHave(index: uint32): Message {
    Message(HAVE, PutUint32(index))
  }

  function ParseHave(m: Message): Result<uint32> {
    if m.id != HAVE then Err(BadArgument)
    else if |m.payload| != 4 then Err(Malformed)
    else Ok(Uint32(m.payload))
  }

  function NewRequest(r: Request): Result<Message> {
    if r.length == 0 || r.length > MAX_BLOCK then Err(BadArgument)
    else Ok(Message(REQUEST, PutUint32(r.index) + PutUint32(r.begin) + PutUint32(r.length)))
  }

  function ParseRequest(m: Message): Result<Request> {
    if m.id != REQUEST then Err(BadArgument)
    else if |m.payload| != 12 then Err(Malformed)
    else
      var r := Request(Uint32(m.payload), Uint32(m.payload[4..]), Uint32(m.payload[8..]));
      if r.length == 0 || r.length > MAX_BLOCK then Err(BadArgument) else Ok(r)
  }

  function NewPiece(b: Block): Result<Message> {
    if |b.data| > MAX_BLOCK then Err(BadArgument)
    else Ok(Message(PIECE, PutUint32(b.index) + PutUint32(b.begin) + b.data))
  }

  function ParsePiece(m: Message): Result<Block> {
    if m.id != PIECE then Err(BadArgument)
    else if |m.payload| < 8 then Err(Malformed)
    else if |m.payload[8..]| > MAX_BLOCK then Err(Malformed)
    else Ok(Block(Uint32(m.payload), Uint32(m.payload[4..]), m.payload[8..]))
  }

  /** A Have is understood exactly when it was built from that index. */
  lemma HaveRoundTrip(m: Message, index: uint32)
    ensures ParseHave(m) == Ok(index) <==> m == NewHave(index)
  {
    PutThenGet(index, []);
    assert PutUint32(index) + [] == PutUint32(index);
    if ParseHave(m) == Ok(index) {
      GetThenPut(m.payload);
      assert m.payload[..4] == m.payload;
    }
  }

  /** A Request is understood exactly when it was built from those fields, within the block limit. */
  lemma RequestRoundTrip(m: Message, r: Request)
    ensures ParseRequest(m) == Ok(r) <==> NewRequest(r) == Ok(m)
  {
    if NewRequest(r) == Ok(m) {
      PutThenGet(r.index, PutUint32(r.begin) + PutUint32(r.length));
      PutThenGet(r.begin, PutUint32(r.length));
      PutThenGet(r.length, []);
      assert m.payload == PutUint32(r.index) + (PutUint32(r.begin) + PutUint32(r.length));
      assert m.payload[4..] == PutUint32(r.begin) + PutUint32(r.length);
      assert m.payload[8..] == PutUint32(r.length) + [];
    }
    if ParseRequest(m) == Ok(r) {
      GetThenPut(m.payload);
      GetThenPut(m.payload[4..]);
      GetThenPut(m.payload[8..]);
      assert m.payload == m.payload[..4] + m.payload[4..][..4] + m.payload[8..][..4];
    }
  }

  /** A Piece is understood exactly when it was built from that block. */
  lemma PieceRoundTrip(m: Message, b: Block)
    ensures ParsePiece(m) == Ok(b) <==> NewPiece(b) == Ok(m)
  {
    if NewPiece(b) == Ok(m) {
      PutThenGet(b.index, PutUint32(b.begin) + b.data);
      PutThenGet(b.begin, b.data);
      assert m.payload == PutUint32(b.index) + (PutUint32(b.begin) + b.data);
      assert m.payload[4..] == PutUint32(b.begin) + b.data;
    }
    if ParsePiece(m) == Ok(b) {
      GetThenPut(m.payload);
      GetThenPut(m.payload[4..]);
      assert m.payload == m.payload[..4] + m.payload[4..][..4] + m.payload[8..];
    }
  }

  /** What these constructors build, ReadFrame accepts for any torrent. */
  lemma BuiltMessagesAreWellFormed(index: uint32, r: Request, b: Block, n: nat)
    ensures WellFormed(NewHave(index), n)
    ensures NewRequest(r).Ok? ==> WellFormed(NewRequest(r).value, n)
    ensures NewPiece(b).Ok? ==> WellFormed(NewPiece(b).value, n)
  {
  }
}
