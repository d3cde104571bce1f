/** Peer messages: framing, payloads, and the streams they are read from and written to. */
module Wire {
  import opened Wrappers
  import opened Bytes

  /** MaxBlockSize. */
  const MAX_BLOCK: nat := 16 * 1024
  /** maxMsgLen. */
  const MAX_MESSAGE: nat := 0x10_0000
  /** The largest number of pieces a four-byte index can tell apart. */
  const MAX_PIECES: nat := TWO_TO_THE_32

  const CHOKE: byte := 0
  const UNCHOKE: byte := 1
  const INTERESTED: byte := 2
  const NOT_INTERESTED: byte := 3
  const HAVE: byte := 4
  const BITFIELD: byte := 5
  const REQUEST: byte := 6
  const PIECE: byte := 7
  const CANCEL: byte := 8

  datatype Message = Message(id: byte, payload: seq<byte>)

  datatype Frame = KeepAlive | Enclosed(message: Message) | Unsupported

  datatype Error =
    | BadArgument      // the caller's own values are out of range
    | Malformed        // wraps ErrMalformedFrame
    | IOFailure        // the reader or writer failed, or the stream ended
    | NoProgress       // io.ErrNoProgress

  datatype Result<+T> = Ok(value: T) | Err(error: Error)

  /** validatePieceCount. */
  predicate ValidPieceCount(n: int) {
    0 <= n <= MAX_PIECES
  }

  /** bitfieldByteCount. */
  function BitfieldBytes(n: nat): nat {
    if n % 8 != 0 then n / 8 + 1 else n / 8
  }

  // --- Encoding -------------------------------------------------------------------------------

  /** The bytes Message.WriteTo hands to the writer. */
  function Encode(m: Message): seq<byte>
    requires |m.payload| < MAX_MESSAGE
  {
    PutUint32(1 + |m.payload|) + [m.id] + m.payload
  }

  /** The bytes WriteKeepAlive hands to the writer. */
  const KEEP_ALIVE: seq<byte> := [0, 0, 0, 0]

  // --- Decoding -------------------------------------------------------------------------------

  predicate Supported(id: byte) {
    id <= CANCEL
  }

  /** The length checks of ReadFrame, for a supported ID and a declared length (ID included). */
  predicate LengthFits(id: byte, length: nat, pieceCount: nat)
    requires Supported(id)
  {
    if id <= NOT_INTERESTED then length == 1
    else if id == HAVE then length == 5
    else if id == BITFIELD then length == BitfieldBytes(pieceCount) + 1
    else if id == PIECE then 9 <= length <= 9 + MAX_BLOCK
    else length == 13
  }

  /** What one ReadFrame call returns, and the input it leaves. */
  datatype Step = Step(result: Result<Frame>, rest: seq<byte>)

  function ReadStep(input: seq<byte>, pieceCount: int): Step {
    if !ValidPieceCount(pieceCount) then Step(Err(BadArgument), input)
    else if |input| < 4 then Step(Err(IOFailure), [])
    else
      var length := Uint32(input);
      var body := input[4..];
      if length == 0 then Step(Ok(KeepAlive), body)
      else if length > MAX_MESSAGE then Step(Err(Malformed), body)
      else if body == [] then Step(Err(IOFailure), [])
      else if Supported(body[0]) && !LengthFits(body[0], length, pieceCount) then Step(Err(Malformed), body[1..])
      else if |body| < length then Step(Err(IOFailure), [])
      else if !Supported(body[0]) then Step(Ok(Unsupported), body[length..])
      else Step(Ok(Enclosed(Message(body[0], body[1..length]))), body[length..])
  }

  /** The part of io.Reader that ReadFrame uses: a finite input, then the end of it. */
  class Reader {
    var input: seq<byte>

    constructor (bytes: seq<byte>)
      ensures input == bytes
    {
      input := bytes;
    }

    /** io.ReadFull, and io.CopyN to io.Discard: all `n` bytes, or a failure that uses up the input. */
    method ReadFull(n: nat) returns (r: Result<seq<byte>>)
      modifies this
      ensures r.Ok? <==> n <= |old(input)|
      ensures r.Ok? ==> r.value == old(input)[..n] && input == old(input)[n..]
      ensures r.Err? ==> r.error == IOFailure && input == []
    {
      if n <= |input| {
        r := Ok(input[..n]);
        input := input[n..];
      } else {
        r := Err(IOFailure);
        input := [];
      }
    }
  }

  method ReadFrame(r: Reader, pieceCount: int) returns (result: Result<Frame>)
    modifies r
    ensures Step(result, r.input) == ReadStep(old(r.input), pieceCount)
  {
    if !ValidPieceCount(pieceCount) {
      return Err(BadArgument);
    }
    var prefix := r.ReadFull(4);
    if prefix.Err? {
      return Err(prefix.error);
    }
    var length := Uint32(prefix.value);
    assert length == Uint32(old(r.input));
    if length == 0 {
      return Ok(KeepAlive);
    }
    if length > MAX_MESSAGE {
      return Err(Malformed);
    }
    var idByte := r.ReadFull(1);
    if idByte.Err? {
      return Err(idByte.error);
    }
    var id := idByte.value[0];
    ghost var body := old(r.input)[4..];
    assert r.input == body[1..] && |body| >= length ==>
        r.input[..length - 1] == body[1..length] && r.input[length - 1..] == body[length..];
    if !Supported(id) {
      var drained := r.ReadFull(length - 1);
      if drained.Err? {
        return Err(drained.error);
      }
      return Ok(Unsupported);
    }
    if !LengthFits(id, length, pieceCount) {
      return Err(Malformed);
    }
    var payload := r.ReadFull(length - 1);
    if payload.Err? {
      return Err(payload.error);
    }
    result := Ok(Enclosed(Message(id, payload.value)));
  }

  // --- Round trips ----------------------------------------------------------------------------

  /** A message ReadFrame can return for a torrent of `n` pieces. */
  predicate WellFormed(m: Message, n: nat) {
    && |m.payload| < MAX_MESSAGE
    && Supported(m.id)
    && LengthFits(m.id, 1 + |m.payload|, n)
  }

  lemma HeaderOf(m: Message, rest: seq<byte>)
    requires |m.payload| < MAX_MESSAGE
    ensures var input := Encode(m) + rest;
      && |input| >= 5
      && Uint32(input) == 1 + |m.payload|
      && input[4] == m.id
      && input[5..5 + |m.payload|] == m.payload
      && input[5 + |m.payload|..] == rest
  {
    var tail := [m.id] + m.payload + rest;
    assert Encode(m) + rest == PutUint32(1 + |m.payload|) + tail;
    PutThenGet(1 + |m.payload|, tail);
  }

  /** Reading what WriteTo wrote: a well-formed message comes back and nothing else is consumed, an
      unknown one is skipped whole, and any other is rejected. */
  lemma ReadAfterWrite(m: Message, rest: seq<byte>, n: nat)
    requires ValidPieceCount(n) && |m.payload| < MAX_MESSAGE
    ensures var step := ReadStep(Encode(m) + rest, n);
      && (WellFormed(m, n) ==> step == Step(Ok(Enclosed(m)), rest))
      && (!Supported(m.id) ==> step == Step(Ok(Unsupported), rest))
      && (Supported(m.id) && !WellFormed(m, n) ==> step.result == Err(Malformed))
  {
    HeaderOf(m, rest);
    var body := (Encode(m) + rest)[4..];
    assert body[1..1 + |m.payload|] == m.payload;
    assert body[1 + |m.payload|..] == rest;
  }

  lemma ReadKeepAlive(rest: seq<byte>, n: nat)
    requires ValidPieceCount(n)
    ensures ReadStep(KEEP_ALIVE + rest, n) == Step(Ok(KeepAlive), rest)
  {
    assert (KEEP_ALIVE + rest)[4..] == rest;
  }

  /** The bytes an accepted frame stands for. */
  ghost predicate Encodes(bytes: seq<byte>, f: Frame, n: nat) {
    match f
    case KeepAlive => bytes == KEEP_ALIVE
    case Enclosed(m) => WellFormed(m, n) && bytes == Encode(m)
    case Unsupported => exists m: Message :: !Supported(m.id) && |m.payload| < MAX_MESSAGE && bytes == Encode(m)
  }

  /** An accepted frame re-encodes to exactly the bytes that were consumed. */
  lemma WriteAfterRead(input: seq<byte>, n: nat)
    requires ReadStep(input, n).result.Ok?
    ensures var step := ReadStep(input, n);
      && |step.rest| + 4 <= |input|
      && input[|input| - |step.rest|..] == step.rest
      && Encodes(input[..|input| - |step.rest|], step.result.value, n)
  {
    var step := ReadStep(input, n);
    var used := input[..|input| - |step.rest|];
    var length := Uint32(input);
    GetThenPut(input);
    if length == 0 {
      assert used == KEEP_ALIVE;
    } else {
      var m := Message(input[4], input[5..4 + length]);
      assert input[4..][1..length] == m.payload;
      assert used == input[..4] + [m.id] + m.payload;
      assert used == Encode(m);
    }
  }

  /** Reading depends only on the frame's own bytes: whatever follows is left alone. */
  lemma ReadIsLocal(bytes: seq<byte>, rest: seq<byte>, f: Frame, n: nat)
    requires ValidPieceCount(n) && Encodes(bytes, f, n)
    ensures ReadStep(bytes + rest, n) == Step(Ok(f), rest)
  {
    match f
    case KeepAlive => ReadKeepAlive(rest, n);
    case Enclosed(m) => ReadAfterWrite(m, rest, n);
    case Unsupported =>
      var m: Message :| !Supported(m.id) && |m.payload| < MAX_MESSAGE && bytes == Encode(m);
      ReadAfterWrite(m, rest, n);
  }

  /** Something a peer may send: a well-formed message or a keep-alive. */
  predicate Sendable(f: Frame, n: nat) {
    match f
    case KeepAlive => true
    case Enclosed(m) => WellFormed(m, n)
    case Unsupported => false
  }

  function EncodeFrame(f: Frame, n: nat): seq<byte>
    requires Sendable(f, n)
  {
    if f.KeepAlive? then KEEP_ALIVE else Encode(f.message)
  }

  function EncodeAll(fs: seq<Frame>, n: nat): seq<byte>
    requires forall i :: 0 <= i < |fs| ==> Sendable(fs[i], n)
  {
    if fs == [] then [] else EncodeFrame(fs[0], n) + EncodeAll(fs[1..], n)
  }

  /** Calling ReadFrame until it fails or the input is used up. */
  datatype Transcript = Transcript(frames: seq<Frame>, error: Option<Error>, rest: seq<byte>)

  function ReadAll(input: seq<byte>, n: int): Transcript
    decreases |input|
  {
    if input == [] then Transcript([], None, [])
    else
      var step := ReadStep(input, n);
      match step.result
      case Err(e) => Transcript([], Some(e), step.rest)
      case Ok(f) =>
        var more := ReadAll(step.rest, n);
        more.(frames := [f] + more.frames)
  }

  lemma NothingToRead(n: int)
    ensures ReadAll([], n) == Transcript([], None, [])
  {
  }

  lemma FrameEncodes(f: Frame, n: nat)
    requires Sendable(f, n)
    ensures Encodes(EncodeFrame(f, n), f, n)
  {
  }

  lemma ReadAllFirst(bytes: seq<byte>, rest: seq<byte>, f: Frame, n: nat)
    requires ValidPieceCount(n) && Encodes(bytes, f, n)
    ensures ReadAll(bytes + rest, n) == ReadAll(rest, n).(frames := [f] + ReadAll(rest, n).frames)
  {
    ReadIsLocal(bytes, rest, f, n);
    assert bytes + rest != [] by {
      assert |bytes| > 0;
    }
  }

  /** A whole stream of frames is read back frame by frame, to the last byte. */
  lemma {:induction false} StreamRoundTrip(fs: seq<Frame>, n: nat)
    requires ValidPieceCount(n) && forall i :: 0 <= i < |fs| ==> Sendable(fs[i], n)
    ensures ReadAll(EncodeAll(fs, n), n) == Transcript(fs, None, [])
  {
    if fs == [] {
      NothingToRead(n);
    } else {
      hide EncodeFrame, Encodes, Sendable, ReadAll;
      StreamRoundTrip(fs[1..], n);
      FrameEncodes(fs[0], n);
      ReadAllFirst(EncodeFrame(fs[0], n), EncodeAll(fs[1..], n), fs[0], n);
      assert [fs[0]] + fs[1..] == fs;
    }
  }

  /** Conversely, a stream read to its end without unsupported frames is the encoding of what was read. */
  lemma {:induction false} StreamReencodes(input: seq<byte>, n: nat)
    requires ReadAll(input, n).error == None && Unsupported !in ReadAll(input, n).frames
    ensures var fs := ReadAll(input, n).frames;
      (forall i :: 0 <= i < |fs| ==> Sendable(fs[i], n)) && EncodeAll(fs, n) == input
    decreases |input|
  {
    if input != [] {
      var step := ReadStep(input, n);
      var fs := ReadAll(input, n).frames;
      assert fs[0] == step.result.value && fs[1..] == ReadAll(step.rest, n).frames;
      WriteAfterRead(input, n);
      StreamReencodes(step.rest, n);
      assert input == input[..|input| - |step.rest|] + step.rest;
    }
  }
}
