/** The bytes on the wire, independently of how this model writes and reads them. */
module WireFormat {
  import opened Bytes
  import opened Wire
  import opened Payloads

  // --- Byte order -----------------------------------------------------------------------------------------

  /** The first byte in which the two strings differ is smaller in `a`. */
  ghost predicate ComesBefore(a: seq<byte>, b: seq<byte>)
    requires |a| == |b|
  {
    exists k :: 0 <= k < |a| && a[..k] == b[..k] && a[k] < b[k]
  }

  lemma DifferAt(a: seq<byte>, b: seq<byte>, k: nat)
    requires |a| == |b| == 4 && k < 4 && a[..k] == b[..k] && a[k] < b[k]
    ensures Uint32(a) < Uint32(b)
  {
    assert k > 0 ==> a[0] == a[..k][0] == b[..k][0] == b[0];
    assert k > 1 ==> a[1] == a[..k][1] == b[..k][1] == b[1];
    assert k > 2 ==> a[2] == a[..k][2] == b[..k][2] == b[2];
  }

  /** Most significant byte first: values compare as their bytes do, from the first byte on. */
  lemma BigEndian(a: seq<byte>, b: seq<byte>)
    requires |a| == |b| == 4
    ensures Uint32(a) < Uint32(b) <==> ComesBefore(a, b)
  {
    if k :| 0 <= k < 4 && a[..k] == b[..k] && a[k] < b[k] {
      DifferAt(a, b, k);
    } else if k :| 0 <= k < 4 && b[..k] == a[..k] && b[k] < a[k] {
      DifferAt(b, a, k);
    } else {
      assert a[..0] == b[..0] && a[0] == b[0];
      assert a[..1] == b[..1] && a[1] == b[1];
      assert a[..2] == b[..2] && a[2] == b[2];
      assert a[..3] == b[..3] && a[3] == b[3];
      assert a == b;
    }
  }

  /** Writing puts the most significant byte first, too. */
  lemma WrittenBigEndian(x: uint32, y: uint32)
    ensures x < y <==> ComesBefore(PutUint32(x), PutUint32(y))
  {
    PutThenGet(x, []);
    PutThenGet(y, []);
    assert PutUint32(x) + [] == PutUint32(x) && PutUint32(y) + [] == PutUint32(y);
    BigEndian(PutUint32(x), PutUint32(y));
  }

  // --- Frames ---------------------------------------------------------------------------------------------

  /** Four bytes of length, most significant first, the ID, the payload. */
  lemma FrameLayout(m: Message)
    requires |m.payload| < MAX_MESSAGE
    ensures var bytes := Encode(m);
      && |bytes| == 5 + |m.payload|
      && bytes[0] == 0
      && (bytes[1] as nat * 0x100 + bytes[2]) * 0x100 + bytes[3] == 1 + |m.payload|
      && bytes[3] == (1 + |m.payload|) % 0x100
      && bytes[4] == m.id
      && bytes[5..] == m.payload
    ensures KEEP_ALIVE == [0, 0, 0, 0]
  {
    var length := 1 + |m.payload|;
    PutThenGet(length, []);
    assert PutUint32(length) + [] == PutUint32(length);
    assert Encode(m)[..4] == PutUint32(length);
    assert Uint32(PutUint32(length)) >= PutUint32(length)[0] as nat * 0x100_0000;
  }

  /** The payload lengths BEP 3 gives the core messages, by message number. */
  ghost predicate StandardPayload(id: byte, size: nat, n: nat) {
    if id <= 3 then size == 0
    else if id == 4 then size == 4
    else if id == 5 then n <= 8 * size < n + 8
    else if id == 6 || id == 8 then size == 12
    else id == 7 && 8 <= size <= 8 + 16384
  }

  lemma StandardLengths(m: Message, n: nat)
    ensures WellFormed(m, n) <==> |m.payload| < 1048576 && m.id <= 8 && StandardPayload(m.id, |m.payload|, n)
  {
  }

  /** What ReadFrame makes of any input that holds a whole frame. */
  lemma WholeFrame(input: seq<byte>, n: nat)
    requires ValidPieceCount(n) && |input| >= 4
    requires Uint32(input) <= 1048576 ==> |input| >= 4 + Uint32(input)
    ensures var length := Uint32(input);
      var step := ReadStep(input, n);
      if length == 0 then step == Step(Ok(KeepAlive), input[4..])
      else if length > 1048576 then step == Step(Err(Malformed), input[4..])
      else
        var m := Message(input[4], input[5..4 + length]);
        if m.id > 8 then step == Step(Ok(Unsupported), input[4 + length..])
        else if StandardPayload(m.id, length - 1, n) then step == Step(Ok(Enclosed(m)), input[4 + length..])
        else step == Step(Err(Malformed), input[5..])
  {
    var length := Uint32(input);
    if 0 < length <= 1048576 {
      var body := input[4..];
      assert body[1..length] == input[5..4 + length] && body[length..] == input[4 + length..];
      assert body[1..] == input[5..];
      StandardLengths(Message(input[4], input[5..4 + length]), n);
    }
  }

  /** A frame is judged by its own bytes: what ReadFrame decides, no further bytes change. */
  lemma DecidedForGood(input: seq<byte>, more: seq<byte>, n: nat)
    requires ValidPieceCount(n) && ReadStep(input, n).result != Err(IOFailure)
    ensures ReadStep(input + more, n) == Step(ReadStep(input, n).result, ReadStep(input, n).rest + more)
  {
    var all := input + more;
    var length := Uint32(input);
    assert Uint32(all) == length;
    assert all[4..] == input[4..] + more;
    if 0 < length <= MAX_MESSAGE {
      assert all[4..][1..] == input[4..][1..] + more;
      if |input[4..]| >= length {
        assert all[4..][1..length] == input[4..][1..length];
        assert all[4..][length..] == input[4..][length..] + more;
      }
    }
  }

  /** Bytes that complete whatever the input has begun. */
  function Completion(input: seq<byte>): (more: seq<byte>)
    ensures |input| + |more| >= 4 + MAX_MESSAGE
  {
    seq(4 + MAX_MESSAGE, _ => 0)
  }

  /** ReadFrame reports a broken stream exactly if further bytes would have made a difference, and then it has
      used up the input. */
  lemma BrokenMeansUndecided(input: seq<byte>, n: nat)
    requires ValidPieceCount(n)
    ensures ReadStep(input, n).result == Err(IOFailure) <==>
              exists more :: ReadStep(input + more, n).result != ReadStep(input, n).result
    ensures ReadStep(input, n).result == Err(IOFailure) ==> ReadStep(input, n).rest == []
  {
    if ReadStep(input, n).result == Err(IOFailure) {
      var all := input + Completion(input);
      WholeFrame(all, n);
      assert ReadStep(all, n).result != Err(IOFailure);
    } else {
      forall more ensures ReadStep(input + more, n).result == ReadStep(input, n).result {
        DecidedForGood(input, more, n);
      }
    }
  }

  /** A declared length that does not fit is rejected before any of the payload has arrived. */
  lemma RejectedEarly(input: seq<byte>, more: seq<byte>, n: nat)
    requires ValidPieceCount(n) && ReadStep(input + more, n).result == Err(Malformed)
    requires |input| >= 4 && (Uint32(input) <= 1048576 ==> |input| >= 5)
    ensures ReadStep(input, n).result == Err(Malformed)
  {
    assert Uint32(input + more) == Uint32(input);
    assert (input + more)[4..] == input[4..] + more;
  }

  /** A piece count outside the wire's range is the caller's error, and nothing is read. */
  lemma BadCount(input: seq<byte>, n: int)
    ensures ReadStep(input, n).result == Err(BadArgument) <==> n < 0 || n > 4294967296
    ensures ReadStep(input, n).result == Err(BadArgument) ==> ReadStep(input, n).rest == input
  {
  }

  // --- Payloads -------------------------------------------------------------------------------------------

  /** Message 4: the piece index. */
  lemma HaveLayout(index: uint32)
    ensures var m := NewHave(index);
      m.id == 4 && |m.payload| == 4 && Uint32(m.payload) == index
  {
    PutThenGet(index, []);
    assert PutUint32(index) + [] == PutUint32(index);
  }

  /** Message 6: piece index, offset, length, in this order. */
  lemma RequestLayout(r: Request)
    ensures NewRequest(r).Ok? <==> 1 <= r.length <= 16384
    ensures NewRequest(r).Ok? ==>
              var m := NewRequest(r).value;
              && m.id == 6 && |m.payload| == 12
              && Uint32(m.payload[..4]) == r.index
              && Uint32(m.payload[4..8]) == r.begin
              && Uint32(m.payload[8..]) == r.length
  {
    if NewRequest(r).Ok? {
      var p := NewRequest(r).value.payload;
      assert p[..4] == PutUint32(r.index) + [];
      assert p[4..8] == PutUint32(r.begin) + [];
      assert p[8..] == PutUint32(r.length) + [];
      PutThenGet(r.index, []);
      PutThenGet(r.begin, []);
      PutThenGet(r.length, []);
    }
  }

  /** Message 7: piece index, offset, data, in this order. */
  lemma PieceLayout(b: Block)
    ensures NewPiece(b).Ok? <==> |b.data| <= 16384
    ensures NewPiece(b).Ok? ==>
              var m := NewPiece(b).value;
              && m.id == 7 && |m.payload| == 8 + |b.data|
              && Uint32(m.payload[..4]) == b.index
              && Uint32(m.payload[4..8]) == b.begin
              && m.payload[8..] == b.data
  {
    if NewPiece(b).Ok? {
      var p := NewPiece(b).value.payload;
      assert p[..4] == PutUint32(b.index) + [];
      assert p[4..8] == PutUint32(b.begin) + [];
      PutThenGet(b.index, []);
      PutThenGet(b.begin, []);
    }
  }

  /** Choke, Unchoke and Interested are the bare messages 0, 1 and 2. */
  lemma BareMessages()
    ensures Encode(Message(CHOKE, [])) == [0, 0, 0, 1, 0]
    ensures Encode(Message(UNCHOKE, [])) == [0, 0, 0, 1, 1]
    ensures Encode(Message(INTERESTED, [])) == [0, 0, 0, 1, 2]
    ensures BITFIELD == 5
  {
  }
}
