/** Piece availability as packed bits, and the finite set of pieces it stands for. */
module Bitfields {
  import opened Wrappers
  import opened Bytes
  import opened Wire
  import opened Writing

  // --- Single bits ------------------------------------------------------------------------------

  /** The mask of bit `k` in high-bit-first order. */
  function Mask(k: nat): bv8
    requires k < 8
  {
    (1 as bv8) << (7 - k)
  }

  predicate HasBit(v: bv8, k: nat)
    requires k < 8
  {
    v & Mask(k) == Mask(k)
  }

  predicate BitOf(b: byte, k: nat)
    requires k < 8
  {
    HasBit(b as bv8, k)
  }

  function WithBit(b: byte, k: nat): byte
    requires k < 8
  {
    ((b as bv8) | Mask(k)) as nat
  }

  lemma MaskValues()
    ensures Mask(0) == 0x80 && Mask(1) == 0x40 && Mask(2) == 0x20 && Mask(3) == 0x10
    ensures Mask(4) == 0x08 && Mask(5) == 0x04 && Mask(6) == 0x02 && Mask(7) == 0x01
  {
  }

  lemma MasksAreDistinct(k: nat, j: nat)
    requires k < 8 && j < 8 && k != j
    ensures Mask(k) & Mask(j) == 0
  {
  }

  lemma OrKeepsOthers(v: bv8, m: bv8, m': bv8)
    ensures (v | m) & m == m
    ensures m & m' == 0 ==> (v | m) & m' == v & m'
  {
  }

  lemma WithBitAsBits(b: byte, k: nat)
    requires k < 8
    ensures WithBit(b, k) as bv8 == (b as bv8) | Mask(k)
  {
    BitsToByteAndBack((b as bv8) | Mask(k));
  }

  lemma OneBitSet(v: bv8, w: bv8, k: nat, j: nat)
    requires k < 8 && j < 8 && w == v | Mask(k)
    ensures HasBit(w, j) <==> j == k || HasBit(v, j)
  {
    OrKeepsOthers(v, Mask(k), Mask(j));
    if j != k {
      MasksAreDistinct(k, j);
    }
  }

  /** Setting a bit sets that bit and no other. */
  lemma WithBitSets(b: byte, k: nat, j: nat)
    requires k < 8 && j < 8
    ensures BitOf(WithBit(b, k), j) <==> j == k || BitOf(b, j)
  {
    WithBitAsBits(b, k);
    OneBitSet(b as bv8, WithBit(b, k) as bv8, k, j);
  }

  lemma ZeroHasNoBits(k: nat)
    requires k < 8
    ensures !BitOf(0, k)
  {
  }

  lemma EightMasksDecide(x: bv8, y: bv8)
    requires x & 0x80 == 0x80 <==> y & 0x80 == 0x80
    requires x & 0x40 == 0x40 <==> y & 0x40 == 0x40
    requires x & 0x20 == 0x20 <==> y & 0x20 == 0x20
    requires x & 0x10 == 0x10 <==> y & 0x10 == 0x10
    requires x & 0x08 == 0x08 <==> y & 0x08 == 0x08
    requires x & 0x04 == 0x04 <==> y & 0x04 == 0x04
    requires x & 0x02 == 0x02 <==> y & 0x02 == 0x02
    requires x & 0x01 == 0x01 <==> y & 0x01 == 0x01
    ensures x == y
  {
  }

  lemma BitsDetermineByte(a: byte, b: byte)
    requires forall k :: 0 <= k < 8 ==> (BitOf(a, k) <==> BitOf(b, k))
    ensures a == b
  {
    MaskValues();
    assert BitOf(a, 0) <==> BitOf(b, 0);
    assert BitOf(a, 1) <==> BitOf(b, 1);
    assert BitOf(a, 2) <==> BitOf(b, 2);
    assert BitOf(a, 3) <==> BitOf(b, 3);
    assert BitOf(a, 4) <==> BitOf(b, 4);
    assert BitOf(a, 5) <==> BitOf(b, 5);
    assert BitOf(a, 6) <==> BitOf(b, 6);
    assert BitOf(a, 7) <==> BitOf(b, 7);
    EightMasksDecide(a as bv8, b as bv8);
    ByteToBitsAndBack(a);
    ByteToBitsAndBack(b);
  }

  /** byte((1 << spareBits) - 1). */
  function SpareMask(used: nat): bv8
    requires 0 < used < 8
  {
    ((1 as bv8) << (8 - used)) - 1
  }

  lemma SpareMaskSplits(v: bv8, used: nat)
    requires 0 < used < 8
    ensures v & SpareMask(used) == 0 <==>
              v & Mask(used) != Mask(used) && (used < 7 ==> v & SpareMask(used + 1) == 0)
  {
  }

  /** The mask of ParseBitfield catches exactly the bits from `used` on. */
  lemma {:induction false} SpareMaskCovers(v: bv8, used: nat)
    requires 0 < used < 8
    ensures v & SpareMask(used) == 0 <==> forall k :: used <= k < 8 ==> !HasBit(v, k)
    decreases 8 - used
  {
    SpareMaskSplits(v, used);
    assert HasBit(v, used) <==> v & Mask(used) == Mask(used);
    if used < 7 {
      SpareMaskCovers(v, used + 1);
    }
  }

  /** A byte is the sum of its bits' weights, bit 0 weighing most. */
  lemma HighBitFirst(b: byte)
    ensures b == (if BitOf(b, 0) then 128 else 0) + (if BitOf(b, 1) then 64 else 0)
                 + (if BitOf(b, 2) then 32 else 0) + (if BitOf(b, 3) then 16 else 0)
                 + (if BitOf(b, 4) then 8 else 0) + (if BitOf(b, 5) then 4 else 0)
                 + (if BitOf(b, 6) then 2 else 0) + (if BitOf(b, 7) then 1 else 0)
  {
    MaskValues();
    ByteToBitsAndBack(b);
    Weights(b as bv8);
  }

  lemma Weights(v: bv8)
    ensures v as nat == (if v & 0x80 == 0x80 then 128 else 0) + (if v & 0x40 == 0x40 then 64 else 0)
                        + (if v & 0x20 == 0x20 then 32 else 0) + (if v & 0x10 == 0x10 then 16 else 0)
                        + (if v & 0x08 == 0x08 then 8 else 0) + (if v & 0x04 == 0x04 then 4 else 0)
                        + (if v & 0x02 == 0x02 then 2 else 0) + (if v & 0x01 == 0x01 then 1 else 0)
  {
  }

  // --- Packed bits ------------------------------------------------------------------------------

  /** Bit `i` of the packed sequence. */
  predicate Bit(bits: seq<byte>, i: nat)
    requires i < 8 * |bits|
  {
    BitOf(bits[i / 8], i % 8)
  }

  /** The right number of bytes for `n` pieces, and no bit set beyond them. */
  ghost predicate ValidBits(bits: seq<byte>, n: nat) {
    && |bits| == BitfieldBytes(n)
    && forall i :: n <= i < 8 * |bits| ==> !Bit(bits, i)
  }

  /** The pieces a packed sequence advertises. */
  ghost function Pieces(bits: seq<byte>, n: nat): set<nat>
    requires |bits| == BitfieldBytes(n)
  {
    set i | 0 <= i < n && Bit(bits, i)
  }

  /** make([]byte, bitfieldByteCount(n)). */
  function NoBits(n: nat): seq<byte> {
    seq(BitfieldBytes(n), _ => 0)
  }

  function SetBit(bits: seq<byte>, i: nat): seq<byte>
    requires i < 8 * |bits|
  {
    bits[i / 8 := WithBit(bits[i / 8], i % 8)]
  }

  lemma NoBitsIsEmpty(n: nat)
    ensures ValidBits(NoBits(n), n) && Pieces(NoBits(n), n) == {}
  {
    forall i | 0 <= i < 8 * BitfieldBytes(n) ensures !Bit(NoBits(n), i) {
      ZeroHasNoBits(i % 8);
    }
  }

  lemma SetBitSets(bits: seq<byte>, i: nat, j: nat)
    requires i < 8 * |bits| && j < 8 * |bits|
    ensures Bit(SetBit(bits, i), j) <==> j == i || Bit(bits, j)
  {
    if i / 8 == j / 8 {
      WithBitSets(bits[i / 8], i % 8, j % 8);
    }
  }

  /** SetPiece adds exactly one piece and leaves the spare bits alone. */
  lemma SetBitAddsPiece(bits: seq<byte>, n: nat, i: nat)
    requires ValidBits(bits, n) && i < n
    ensures ValidBits(SetBit(bits, i), n)
    ensures Pieces(SetBit(bits, i), n) == Pieces(bits, n) + {i}
  {
    forall j | 0 <= j < 8 * |bits| ensures Bit(SetBit(bits, i), j) <==> j == i || Bit(bits, j) {
      SetBitSets(bits, i, j);
    }
  }

  /** Different packed sequences stand for different sets. */
  lemma PiecesDetermineBits(a: seq<byte>, b: seq<byte>, n: nat)
    requires ValidBits(a, n) && ValidBits(b, n) && Pieces(a, n) == Pieces(b, n)
    ensures a == b
  {
    forall i | 0 <= i < 8 * |a| ensures Bit(a, i) <==> Bit(b, i) {
      if i < n {
        assert i in Pieces(a, n) <==> i in Pieces(b, n);
      }
    }
    forall x | 0 <= x < |a| ensures a[x] == b[x] {
      forall k | 0 <= k < 8 ensures BitOf(a[x], k) <==> BitOf(b[x], k) {
        assert (8 * x + k) / 8 == x && (8 * x + k) % 8 == k;
        assert Bit(a, 8 * x + k) <==> Bit(b, 8 * x + k);
      }
      BitsDetermineByte(a[x], b[x]);
    }
  }

  ghost predicate Below(s: set<nat>, n: nat) {
    forall i :: i in s ==> i < n
  }

  /** Every subset of the pieces is what some packed sequence stands for. */
  lemma {:induction false} EverySetHasBits(s: set<nat>, n: nat) returns (bits: seq<byte>)
    requires Below(s, n)
    ensures ValidBits(bits, n) && Pieces(bits, n) == s
    decreases |s|
  {
    if s == {} {
      bits := NoBits(n);
      NoBitsIsEmpty(n);
    } else {
      var i :| i in s;
      var rest := EverySetHasBits(s - {i}, n);
      SetBitAddsPiece(rest, n, i);
      bits := SetBit(rest, i);
      assert s - {i} + {i} == s;
    }
  }

  // --- Bitfield -----------------------------------------------------------------------------------

  /** Go's Bitfield value: a slice, which copies of the value share, and a piece count. */
  datatype Bitfield = Bitfield(bits: array<byte>, pieceCount: nat) {
    ghost predicate Valid()
      reads bits
    {
      pieceCount <= MAX_PIECES && ValidBits(bits[..], pieceCount)
    }

    ghost function Set(): set<nat>
      requires Valid()
      reads bits
    {
      Pieces(bits[..], pieceCount)
    }

    /** HasPiece is membership; an index out of range is not a member. */
    predicate HasPiece(i: int)
      requires Valid()
      reads bits
      ensures HasPiece(i) <==> i >= 0 && i in Set()
    {
      if i < 0 then false
      else if i >= pieceCount then false
      else BitOf(bits[i / 8], i % 8)
    }
  }

  method NewBitfield(n: int) returns (r: Result<Bitfield>)
    ensures r.Ok? <==> ValidPieceCount(n)
    ensures r.Ok? ==> r.value.Valid() && fresh(r.value.bits) && r.value.pieceCount == n
    ensures r.Ok? ==> r.value.Set() == {} && r.value.bits[..] == NoBits(n)
    ensures r.Err? ==> r.error == BadArgument
  {
    if !ValidPieceCount(n) {
      return Err(BadArgument);
    }
    var bits := new byte[BitfieldBytes(n)](_ => 0);
    assert bits[..] == NoBits(n);
    NoBitsIsEmpty(n);
    r := Ok(Bitfield(bits, n));
  }

  /** The outcome of ParseBitfield, by its checks. */
  function BitfieldError(payload: seq<byte>, n: int): Option<Error> {
    if !ValidPieceCount(n) then Some(BadArgument)
    else if |payload| != BitfieldBytes(n) then Some(Malformed)
    else if n % 8 != 0 && (payload[|payload| - 1] as bv8) & SpareMask(n % 8) != 0 then Some(Malformed)
    else None
  }

  /** No bit of the byte is set from `used` on. */
  ghost predicate ClearFrom(b: byte, used: nat) {
    forall k :: used <= k < 8 ==> !BitOf(b, k)
  }

  lemma ClearFromIsMasked(b: byte, used: nat)
    requires 0 < used < 8
    ensures ClearFrom(b, used) <==> (b as bv8) & SpareMask(used) == 0
  {
    var v := b as bv8;
    SpareMaskCovers(v, used);
    assert ClearFrom(b, used) ==> forall k :: used <= k < 8 ==> !HasBit(v, k) by {
      assert forall k :: 0 <= k < 8 ==> HasBit(v, k) == BitOf(b, k);
    }
  }

  /** Spare bits are the last bits of the last byte. */
  lemma SpareBitsAreLast(payload: seq<byte>, n: nat)
    requires |payload| == BitfieldBytes(n) && n % 8 != 0
    ensures ValidBits(payload, n) <==> ClearFrom(payload[|payload| - 1], n % 8)
  {
    var last := |payload| - 1;
    assert n / 8 == last;
    if ClearFrom(payload[last], n % 8) {
      forall i | n <= i < 8 * |payload| ensures !Bit(payload, i) {
        assert i / 8 == last && n % 8 <= i % 8;
      }
    }
    if ValidBits(payload, n) {
      forall k | n % 8 <= k < 8 ensures !BitOf(payload[last], k) {
        assert (8 * last + k) / 8 == last && (8 * last + k) % 8 == k;
        assert !Bit(payload, 8 * last + k);
      }
    }
  }

  /** ParseBitfield accepts exactly the packed sequences of the right length without spare bits. */
  lemma ParseAcceptsValidBits(payload: seq<byte>, n: nat)
    requires ValidPieceCount(n)
    ensures BitfieldError(payload, n).None? <==> ValidBits(payload, n)
  {
    if |payload| == BitfieldBytes(n) && n % 8 != 0 {
      SpareBitsAreLast(payload, n);
      ClearFromIsMasked(payload[|payload| - 1], n % 8);
    }
  }

  method ParseBitfield(payload: seq<byte>, n: int) returns (r: Result<Bitfield>)
    ensures r.Ok? <==> BitfieldError(payload, n).None?
    ensures r.Err? ==> Some(r.error) == BitfieldError(payload, n)
    ensures r.Ok? ==> r.value.Valid() && fresh(r.value.bits) && r.value.pieceCount == n
    ensures r.Ok? ==> r.value.bits[..] == payload
  {
    if !ValidPieceCount(n) {
      return Err(BadArgument);
    }
    if |payload| != BitfieldBytes(n) {
      return Err(Malformed);
    }
    var used := n % 8;
    if used != 0 && (payload[|payload| - 1] as bv8) & SpareMask(used) != 0 {
      return Err(Malformed);
    }
    ParseAcceptsValidBits(payload, n);
    var bits := new byte[|payload|](i requires 0 <= i < |payload| => payload[i]);
    assert bits[..] == payload;
    r := Ok(Bitfield(bits, n));
  }

  /** SetPiece: in range it adds that piece and no other, in place; out of range it changes nothing. */
  method SetPiece(b: Bitfield, i: int) returns (ok: bool)
    requires b.Valid()
    modifies b.bits
    ensures b.Valid()
    ensures ok <==> 0 <= i < b.pieceCount
    ensures ok ==> b.bits[..] == SetBit(old(b.bits[..]), i)
    ensures b.Set() == if ok then old(b.Set()) + {i} else old(b.Set())
    ensures !ok ==> b.bits[..] == old(b.bits[..])
  {
    if i < 0 || i >= b.pieceCount {
      return false;
    }
    SetBitAddsPiece(b.bits[..], b.pieceCount, i);
    b.bits[i / 8] := WithBit(b.bits[i / 8], i % 8);
    assert b.bits[..] == SetBit(old(b.bits[..]), i);
    ok := true;
  }

  /** WriteBitfield. */
  method WriteBitfield(w: Writer, b: Bitfield) returns (count: nat, error: Option<Error>)
    requires b.Valid()
    modifies w
    ensures b.bits.Length >= MAX_MESSAGE ==> error == Some(BadArgument) && count == 0 && w.written == old(w.written)
    ensures b.bits.Length < MAX_MESSAGE ==>
              var bytes := Encode(Message(BITFIELD, b.bits[..]));
              && count <= |bytes|
              && w.written == old(w.written) + bytes[..count]
              && (error.None? ==> count == |bytes|)
              && Reports(old(w.answers), w.answers, error)
  {
    count, error := WriteTo(w, Message(BITFIELD, b.bits[..]));
  }

  /** A written bitfield comes back through ReadFrame and ParseBitfield as the same set. */
  lemma BitfieldRoundTrip(bits: seq<byte>, n: nat, rest: seq<byte>)
    requires ValidPieceCount(n) && ValidBits(bits, n) && |bits| < MAX_MESSAGE
    ensures ReadStep(Encode(Message(BITFIELD, bits)) + rest, n) == Step(Ok(Enclosed(Message(BITFIELD, bits))), rest)
    ensures BitfieldError(bits, n).None?
  {
    ReadAfterWrite(Message(BITFIELD, bits), rest, n);
    ParseAcceptsValidBits(bits, n);
  }

  /** Accepted payloads and sets of pieces correspond one to one. */
  lemma AcceptedPayloadsAreSets(n: nat)
    requires ValidPieceCount(n)
    ensures forall a, b ::
              BitfieldError(a, n).None? && BitfieldError(b, n).None? && Pieces(a, n) == Pieces(b, n) ==> a == b
    ensures forall s :: Below(s, n) ==> exists a :: BitfieldError(a, n).None? && Pieces(a, n) == s
  {
    forall a, b | BitfieldError(a, n).None? && BitfieldError(b, n).None? && Pieces(a, n) == Pieces(b, n)
      ensures a == b
    {
      ParseAcceptsValidBits(a, n);
      ParseAcceptsValidBits(b, n);
      PiecesDetermineBits(a, b, n);
    }
    forall s | Below(s, n) ensures exists a :: BitfieldError(a, n).None? && Pieces(a, n) == s {
      var a := EverySetHasBits(s, n);
      ParseAcceptsValidBits(a, n);
    }
  }

  // --- Runs of operations -------------------------------------------------------------------------

  /** The bits after a run of SetPiece calls, those out of range having no effect. */
  function SetAll(bits: seq<byte>, n: nat, indexes: seq<int>): seq<byte>
    requires |bits| == BitfieldBytes(n)
    decreases |indexes|
  {
    if indexes == [] then bits
    else if 0 <= indexes[0] < n then SetAll(SetBit(bits, indexes[0]), n, indexes[1..])
    else SetAll(bits, n, indexes[1..])
  }

  /** Along any run of SetPiece calls spare bits stay zero and the set grows by exactly the valid indexes. */
  lemma {:induction false} RunsOfSetPiece(bits: seq<byte>, n: nat, indexes: seq<int>)
    requires ValidBits(bits, n)
    ensures ValidBits(SetAll(bits, n, indexes), n)
    ensures Pieces(SetAll(bits, n, indexes), n) == Pieces(bits, n) + set i | i in indexes && 0 <= i < n
    decreases |indexes|
  {
    if indexes != [] {
      if 0 <= indexes[0] < n {
        SetBitAddsPiece(bits, n, indexes[0]);
        RunsOfSetPiece(SetBit(bits, indexes[0]), n, indexes[1..]);
      } else {
        RunsOfSetPiece(bits, n, indexes[1..]);
      }
      assert forall i :: i in indexes <==> i == indexes[0] || i in indexes[1..];
    }
  }
}
