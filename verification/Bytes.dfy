/** Bytes, and unsigned 32-bit integers in big-endian order. */
module Bytes {

  const TWO_TO_THE_32: nat := 0x1_0000_0000

  type byte = x: nat | x < 0x100
  type uint16 = x: nat | x < 0x1_0000
  type uint32 = x: nat | x < TWO_TO_THE_32
  type uint64 = x: nat | x < TWO_TO_THE_32 * TWO_TO_THE_32

  /** binary.BigEndian.PutUint32. */
  function PutUint32(v: uint32): (s: seq<byte>)
    ensures |s| == 4
  {
    [v / 0x100 / 0x100 / 0x100, v / 0x100 / 0x100 % 0x100, v / 0x100 % 0x100, v % 0x100]
  }

  /** binary.BigEndian.Uint32, which looks at the first four bytes. */
  function Uint32(s: seq<byte>): uint32
    requires |s| >= 4
  {
    ((s[0] as nat * 0x100 + s[1]) * 0x100 + s[2]) * 0x100 + s[3]
  }

  lemma PutThenGet(v: uint32, rest: seq<byte>)
    ensures Uint32(PutUint32(v) + rest) == v
  {
  }

  lemma GetThenPut(s: seq<byte>)
    requires |s| >= 4
    ensures PutUint32(Uint32(s)) == s[..4]
  {
    var v := Uint32(s);
    assert v % 0x100 == s[3] && v / 0x100 == (s[0] as nat * 0x100 + s[1]) * 0x100 + s[2];
    assert v / 0x100 % 0x100 == s[2] && v / 0x100 / 0x100 == s[0] as nat * 0x100 + s[1];
  }

  // --- Bytes and bit-vectors ------------------------------------------------------------------

  lemma BitsToByteAndBack(v: bv8)
    ensures v as nat < 0x100 && (v as nat) as bv8 == v
  {
  }

  lemma BitsAddOne(v: bv8)
    requires v != 0xff
    ensures (v + 1) as nat == v as nat + 1
  {
  }

  lemma {:induction false} BitsOfByte(b: byte) returns (v: bv8)
    ensures v as nat == b
  {
    if b == 0 {
      v := 0;
    } else {
      var u := BitsOfByte(b - 1);
      BitsAddOne(u);
      v := u + 1;
    }
  }

  lemma ByteToBitsAndBack(b: byte)
    ensures (b as bv8) as nat == b
  {
    var v := BitsOfByte(b);
    BitsToByteAndBack(v);
  }
}
