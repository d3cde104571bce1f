/** The piece layout of a single-file torrent, and where each piece and block lies in the file. */
module Layouts {
  import opened Wrappers
  import opened Bytes
  import opened Wire
  import opened Tiling
  import opened FetchTheorems

  const MAX_INT64: int := 0x7fff_ffff_ffff_ffff

  type int64 = x: int | -MAX_INT64 - 1 <= x <= MAX_INT64

  /** hashLength: the size of a SHA-1 digest. */
  const HASH_LENGTH: nat := 20

  /** The fields of the decoded info dictionary that toTorrentFile checks. */
  datatype Info = Info(length: int64, pieceLength: int64, pieces: seq<byte>)

  datatype TorrentFile = TorrentFile(pieceHashes: seq<seq<byte>>, pieceLength: int64, length: int64)

  // --- splitPieceHashes -----------------------------------------------------------------------------

  function Digest(pieces: seq<byte>, i: nat): seq<byte>
    requires (i + 1) * HASH_LENGTH <= |pieces|
  {
    pieces[i * HASH_LENGTH..(i + 1) * HASH_LENGTH]
  }

  function Digests(pieces: seq<byte>): seq<seq<byte>> {
    seq(|pieces| / HASH_LENGTH, i requires 0 <= i < |pieces| / HASH_LENGTH => Digest(pieces, i))
  }

  method SplitPieceHashes(pieces: seq<byte>) returns (r: Option<seq<seq<byte>>>)
    ensures r.Some? <==> |pieces| % HASH_LENGTH == 0
    ensures r.Some? ==> r.value == Digests(pieces)
  {
    if |pieces| % HASH_LENGTH != 0 {
      return None;
    }
    var hashes := new seq<byte>[|pieces| / HASH_LENGTH](_ => []);
    for i := 0 to hashes.Length
      invariant forall k :: 0 <= k < i ==> hashes[k] == Digest(pieces, k)
    {
      hashes[i] := pieces[i * HASH_LENGTH..(i + 1) * HASH_LENGTH];
    }
    assert hashes[..] == Digests(pieces);
    r := Some(hashes[..]);
  }

  function Flatten(parts: seq<seq<byte>>): seq<byte> {
    if parts == [] then [] else Flatten(parts[..|parts| - 1]) + parts[|parts| - 1]
  }

  lemma {:induction false} FlattenDigests(pieces: seq<byte>, k: nat)
    requires k <= |pieces| / HASH_LENGTH
    ensures Flatten(Digests(pieces)[..k]) == pieces[..k * HASH_LENGTH]
  {
    if k > 0 {
      FlattenDigests(pieces, k - 1);
      var ds := Digests(pieces)[..k];
      assert ds[..k - 1] == Digests(pieces)[..k - 1];
      assert pieces[..k * HASH_LENGTH] == pieces[..(k - 1) * HASH_LENGTH] + Digest(pieces, k - 1);
    }
  }

  /** Splitting loses nothing and leaves only whole digests. */
  lemma DigestsRejoin(pieces: seq<byte>)
    requires |pieces| % HASH_LENGTH == 0
    ensures Flatten(Digests(pieces)) == pieces
    ensures forall d :: d in Digests(pieces) ==> |d| == HASH_LENGTH
  {
    var n := |pieces| / HASH_LENGTH;
    FlattenDigests(pieces, n);
    assert Digests(pieces)[..n] == Digests(pieces);
    assert pieces[..n * HASH_LENGTH] == pieces;
  }

  // --- toTorrentFile --------------------------------------------------------------------------------

  function ExpectedPieces(info: Info): int64
    requires info.pieceLength > 0 && info.length >= 0
  {
    if info.length > 0 then
      DivideBound(info.length, info.pieceLength);
      1 + (info.length - 1) / info.pieceLength
    else 0
  }

  lemma DivideBound(length: int, pieceLength: int)
    requires pieceLength > 0 && length > 0
    ensures 0 <= (length - 1) / pieceLength <= length - 1
  {
    var q := (length - 1) / pieceLength;
    DivideFloor(length - 1, pieceLength);
    MultiplyMonotone(1, pieceLength, q);
  }

  lemma DivideFloor(x: nat, d: nat)
    requires d > 0
    ensures 0 <= x / d && x / d * d <= x < x / d * d + d
  {
    assert x == x / d * d + x % d;
  }

  lemma MultiplyMonotone(a: nat, b: nat, d: nat)
    requires a <= b
    ensures a * d <= b * d
  {
  }

  function ToTorrentFile(info: Info): Option<TorrentFile> {
    if info.pieceLength <= 0 then None
    else if info.length < 0 then None
    else if |info.pieces| % HASH_LENGTH != 0 then None
    else
      var hashes := Digests(info.pieces);
      if |hashes| > TWO_TO_THE_32 then None
      else if |hashes| != ExpectedPieces(info) then None
      else Some(TorrentFile(hashes, info.pieceLength, info.length))
  }

  /** `n` pieces cover the content, and one piece less would not. */
  ghost predicate CoversExactly(n: nat, pieceLength: nat, length: nat) {
    length <= n * pieceLength && (n > 0 ==> (n - 1) * pieceLength < length)
  }

  lemma QuotientIsUnique(x: nat, d: nat, q: nat)
    requires d > 0 && q * d <= x < (q + 1) * d
    ensures x / d == q
  {
    DivideFloor(x, d);
    var p := x / d;
    if p < q {
      MultiplyMonotone(p + 1, q, d);
    } else if q < p {
      MultiplyMonotone(q + 1, p, d);
    }
  }

  lemma CeilingCovers(n: nat, pieceLength: nat, length: nat)
    requires pieceLength > 0
    ensures CoversExactly(n, pieceLength, length) <==> n == if length > 0 then 1 + (length - 1) / pieceLength else 0
  {
    if length > 0 {
      DivideFloor(length - 1, pieceLength);
      if n > 0 {
        assert n * pieceLength == (n - 1) * pieceLength + pieceLength;
        if CoversExactly(n, pieceLength, length) {
          QuotientIsUnique(length - 1, pieceLength, n - 1);
        }
      }
    } else if n > 0 {
      MultiplyMonotone(0, n - 1, pieceLength);
    }
  }

  /** A layout is accepted exactly if its numbers are in range and its whole digests are as many as it takes
      to cover the content; an empty file takes none. */
  lemma AcceptsExactCover(info: Info)
    ensures ToTorrentFile(info).Some? <==>
              && info.pieceLength > 0 && info.length >= 0
              && |info.pieces| % HASH_LENGTH == 0
              && |info.pieces| / HASH_LENGTH <= TWO_TO_THE_32
              && CoversExactly(|info.pieces| / HASH_LENGTH, info.pieceLength, info.length)
  {
    if info.pieceLength > 0 && info.length >= 0 {
      CeilingCovers(|info.pieces| / HASH_LENGTH, info.pieceLength, info.length);
    }
  }

  /** An accepted layout has the declared lengths, and as hash `i` bytes 20 * i to 20 * i + 19 of the field. */
  lemma AcceptedKeepsLayout(info: Info)
    requires ToTorrentFile(info).Some?
    ensures var t := ToTorrentFile(info).value;
      && t.length == info.length && t.pieceLength == info.pieceLength
      && 20 * |t.pieceHashes| == |info.pieces| && Flatten(t.pieceHashes) == info.pieces
      && forall i, k :: 0 <= i < |t.pieceHashes| && 0 <= k < 20 ==>
           |t.pieceHashes[i]| == 20 && t.pieceHashes[i][k] == info.pieces[20 * i + k]
  {
    DigestsRejoin(info.pieces);
  }

  // --- Pieces ---------------------------------------------------------------------------------------

  /** Two's-complement wrap-around of an int64 result. */
  function Wrap64(x: int): (r: int64)
    ensures -MAX_INT64 - 1 <= x <= MAX_INT64 ==> r == x
  {
    (x + MAX_INT64 + 1) % (2 * (MAX_INT64 + 1)) - MAX_INT64 - 1
  }

  /** int64(piece) * torrent.PieceLength. */
  function PieceStart(t: TorrentFile, i: nat): int64 {
    Wrap64(i * t.pieceLength)
  }

  /** min(torrent.PieceLength, torrent.Length-start). */
  function PieceSize(t: TorrentFile, i: nat): int64 {
    var left := Wrap64(t.length - PieceStart(t, i));
    if t.pieceLength < left then t.pieceLength else left
  }

  ghost predicate Accepted(t: TorrentFile) {
    exists info :: ToTorrentFile(info) == Some(t)
  }

  /** What acceptance says about the numbers. */
  lemma AcceptedNumbers(t: TorrentFile)
    requires Accepted(t)
    ensures t.pieceLength > 0 && t.length >= 0 && |t.pieceHashes| <= MAX_PIECES
    ensures |t.pieceHashes| == if t.length > 0 then 1 + (t.length - 1) / t.pieceLength else 0
    ensures forall h :: h in t.pieceHashes ==> |h| == HASH_LENGTH
  {
    var info :| ToTorrentFile(info) == Some(t);
    DigestsRejoin(info.pieces);
  }

  /** Multiples of `d` up to the quotient of `x`, and the one after it. */
  lemma MultiplesUpTo(x: nat, d: nat, i: nat)
    requires d > 0 && i <= x / d
    ensures 0 <= i * d <= x && (i + 1) * d == i * d + d
    ensures i < x / d ==> i * d + d <= x
    ensures i == x / d ==> x < i * d + d
  {
    DivideFloor(x, d);
    MultiplyMonotone(i, x / d, d);
    if i < x / d {
      MultiplyMonotone(i + 1, x / d, d);
    }
  }

  /** The product in downloadPiece does not overflow, and stays inside the file. */
  lemma StartInFile(t: TorrentFile, i: nat)
    requires Accepted(t) && i < |t.pieceHashes|
    ensures t.length > 0 && 0 <= i * t.pieceLength < t.length
    ensures (i + 1) * t.pieceLength == i * t.pieceLength + t.pieceLength
    ensures i + 1 < |t.pieceHashes| ==> i * t.pieceLength + t.pieceLength < t.length
    ensures i + 1 == |t.pieceHashes| ==> t.length <= i * t.pieceLength + t.pieceLength
  {
    AcceptedNumbers(t);
    MultiplesUpTo(t.length - 1, t.pieceLength, i);
  }

  /** Where a piece lies when the product does not overflow. */
  lemma SizeOf(t: TorrentFile, i: nat, start: nat)
    requires start == i * t.pieceLength && start < t.length && t.pieceLength > 0
    ensures PieceStart(t, i) == start
    ensures PieceSize(t, i) == if t.pieceLength < t.length - start then t.pieceLength else t.length - start
  {
  }

  /** Each piece of an accepted layout starts inside the file, without overflow, and is not empty; all but
      the last are full. */
  lemma PieceInFile(t: TorrentFile, i: nat)
    requires Accepted(t) && i < |t.pieceHashes|
    ensures PieceStart(t, i) == i * t.pieceLength
    ensures 0 <= PieceStart(t, i) < t.length
    ensures 1 <= PieceSize(t, i) <= t.pieceLength
    ensures i + 1 < |t.pieceHashes| ==> PieceStart(t, i) + PieceSize(t, i) == (i + 1) * t.pieceLength
    ensures i + 1 == |t.pieceHashes| ==> PieceStart(t, i) + PieceSize(t, i) == t.length
  {
    AcceptedNumbers(t);
    StartInFile(t, i);
    SizeOf(t, i, i * t.pieceLength);
    hide PieceStart, PieceSize, Accepted;
  }

  /** The boundary before piece `i`; the end of the file after the last piece. */
  ghost function Boundary(t: TorrentFile, i: nat): (b: nat)
    requires Accepted(t) && i <= |t.pieceHashes|
  {
    if i < |t.pieceHashes| then
      PieceInFile(t, i);
      PieceStart(t, i)
    else
      AcceptedNumbers(t);
      t.length
  }

  lemma PieceEndsAtBoundary(t: TorrentFile, i: nat)
    requires Accepted(t) && i < |t.pieceHashes|
    ensures Boundary(t, i) == PieceStart(t, i) >= 0 && PieceSize(t, i) > 0
    ensures Boundary(t, i) + PieceSize(t, i) == Boundary(t, i + 1)
  {
    PieceInFile(t, i);
    if i + 1 < |t.pieceHashes| {
      PieceInFile(t, i + 1);
    }
  }

  function PieceSpan(t: TorrentFile, i: nat): Span
    requires PieceStart(t, i) >= 0 && PieceSize(t, i) >= 0
  {
    Span(PieceStart(t, i), PieceSize(t, i))
  }

  /** The pieces from `i` on. */
  ghost function PiecesFrom(t: TorrentFile, i: nat): seq<Span>
    requires Accepted(t) && i <= |t.pieceHashes|
    decreases |t.pieceHashes| - i
  {
    if i == |t.pieceHashes| then [] else
      PieceInFile(t, i);
      [PieceSpan(t, i)] + PiecesFrom(t, i + 1)
  }

  lemma {:induction false} PiecesTile(t: TorrentFile, i: nat)
    requires Accepted(t) && i <= |t.pieceHashes|
    ensures Tiles(PiecesFrom(t, i), Boundary(t, i), Boundary(t, |t.pieceHashes|))
    decreases |t.pieceHashes| - i
  {
    if i < |t.pieceHashes| {
      PieceEndsAtBoundary(t, i);
      PiecesTile(t, i + 1);
    }
  }

  lemma Boundaries(t: TorrentFile)
    requires Accepted(t)
    ensures t.length >= 0 && Boundary(t, 0) == 0 && Boundary(t, |t.pieceHashes|) == t.length
  {
    AcceptedNumbers(t);
    if t.pieceHashes != [] {
      PieceInFile(t, 0);
    }
  }

  /** The pieces of an accepted layout partition the file. */
  lemma PiecesPartitionFile(t: TorrentFile)
    requires Accepted(t)
    ensures t.length >= 0 && Tiles(PiecesFrom(t, 0), 0, t.length)
  {
    Boundaries(t);
    PiecesTile(t, 0);
  }

  // --- Blocks ---------------------------------------------------------------------------------------

  /** Small enough for the four-byte offsets of the wire protocol. */
  ghost predicate WireSized(t: TorrentFile, i: nat) {
    0 < PieceSize(t, i) < TWO_TO_THE_32
  }

  function Shift(spans: seq<Span>, offset: nat): seq<Span> {
    seq(|spans|, i requires 0 <= i < |spans| => Span(spans[i].start + offset, spans[i].length))
  }

  lemma {:induction false} ShiftTiles(spans: seq<Span>, lo: nat, hi: nat, offset: nat)
    requires Tiles(spans, lo, hi)
    ensures Tiles(Shift(spans, offset), lo + offset, hi + offset)
  {
    if spans != [] {
      assert Shift(spans, offset)[1..] == Shift(spans[1..], offset);
      ShiftTiles(spans[1..], lo + spans[0].length, hi, offset);
    }
  }

  /** Piece `i` cut into the blocks FetchPiece asks for, as positions in the file; uncut if the command
      would reject it as too long. */
  ghost function PieceBlocks(t: TorrentFile, i: nat): seq<Span>
    requires Accepted(t) && i < |t.pieceHashes|
  {
    PieceInFile(t, i);
    if WireSized(t, i) then Shift(BlocksFrom(PieceSize(t, i), 0), PieceStart(t, i)) else [PieceSpan(t, i)]
  }

  lemma PieceBlocksTile(t: TorrentFile, i: nat)
    requires Accepted(t) && i < |t.pieceHashes|
    ensures PieceStart(t, i) >= 0 && PieceSize(t, i) >= 0
    ensures Tiles(PieceBlocks(t, i), PieceStart(t, i), PieceStart(t, i) + PieceSize(t, i))
    ensures WireSized(t, i) ==> forall k :: 0 <= k < |PieceBlocks(t, i)| ==> PieceBlocks(t, i)[k].length <= MAX_BLOCK
  {
    PieceInFile(t, i);
    if WireSized(t, i) {
      BlocksTile(PieceSize(t, i), 0);
      ShiftTiles(BlocksFrom(PieceSize(t, i), 0), 0, PieceSize(t, i), PieceStart(t, i));
    } else {
      assert Tiles([PieceSpan(t, i)], PieceStart(t, i), PieceStart(t, i) + PieceSize(t, i));
    }
  }

  ghost function BlocksOfFileFrom(t: TorrentFile, i: nat): seq<Span>
    requires Accepted(t) && i <= |t.pieceHashes|
    decreases |t.pieceHashes| - i
  {
    if i == |t.pieceHashes| then [] else PieceBlocks(t, i) + BlocksOfFileFrom(t, i + 1)
  }

  lemma {:induction false} BlocksOfFileTile(t: TorrentFile, i: nat)
    requires Accepted(t) && i <= |t.pieceHashes|
    ensures Tiles(BlocksOfFileFrom(t, i), Boundary(t, i), Boundary(t, |t.pieceHashes|))
    decreases |t.pieceHashes| - i
  {
    if i < |t.pieceHashes| {
      PieceEndsAtBoundary(t, i);
      PieceBlocksTile(t, i);
      BlocksOfFileTile(t, i + 1);
      var end := Boundary(t, |t.pieceHashes|);
      TilesConcat(PieceBlocks(t, i), BlocksOfFileFrom(t, i + 1), Boundary(t, i), Boundary(t, i + 1), end);
    }
  }

  /** Every byte of the file belongs to exactly one block of exactly one piece. */
  lemma BlocksPartitionFile(t: TorrentFile, x: nat)
    requires Accepted(t)
    ensures var blocks := BlocksOfFileFrom(t, 0);
      && t.length >= 0 && Tiles(blocks, 0, t.length)
      && (x < t.length <==> exists k :: 0 <= k < |blocks| && blocks[k].Contains(x))
      && forall j, k :: 0 <= j < k < |blocks| ==> !(blocks[j].Contains(x) && blocks[k].Contains(x))
  {
    Boundaries(t);
    BlocksOfFileTile(t, 0);
    TilesPartition(BlocksOfFileFrom(t, 0), 0, t.length, x);
  }
}
