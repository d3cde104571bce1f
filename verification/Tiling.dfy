/** Consecutive, nonempty, half-open spans. */
module Tiling {

  datatype Span = Span(start: nat, length: nat) {
    predicate Contains(x: nat) {
      start <= x < start + length
    }
  }

  /** The spans follow one another from `lo` to `hi` without gap or overlap. */
  ghost predicate Tiles(spans: seq<Span>, lo: nat, hi: nat) {
    if spans == [] then lo == hi
    else spans[0].start == lo && spans[0].length > 0 && Tiles(spans[1..], lo + spans[0].length, hi)
  }

  lemma {:induction false} TilesConcat(a: seq<Span>, b: seq<Span>, lo: nat, mid: nat, hi: nat)
    requires Tiles(a, lo, mid) && Tiles(b, mid, hi)
    ensures Tiles(a + b, lo, hi)
  {
    if a == [] {
      assert a + b == b;
    } else {
      assert (a + b)[1..] == a[1..] + b;
      TilesConcat(a[1..], b, lo + a[0].length, mid, hi);
    }
  }

  lemma TilesSnoc(a: seq<Span>, s: Span, lo: nat)
    requires Tiles(a, lo, s.start) && s.length > 0
    ensures Tiles(a + [s], lo, s.start + s.length)
  {
    assert Tiles([s], s.start, s.start + s.length);
    TilesConcat(a, [s], lo, s.start, s.start + s.length);
  }

  lemma {:induction false} TilesBounds(spans: seq<Span>, lo: nat, hi: nat)
    requires Tiles(spans, lo, hi)
    ensures lo <= hi
    ensures forall i :: 0 <= i < |spans| ==> lo <= spans[i].start && spans[i].start + spans[i].length <= hi
  {
    if spans != [] {
      TilesBounds(spans[1..], lo + spans[0].length, hi);
    }
  }

  /** A tiling is a partition: every position belongs to exactly one span. */
  lemma {:induction false} TilesPartition(spans: seq<Span>, lo: nat, hi: nat, x: nat)
    requires Tiles(spans, lo, hi)
    ensures lo <= x < hi <==> exists i :: 0 <= i < |spans| && spans[i].Contains(x)
    ensures forall i, j :: 0 <= i < j < |spans| ==> !(spans[i].Contains(x) && spans[j].Contains(x))
  {
    TilesBounds(spans, lo, hi);
    if spans != [] {
      var mid := lo + spans[0].length;
      TilesPartition(spans[1..], mid, hi, x);
      TilesBounds(spans[1..], mid, hi);
      if spans[0].Contains(x) {
      } else if lo <= x < hi {
        var i :| 0 <= i < |spans[1..]| && spans[1..][i].Contains(x);
        assert spans[i + 1].Contains(x);
      }
      forall i | 0 < i < |spans| ensures spans[i] == spans[1..][i - 1] {
      }
    }
  }
}
