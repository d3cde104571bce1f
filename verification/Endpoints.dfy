/** Endpoint normalisation and deduplication, as done before the pool starts dialling. */
module Endpoints {
  import opened Wrappers
  import opened Bytes

  /** netip.Addr: the zero value, an IPv4 address, or a possibly zoned IPv6 address. */
  datatype Addr =
    | Invalid
    | V4(bits: uint32)
    | V6(hi: uint64, lo: uint64, zone: string)

  datatype AddrPort = AddrPort(addr: Addr, port: uint16)

  /** Addr.Is4In6: the ::ffff:0:0/96 block. */
  predicate Is4In6(a: Addr) {
    a.V6? && a.hi == 0 && a.lo / TWO_TO_THE_32 == 0xffff
  }

  /** Addr.Unmap: an IPv4-mapped IPv6 address becomes IPv4, losing its zone. */
  function Unmap(a: Addr): Addr {
    if Is4In6(a) then V4(a.lo % TWO_TO_THE_32) else a
  }

  function Normalize(e: AddrPort): AddrPort {
    AddrPort(Unmap(e.addr), e.port)
  }

  function NormalizeAll(es: seq<AddrPort>): (r: seq<AddrPort>)
    ensures |r| == |es| && forall i :: 0 <= i < |es| ==> r[i] == Normalize(es[i])
  {
    if es == [] then [] else NormalizeAll(es[..|es| - 1]) + [Normalize(es[|es| - 1])]
  }

  /** The elements of `es` without those that repeat an earlier one. */
  function FirstOccurrences<T(==)>(es: seq<T>): seq<T> {
    if es == [] then [] else
      var before := FirstOccurrences(es[..|es| - 1]);
      if es[|es| - 1] in before then before else before + [es[|es| - 1]]
  }

  function Unique(es: seq<AddrPort>): seq<AddrPort> {
    FirstOccurrences(NormalizeAll(es))
  }

  /** uniqueEndpoints. */
  method UniqueEndpoints(addrs: seq<AddrPort>) returns (unique: seq<AddrPort>)
    ensures unique == Unique(addrs)
  {
    var seen: set<AddrPort> := {};
    unique := [];
    for i := 0 to |addrs|
      invariant unique == Unique(addrs[..i])
      invariant forall e :: e in seen <==> e in unique
    {
      assert addrs[..i + 1][..i] == addrs[..i];
      ghost var before := NormalizeAll(addrs[..i]);
      var addr := Normalize(addrs[i]);
      assert NormalizeAll(addrs[..i + 1]) == before + [addr];
      assert (before + [addr])[..i] == before;
      if addr !in seen {
        seen := seen + {addr};
        unique := unique + [addr];
      }
    }
    assert addrs[..|addrs|] == addrs;
  }

  // --- What FirstOccurrences computes -----------------------------------------------------------

  ghost predicate NoDuplicates<T>(es: seq<T>) {
    forall i, j :: 0 <= i < j < |es| ==> es[i] != es[j]
  }

  /** The position of the first `e` in `es`. */
  ghost function FirstIndex<T>(es: seq<T>, e: T): (i: nat)
    requires e in es
    ensures i < |es| && es[i] == e && forall k :: 0 <= k < i ==> es[k] != e
  {
    if es[0] == e then 0 else FirstIndex(es[1..], e) + 1
  }

  lemma {:induction false} SameElements<T>(es: seq<T>, e: T)
    ensures e in FirstOccurrences(es) <==> e in es
  {
    if es != [] {
      SameElements(es[..|es| - 1], e);
      assert es == es[..|es| - 1] + [es[|es| - 1]];
    }
  }

  lemma {:induction false} NoRepetition<T>(es: seq<T>)
    ensures NoDuplicates(FirstOccurrences(es))
  {
    if es != [] {
      NoRepetition(es[..|es| - 1]);
    }
  }

  lemma FirstIndexExtends<T>(es: seq<T>, x: T, e: T)
    requires e in es
    ensures e in es + [x] && FirstIndex(es + [x], e) == FirstIndex(es, e)
  {
    assert (es + [x])[FirstIndex(es, e)] == e;
    assert forall k :: 0 <= k < |es| ==> (es + [x])[k] == es[k];
  }

  /** The output lists its elements in the order in which they first occur in the input. */
  lemma {:induction false} FirstOccurrenceOrder<T>(es: seq<T>, i: nat, j: nat)
    requires i < j < |FirstOccurrences(es)|
    ensures FirstOccurrences(es)[i] in es && FirstOccurrences(es)[j] in es
    ensures FirstIndex(es, FirstOccurrences(es)[i]) < FirstIndex(es, FirstOccurrences(es)[j])
  {
    var init, last := es[..|es| - 1], es[|es| - 1];
    assert es == init + [last];
    var before := FirstOccurrences(init);
    SameElements(init, last);
    SameElements(init, before[i]);
    SameElements(es, FirstOccurrences(es)[j]);
    FirstIndexExtends(init, last, before[i]);
    if j < |before| {
      SameElements(init, before[j]);
      FirstOccurrenceOrder(init, i, j);
      FirstIndexExtends(init, last, before[j]);
    } else {
      assert last !in init;
    }
  }

  lemma {:induction false} NothingToRemove<T>(es: seq<T>)
    requires NoDuplicates(es)
    ensures FirstOccurrences(es) == es
  {
    if es != [] {
      NothingToRemove(es[..|es| - 1]);
    }
  }

  // --- Promises of uniqueEndpoints ----------------------------------------------------------------

  lemma NormalizeTwice(e: AddrPort)
    ensures Normalize(Normalize(e)) == Normalize(e)
  {
  }

  /** Deduplicating a deduplicated list changes nothing. */
  lemma UniqueIsFixed(es: seq<AddrPort>)
    ensures Unique(Unique(es)) == Unique(es)
  {
    var u := Unique(es);
    NoRepetition(NormalizeAll(es));
    forall i | 0 <= i < |u| ensures Normalize(u[i]) == u[i] {
      SameElements(NormalizeAll(es), u[i]);
      var k :| 0 <= k < |es| && NormalizeAll(es)[k] == u[i];
      NormalizeTwice(es[k]);
    }
    assert NormalizeAll(u) == u;
    NothingToRemove(u);
  }

  /** Each endpoint of the input appears once, in normal form, and nothing else does. */
  lemma UniqueIsTheSetOfEndpoints(es: seq<AddrPort>)
    ensures NoDuplicates(Unique(es))
    ensures forall e :: e in Unique(es) <==> exists i :: 0 <= i < |es| && Normalize(es[i]) == e
    ensures es != [] ==> Unique(es) != []
  {
    var n := NormalizeAll(es);
    NoRepetition(n);
    forall e | e in Unique(es) ensures exists i :: 0 <= i < |es| && Normalize(es[i]) == e {
      SameElements(n, e);
      var i :| 0 <= i < |n| && n[i] == e;
    }
    forall i | 0 <= i < |es| ensures Normalize(es[i]) in Unique(es) {
      SameElements(n, n[i]);
    }
  }

  // --- What normalisation keeps ---------------------------------------------------------------------------

  /** The IPv4 address an address stands for: itself, or the last 32 bits in ::ffff:0:0/96. */
  function IPv4Of(a: Addr): Option<uint32> {
    match a
    case Invalid => None
    case V4(bits) => Some(bits)
    case V6(hi, lo, _) =>
      if hi == 0 && 0xffff_0000_0000 <= lo < 0x1_0000_0000_0000 then Some(lo - 0xffff_0000_0000) else None
  }

  /** An IPv6 address that stands for an IPv4 address. */
  predicate Mapped(a: Addr) {
    a.V6? && IPv4Of(a).Some?
  }

  /** The same port, and the same address or the same IPv4 address. */
  ghost predicate SameEndpoint(a: AddrPort, b: AddrPort) {
    a.port == b.port && (a.addr == b.addr || (IPv4Of(a.addr).Some? && IPv4Of(a.addr) == IPv4Of(b.addr)))
  }

  lemma MappedBlock(lo: uint64)
    ensures lo / TWO_TO_THE_32 == 0xffff <==> 0xffff_0000_0000 <= lo < 0x1_0000_0000_0000
    ensures lo / TWO_TO_THE_32 == 0xffff ==> lo % TWO_TO_THE_32 == lo - 0xffff_0000_0000
  {
  }

  /** Normalising keeps the port; it turns an address that stands for an IPv4 address into that address, and
      leaves any other as it is. */
  lemma NormalizeKeeps(e: AddrPort)
    ensures Normalize(e).port == e.port
    ensures Normalize(e).addr == match IPv4Of(e.addr) { case Some(bits) => V4(bits) case None => e.addr }
    ensures SameEndpoint(e, Normalize(e)) && !Mapped(Normalize(e).addr)
  {
    if e.addr.V6? {
      MappedBlock(e.addr.lo);
    }
  }

  /** Two endpoints are merged exactly if they are the same endpoint. */
  lemma MergedExactly(a: AddrPort, b: AddrPort)
    ensures Normalize(a) == Normalize(b) <==> SameEndpoint(a, b)
  {
    NormalizeKeeps(a);
    NormalizeKeeps(b);
  }

  /** Every endpoint of the input is in the output, as itself or under its IPv4 address, with its port; each
      output is an endpoint of the input; no two outputs are the same endpoint, and none is an IPv4-mapped one. */
  lemma UniqueKeepsEndpoints(es: seq<AddrPort>)
    ensures forall e :: e in es ==> exists u :: u in Unique(es) && SameEndpoint(e, u)
    ensures forall u :: u in Unique(es) ==> !Mapped(u.addr) && exists e :: e in es && SameEndpoint(e, u)
    ensures forall j, k :: 0 <= j < k < |Unique(es)| ==> !SameEndpoint(Unique(es)[j], Unique(es)[k])
  {
    UniqueIsTheSetOfEndpoints(es);
    hide Unique, Normalize, SameEndpoint, Mapped;
    forall e | e in es ensures exists u :: u in Unique(es) && SameEndpoint(e, u) {
      var i :| 0 <= i < |es| && es[i] == e;
      NormalizeKeeps(e);
      assert Normalize(es[i]) in Unique(es);
    }
    forall u | u in Unique(es)
      ensures !Mapped(u.addr) && Normalize(u) == u && exists e :: e in es && SameEndpoint(e, u)
    {
      var i :| 0 <= i < |es| && Normalize(es[i]) == u;
      NormalizeKeeps(es[i]);
      NormalizeTwice(es[i]);
    }
    forall j, k | 0 <= j < k < |Unique(es)| ensures !SameEndpoint(Unique(es)[j], Unique(es)[k]) {
      MergedExactly(Unique(es)[j], Unique(es)[k]);
      assert Unique(es)[j] in Unique(es) && Unique(es)[k] in Unique(es);
    }
  }
}
