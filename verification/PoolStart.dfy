/** Starting a pool: argument checks, deduplication, and what they mean for its runs. */
module PoolStart {
  import opened Wrappers
  import opened Endpoints
  import opened PoolModel
  import opened PoolExhaustion

  /** The arguments of newPoolWithDial that its checks look at. */
  datatype Arguments = Arguments(
    hasContext: bool,
    contextEnded: bool,
    addrs: seq<AddrPort>,
    maxConcurrent: int,
    attemptTimeout: int,
    hasDial: bool)

  /** validatePoolArguments: every check passes. */
  predicate Accepted(a: Arguments) {
    && a.hasContext
    && a.addrs != []
    && 0 < a.maxConcurrent <= MAX_DIALS
    && a.attemptTimeout > 0
    && a.hasDial
    && !a.contextEnded
  }

  function NewPool(a: Arguments): Option<Config> {
    if Accepted(a) then Some(Config(|Unique(a.addrs)|, a.maxConcurrent)) else None
  }

  /** An accepted pool has work, at most four workers and never more than endpoints, and a candidate queue for
      up to four candidates and never more than endpoints. */
  lemma NewPoolIsValid(a: Arguments)
    ensures NewPool(a).Some? ==>
              var c := NewPool(a).value;
              && c.Valid() && c.endpoints == |Unique(a.addrs)| && c.maxConcurrent == a.maxConcurrent
              && 1 <= |Init(c).workers| <= 4 && |Init(c).workers| <= c.endpoints
              && (|Init(c).workers| == a.maxConcurrent || |Init(c).workers| == c.endpoints <= a.maxConcurrent)
              && (if c.endpoints < 4 then QueueCapacity(c) == c.endpoints else QueueCapacity(c) == 4)
  {
    UniqueIsTheSetOfEndpoints(a.addrs);
  }

  /** The arguments that are rejected: no or an ended context, no address, a number of dials outside 1 to 4, no
      positive timeout, no dial function. */
  lemma RejectedArguments(a: Arguments)
    ensures NewPool(a).None? <==>
              || !a.hasContext || a.contextEnded
              || |a.addrs| == 0
              || a.maxConcurrent < 1 || a.maxConcurrent > 4
              || a.attemptTimeout < 1
              || !a.hasDial
  {
  }

  /** No run of an accepted pool dials the same address and port twice. */
  lemma NoAddressDialedTwice(a: Arguments, s: State, j: nat, k: nat)
    requires NewPool(a).Some? && Reachable(NewPool(a).value, s)
    requires j in s.log.dials && k in s.log.dials
    ensures j < |Unique(a.addrs)| && k < |Unique(a.addrs)| && s.log.dials[j] == 1
    ensures Unique(a.addrs)[j] == Unique(a.addrs)[k] ==> j == k
  {
    var c := NewPool(a).value;
    NewPoolIsValid(a);
    UniqueIsTheSetOfEndpoints(a.addrs);
    AtMostOneDial(c, s, j);
    AtMostOneDial(c, s, k);
    assert Unique(a.addrs)[j] == Unique(a.addrs)[k] ==> !(j < k) && !(k < j);
  }
}
