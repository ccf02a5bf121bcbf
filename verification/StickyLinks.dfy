/**
 * The sticky part of a rotator: linking, unlinking and looking up addresses,
 * each under the lock of the cache. What a lookup returns is told from the
 * whole history of calls.
 */
module StickyLinks {
  import opened Wrappers
  import opened ChainIdentity
  import opened Lru
  import opened StickyCaching

  /** The latest instant of a history. */
  function Latest(ops: seq<Op>): nat {
    if ops == [] then 0
    else
      var before, op := Latest(ops[..|ops| - 1]), ops[|ops| - 1];
      if op.Unlink? || op.now <= before then before else op.now
  }

  lemma {:induction false} LatestIsLatest(ops: seq<Op>)
    ensures forall u :: 0 <= u < |ops| && !ops[u].Unlink? ==> ops[u].now <= Latest(ops)
  {
    if ops != [] { LatestIsLatest(ops[..|ops| - 1]); }
  }

  /**
   * The link that answers a lookup: the latest one of the address, not unlinked
   * since, younger than its ttl, and not evicted since.
   */
  ghost predicate Stands(limits: Limits, ops: seq<Op>, addr: string, now: nat) {
    var g := Governing(ops, addr);
    && limits.maxEntries > 0 && g.Some?
    && (if ops[g.value].now + limits.ttl <= limits.horizon then now < ops[g.value].now + limits.ttl
        else now < ops[g.value].now)
    && forall u: nat :: g.value < u < |ops| ==> !Evicts(limits, ops, u, addr)
  }

  class Links {
    const sticky: StickyCache
    /** All calls so far. */
    ghost var history: seq<Op>

    ghost predicate Valid()
      reads this, sticky
    {
      && sticky.Valid() && sticky.lru == Run(sticky.limits, history)
      && sticky.clock <= Latest(history) && sticky.nextGeneration <= |history|
    }

    constructor (maxEntries: nat, ttl: nat, horizon: nat)
      ensures Valid() && fresh(sticky) && history == [] && sticky.limits == Limits(maxEntries, ttl, horizon)
    {
      sticky := new StickyCache(maxEntries, ttl, horizon);
      history := [];
    }

    method LinkProxy(addr: string, proxy: ProxyConfig, now: nat)
      requires Valid() && Latest(history) <= now && |history| + 1 < GENERATIONS
      modifies this`history, sticky
      ensures Valid() && history == old(history) + [Op.Link(addr, proxy, now)]
    {
      sticky.Link(addr, proxy, now);
      Record(Op.Link(addr, proxy, now));
    }

    method UnlinkProxy(addr: string)
      requires Valid()
      modifies this`history, sticky
      ensures Valid() && history == old(history) + [Unlink(addr)]
    {
      var _ := sticky.RemoveEntry(addr);
      Record(Unlink(addr));
    }

    /** An upstream that is quarantined now is not returned; its entry stays. */
    method GetLinked(addr: string, now: nat, quarantined: ProxyConfig -> bool) returns (proxy: Option<ProxyConfig>)
      requires Valid() && Latest(history) <= now && |history| + 1 < GENERATIONS
      modifies this`history, sticky
      ensures Valid() && history == old(history) + [Op.Lookup(addr, now)]
      ensures proxy.Some? <==>
        && Stands(sticky.limits, old(history), addr, now)
        && !quarantined(old(history)[Governing(old(history), addr).value].proxy)
      ensures proxy.Some? ==> proxy.value == old(history)[Governing(old(history), addr).value].proxy
    {
      LatestIsLatest(history);
      OnlyEvictionLoses(sticky.limits, history, addr, now);
      LookupIsLatestLink(sticky.limits, history, addr, now);
      var linked := sticky.Lookup(addr, now);
      Record(Op.Lookup(addr, now));
      if linked.None? || quarantined(linked.value) { return None; }
      return linked;
    }

    /** A call was made: the cache holds what the history with it leaves. */
    ghost method Record(op: Op)
      requires sticky.Valid() && sticky.lru == Apply(sticky.limits, Run(sticky.limits, history), op)
      requires sticky.clock <= (if op.Unlink? then Latest(history) else Latest(history + [op]))
      requires sticky.nextGeneration <= |history| + 1
      modifies this`history
      ensures Valid() && history == old(history) + [op]
    {
      assert (history + [op])[..|history|] == history;
      history := history + [op];
    }
  }
}
