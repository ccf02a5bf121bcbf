/**
 * A rotator's upstreams: duplicates collapsed onto their first occurrence, and
 * a hash-bucket index that finds an upstream's slot whatever the hash function.
 */
module IdentityIndex {
  import opened Wrappers
  import opened ChainIdentity

  /** `i` is the first position of its identity. */
  predicate IsFirst(proxies: seq<ProxyConfig>, i: nat) {
    i < |proxies| && forall j :: 0 <= j < i ==> Id(proxies[j]) != Id(proxies[i])
  }

  /** The first positions among the first `n` proxies, ascending. */
  function FirstPositions(proxies: seq<ProxyConfig>, n: nat): (ps: seq<nat>)
    requires n <= |proxies|
    ensures forall i :: 0 <= i < |ps| ==> ps[i] < n
  {
    if n == 0 then []
    else FirstPositions(proxies, n - 1) + if IsFirst(proxies, n - 1) then [n - 1] else []
  }

  function Pick(proxies: seq<ProxyConfig>, positions: seq<nat>): seq<ProxyConfig>
    requires forall i :: 0 <= i < |positions| ==> positions[i] < |proxies|
  {
    seq(|positions|, i requires 0 <= i < |positions| => proxies[positions[i]])
  }

  lemma {:induction false} FirstPositionsAscend(proxies: seq<ProxyConfig>, n: nat)
    requires n <= |proxies|
    ensures forall p: nat :: p in FirstPositions(proxies, n) <==> p < n && IsFirst(proxies, p)
    ensures forall i, j :: 0 <= i < j < |FirstPositions(proxies, n)| ==>
      FirstPositions(proxies, n)[i] < FirstPositions(proxies, n)[j]
  {
    if n > 0 { FirstPositionsAscend(proxies, n - 1); }
  }

  /** Every identity has exactly one first position, at or before any of its occurrences. */
  lemma {:induction false} FirstExists(proxies: seq<ProxyConfig>, i: nat) returns (f: nat)
    requires i < |proxies|
    ensures f <= i && IsFirst(proxies, f) && Id(proxies[f]) == Id(proxies[i])
  {
    if IsFirst(proxies, i) {
      f := i;
    } else {
      var j :| 0 <= j < i && Id(proxies[j]) == Id(proxies[i]);
      f := FirstExists(proxies, j);
    }
  }

  /** No slot repeats an identity. */
  lemma UniqueSlots(proxies: seq<ProxyConfig>, n: nat)
    requires n <= |proxies|
    ensures DistinctIds(Pick(proxies, FirstPositions(proxies, n)))
  {
    FirstPositionsAscend(proxies, n);
    var ps := FirstPositions(proxies, n);
    forall i, j | 0 <= i < j < |ps| ensures Id(proxies[ps[i]]) != Id(proxies[ps[j]]) {
      assert ps[j] in ps;
    }
  }

  ghost predicate Absent(slots: seq<ProxyConfig>, id: Identity) {
    forall s :: 0 <= s < |slots| ==> Id(slots[s]) != id
  }

  /** The next proxy opens a slot exactly when no slot so far has its identity. */
  lemma NextSlot(proxies: seq<ProxyConfig>, n: nat)
    requires n < |proxies|
    ensures var slots := Pick(proxies, FirstPositions(proxies, n));
      && (IsFirst(proxies, n) <==> Absent(slots, Id(proxies[n])))
      && Pick(proxies, FirstPositions(proxies, n + 1)) == slots + if IsFirst(proxies, n) then [proxies[n]] else []
  {
    var ps := FirstPositions(proxies, n);
    var slots := Pick(proxies, ps);
    FirstPositionsAscend(proxies, n);
    if IsFirst(proxies, n) {
      forall s | 0 <= s < |ps| ensures Id(slots[s]) != Id(proxies[n]) {
        assert ps[s] < n;
      }
    } else {
      var f := FirstExists(proxies, n);
      assert f in ps;
      var k :| 0 <= k < |ps| && ps[k] == f;
      assert Id(slots[k]) == Id(proxies[n]);
    }
  }

  ghost predicate DistinctIds(slots: seq<ProxyConfig>) {
    forall i, j :: 0 <= i < j < |slots| ==> Id(slots[i]) != Id(slots[j])
  }

  type Buckets = map<nat, seq<nat>>

  /** Every slot is in the bucket of its hash, and buckets hold nothing else. */
  ghost predicate Indexes(buckets: Buckets, slots: seq<ProxyConfig>, hash: Identity -> nat) {
    && (forall s :: 0 <= s < |slots| ==>
          hash(Id(slots[s])) in buckets && s in buckets[hash(Id(slots[s]))])
    && (forall h, k :: h in buckets && 0 <= k < |buckets[h]| ==>
          buckets[h][k] < |slots| && hash(Id(slots[buckets[h][k]])) == h)
  }

  /** The slot of the upstream that is `proxy`, its gate link aside. */
  method FindSlot(slots: seq<ProxyConfig>, buckets: Buckets, hash: Identity -> nat, proxy: ProxyConfig)
    returns (slot: Option<nat>)
    requires Indexes(buckets, slots, hash)
    ensures slot.Some? ==> slot.value < |slots| && Id(slots[slot.value]) == Id(proxy)
    ensures slot.None? ==> forall s :: 0 <= s < |slots| ==> Id(slots[s]) != Id(proxy)
  {
    var h := hash(Id(proxy));
    if h !in buckets { return None; }
    var bucket := buckets[h];
    for k := 0 to |bucket|
      invariant forall j :: 0 <= j < k ==> Id(slots[bucket[j]]) != Id(proxy)
    {
      if Id(slots[bucket[k]]) == Id(proxy) { return Some(bucket[k]); }
    }
    forall s | 0 <= s < |slots| ensures Id(slots[s]) != Id(proxy) {
      if hash(Id(slots[s])) == h { assert s in bucket; }
    }
    return None;
  }

  /** One hash bucket grows by the new slot. */
  lemma {:induction false} IndexGrows(buckets: Buckets, slots: seq<ProxyConfig>, hash: Identity -> nat,
                                      proxy: ProxyConfig)
    requires Indexes(buckets, slots, hash)
    ensures var h := hash(Id(proxy));
      Indexes(buckets[h := (if h in buckets then buckets[h] else []) + [|slots|]], slots + [proxy], hash)
  {
    var h := hash(Id(proxy));
    var bucket := if h in buckets then buckets[h] else [];
    var buckets', slots' := buckets[h := bucket + [|slots|]], slots + [proxy];
    forall s | 0 <= s < |slots'| ensures hash(Id(slots'[s])) in buckets' && s in buckets'[hash(Id(slots'[s]))] {
      if s < |slots| {
        assert slots'[s] == slots[s] && s in buckets[hash(Id(slots[s]))];
        assert hash(Id(slots[s])) == h ==> s in bucket;
      } else {
        assert (bucket + [|slots|])[|bucket|] == s;
      }
    }
    forall g, k | g in buckets' && 0 <= k < |buckets'[g]|
      ensures buckets'[g][k] < |slots'| && hash(Id(slots'[buckets'[g][k]])) == g
    {
      if g != h || k < |bucket| { assert buckets'[g][k] == buckets[g][k]; }
    }
  }

  class Rotator {
    const slots: seq<ProxyConfig>
    const buckets: Buckets
    const hash: Identity -> nat

    ghost predicate Valid() {
      DistinctIds(slots) && Indexes(buckets, slots, hash)
    }

    /** One slot per identity, in order of first occurrence. */
    constructor (proxies: seq<ProxyConfig>, hash: Identity -> nat)
      ensures Valid() && this.hash == hash
      ensures slots == Pick(proxies, FirstPositions(proxies, |proxies|))
    {
      var unique: seq<ProxyConfig> := [];
      var byIdentity: Buckets := map[];
      for i := 0 to |proxies|
        invariant unique == Pick(proxies, FirstPositions(proxies, i))
        invariant Indexes(byIdentity, unique, hash)
      {
        NextSlot(proxies, i);
        var slot := FindSlot(unique, byIdentity, hash, proxies[i]);
        if slot.Some? {
          continue;
        }
        IndexGrows(byIdentity, unique, hash, proxies[i]);
        var h := hash(Id(proxies[i]));
        byIdentity := byIdentity[h := (if h in byIdentity then byIdentity[h] else []) + [|unique|]];
        unique := unique + [proxies[i]];
      }
      UniqueSlots(proxies, |proxies|);
      slots, buckets, this.hash := unique, byIdentity, hash;
    }

    /** Whatever the hash function, the answer is that of a search through all slots, and it is unique. */
    method IndexOf(proxy: ProxyConfig) returns (slot: Option<nat>)
      requires Valid()
      ensures forall s: nat :: slot == Some(s) <==> s < |slots| && Id(slots[s]) == Id(proxy)
    {
      slot := FindSlot(slots, buckets, hash, proxy);
    }
  }
}
