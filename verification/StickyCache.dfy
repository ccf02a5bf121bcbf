/**
 * The sticky cache as it is stored: a hash map and two ordered sets, kept in
 * step by every operation, and together standing for one LRU list.
 */
module StickyCaching {
  import opened Wrappers
  import opened ChainIdentity
  import opened Clock
  import opened Lru

  const GENERATIONS: nat := 0x1_0000_0000_0000_0000

  datatype Entry = Entry(proxy: ProxyConfig, lastUsed: nat, expiresAt: nat, generation: nat)

  type Recency = (nat, nat, string)
  type Expiry = (nat, string)

  predicate UsedNoLater(a: Recency, b: Recency) {
    a.0 < b.0 || (a.0 == b.0 && (a.1 < b.1 || (a.1 == b.1 && StringLe(a.2, b.2))))
  }

  function RecencyOf(key: string, e: Entry): Recency {
    (e.lastUsed, e.generation, key)
  }

  type Entries = map<string, Entry>

  /** The three structures. */
  datatype Tables = Tables(entries: Entries, recency: set<Recency>, expiry: set<Expiry>)

  ghost function RecencyRecords(entries: Entries): set<Recency> {
    set key | key in entries :: RecencyOf(key, entries[key])
  }

  ghost function ExpiryRecords(entries: Entries): set<Expiry> {
    set key | key in entries :: (entries[key].expiresAt, key)
  }

  ghost predicate Mirrors(entries: Entries, item: Item) {
    item.key in entries && entries[item.key].proxy == item.proxy && entries[item.key].expiresAt == item.expiresAt
  }

  /** The map holds exactly the items of the list. */
  ghost predicate Listed(entries: Entries, l: seq<Item>) {
    && UniqueKeys(l)
    && (forall i {:trigger Mirrors(entries, l[i])} :: 0 <= i < |l| ==> Mirrors(entries, l[i]))
    && (forall key {:trigger Cached(l, key)} :: key in entries ==> Cached(l, key))
  }

  /** Time never runs backwards and generations only grow, so both stamps order touches. */
  ghost predicate UsedBefore(entries: Entries, a: string, b: string) {
    && a in entries && b in entries
    && entries[a].generation < entries[b].generation && entries[a].lastUsed <= entries[b].lastUsed
  }

  ghost predicate StampedBy(e: Entry, next: nat, clock: nat) {
    e.generation < next && e.lastUsed <= clock
  }

  /** The list is in order of the stamps, and no stamp lies in the future. */
  ghost predicate Stamped(entries: Entries, l: seq<Item>, next: nat, clock: nat) {
    && (forall i, j {:trigger UsedBefore(entries, l[i].key, l[j].key)} ::
          0 <= i < j < |l| ==> UsedBefore(entries, l[i].key, l[j].key))
    && (forall key {:trigger entries[key]} :: key in entries ==> StampedBy(entries[key], next, clock))
  }

  /** `t` stores the list `l`: one map entry, one recency record and one expiry record an item. */
  ghost predicate Stores(t: Tables, l: seq<Item>, next: nat, clock: nat) {
    && Listed(t.entries, l) && Stamped(t.entries, l, next, clock)
    && t.recency == RecencyRecords(t.entries) && t.expiry == ExpiryRecords(t.entries)
  }

  /** Take one address out of all three structures. */
  function Dropped(t: Tables, key: string): Tables
    requires key in t.entries
  {
    var e := t.entries[key];
    Tables(t.entries - {key}, t.recency - {RecencyOf(key, e)}, t.expiry - {(e.expiresAt, key)})
  }

  /** Put one address into all three. */
  function Added(t: Tables, key: string, e: Entry): Tables {
    Tables(t.entries[key := e], t.recency + {RecencyOf(key, e)}, t.expiry + {(e.expiresAt, key)})
  }

  /** Where the items of a shortened list come from. */
  lemma RemovedFrom(l: seq<Item>, key: string)
    requires UniqueKeys(l) && Cached(l, key)
    ensures var l', p := Remove(l, key), Position(l, key);
      |l'| == |l| - 1 && forall j :: 0 <= j < |l'| ==> l'[j] == l[if j < p then j else j + 1] && l'[j].key != key
  {
    var l', p := Remove(l, key), Position(l, key);
    forall j | 0 <= j < |l'| ensures l'[j] == l[if j < p then j else j + 1] && l'[j].key != key {
      if j < p { assert l'[j] == l[j]; } else { assert l'[j] == l[j + 1] && l[p].key != l[j + 1].key; }
    }
  }

  lemma DropListed(entries: Entries, l: seq<Item>, key: string)
    requires Listed(entries, l) && key in entries
    ensures Cached(l, key) && Listed(entries - {key}, Remove(l, key))
  {
    var l', p := Remove(l, key), Position(l, key);
    RemoveForgets(l, key);
    RemovedFrom(l, key);
    forall j | 0 <= j < |l'| ensures Mirrors(entries - {key}, l'[j]) {
      assert Mirrors(entries, l[if j < p then j else j + 1]);
    }
    forall k | k in entries - {key} ensures Cached(l', k) {
      assert Cached(l, k);
      assert l[Position(l, k)] in l';
    }
  }

  lemma StillUsedBefore(entries: Entries, key: string, a: string, b: string)
    requires UsedBefore(entries, a, b) && a != key && b != key
    ensures UsedBefore(entries - {key}, a, b)
  {
  }

  lemma DropStamped(entries: Entries, l: seq<Item>, next: nat, clock: nat, key: string)
    requires Listed(entries, l) && Stamped(entries, l, next, clock) && key in entries && Cached(l, key)
    ensures Stamped(entries - {key}, Remove(l, key), next, clock)
  {
    var l', p := Remove(l, key), Position(l, key);
    RemovedFrom(l, key);
    forall i, j | 0 <= i < j < |l'| ensures UsedBefore(entries - {key}, l'[i].key, l'[j].key) {
      var a, b := if i < p then i else i + 1, if j < p then j else j + 1;
      assert l'[i] == l[a] && l'[j] == l[b];
      StillUsedBefore(entries, key, l[a].key, l[b].key);
    }
    forall k | k in entries - {key} ensures StampedBy((entries - {key})[k], next, clock) {
      assert StampedBy(entries[k], next, clock);
    }
  }

  lemma RecordsDrop(entries: Entries, key: string)
    requires key in entries
    ensures RecencyRecords(entries - {key}) == RecencyRecords(entries) - {RecencyOf(key, entries[key])}
    ensures ExpiryRecords(entries - {key}) == ExpiryRecords(entries) - {(entries[key].expiresAt, key)}
  {
    var entries' := entries - {key};
    forall r
      ensures r in RecencyRecords(entries') <==> r in RecencyRecords(entries) && r != RecencyOf(key, entries[key])
    {
      if r in RecencyRecords(entries) && r != RecencyOf(key, entries[key]) {
        var k :| k in entries && RecencyOf(k, entries[k]) == r;
        assert k in entries' && entries'[k] == entries[k];
      }
    }
    forall r
      ensures r in ExpiryRecords(entries') <==> r in ExpiryRecords(entries) && r != (entries[key].expiresAt, key)
    {
      if r in ExpiryRecords(entries) && r != (entries[key].expiresAt, key) {
        var k :| k in entries && (entries[k].expiresAt, k) == r;
        assert k in entries' && entries'[k] == entries[k];
      }
    }
  }

  lemma DropStores(t: Tables, l: seq<Item>, next: nat, clock: nat, key: string)
    requires Stores(t, l, next, clock) && key in t.entries
    ensures Cached(l, key) && Stores(Dropped(t, key), Remove(l, key), next, clock)
  {
    DropListed(t.entries, l, key);
    DropStamped(t.entries, l, next, clock, key);
    RecordsDrop(t.entries, key);
  }

  lemma AddListed(entries: Entries, l: seq<Item>, item: Item, e: Entry)
    requires Listed(entries, l) && item.key !in entries
    requires e.proxy == item.proxy && e.expiresAt == item.expiresAt
    ensures Listed(entries[item.key := e], l + [item])
  {
    var entries', l' := entries[item.key := e], l + [item];
    forall i | 0 <= i < |l'| ensures Mirrors(entries', l'[i]) && (i < |l| ==> l'[i].key != item.key) {
      if i < |l| { assert Mirrors(entries, l[i]); }
    }
    forall k | k in entries' ensures Cached(l', k) {
      if k in entries {
        assert Cached(l, k);
        assert l'[Position(l, k)].key == k;
      } else {
        assert l'[|l|].key == k;
      }
    }
  }

  lemma AddStamped(entries: Entries, l: seq<Item>, next: nat, clock: nat, item: Item, e: Entry)
    requires Listed(entries, l) && Stamped(entries, l, next, clock) && item.key !in entries
    requires e.generation == next && e.lastUsed >= clock
    ensures Stamped(entries[item.key := e], l + [item], next + 1, e.lastUsed)
  {
    var entries', l' := entries[item.key := e], l + [item];
    forall i, j | 0 <= i < j < |l'| ensures UsedBefore(entries', l'[i].key, l'[j].key) {
      assert Mirrors(entries, l[i]) && StampedBy(entries[l[i].key], next, clock);
      if j < |l| { assert UsedBefore(entries, l[i].key, l[j].key); }
    }
    forall k | k in entries' ensures StampedBy(entries'[k], next + 1, e.lastUsed) {
      if k in entries && k != item.key { assert StampedBy(entries[k], next, clock); }
    }
  }

  lemma RecordsAdd(entries: Entries, key: string, e: Entry)
    requires key !in entries
    ensures RecencyRecords(entries[key := e]) == RecencyRecords(entries) + {RecencyOf(key, e)}
    ensures ExpiryRecords(entries[key := e]) == ExpiryRecords(entries) + {(e.expiresAt, key)}
  {
    RecordsDrop(entries[key := e], key);
    assert entries[key := e] - {key} == entries;
    assert key in entries[key := e];
  }

  lemma AddStores(t: Tables, l: seq<Item>, next: nat, clock: nat, item: Item, now: nat)
    requires Stores(t, l, next, clock) && clock <= now && item.key !in t.entries
    ensures Stores(Added(t, item.key, Entry(item.proxy, now, item.expiresAt, next)), l + [item], next + 1, now)
  {
    var e := Entry(item.proxy, now, item.expiresAt, next);
    AddListed(t.entries, l, item, e);
    AddStamped(t.entries, l, next, clock, item, e);
    RecordsAdd(t.entries, item.key, e);
  }

  /** Replacing an entry's stamps in place equals dropping and adding it. */
  lemma Retouched(t: Tables, key: string, e: Entry)
    requires key in t.entries && e.expiresAt == t.entries[key].expiresAt
    requires (e.expiresAt, key) in t.expiry
    ensures Added(Dropped(t, key), key, e) ==
      Tables(t.entries[key := e], t.recency - {RecencyOf(key, t.entries[key])} + {RecencyOf(key, e)}, t.expiry)
  {
    assert (t.entries - {key})[key := e] == t.entries[key := e];
  }

  /** An item moved to the back. */
  ghost function Moved(l: seq<Item>, key: string): seq<Item>
    requires Cached(l, key)
  {
    Remove(l, key) + [l[Position(l, key)]]
  }

  /** The tables with fresh stamps for `key`. */
  ghost function Restamped(t: Tables, key: string, now: nat, next: nat): Tables
    requires key in t.entries
  {
    var was := t.entries[key];
    var e := Entry(was.proxy, now, was.expiresAt, next);
    Tables(t.entries[key := e], t.recency - {RecencyOf(key, was)} + {RecencyOf(key, e)}, t.expiry)
  }

  /** Fresh stamps move the item to the back. */
  lemma TouchStores(t: Tables, l: seq<Item>, next: nat, clock: nat, key: string, now: nat)
    requires Stores(t, l, next, clock) && clock <= now && key in t.entries
    ensures Cached(l, key) && |Moved(l, key)| == |l|
    ensures Stores(Restamped(t, key, now, next), Moved(l, key), next + 1, now)
  {
    DropStores(t, l, next, clock, key);
    var item := l[Position(l, key)];
    assert Mirrors(t.entries, item);
    AddStores(Dropped(t, key), Remove(l, key), next, clock, item, now);
    Retouched(t, key, Entry(item.proxy, now, item.expiresAt, next));
  }

  /** The front of the recency set is the front of the list. */
  lemma FirstRecency(t: Tables, l: seq<Item>, next: nat, clock: nat)
    requires Stores(t, l, next, clock) && l != []
    ensures l[0].key in t.entries
    ensures var r := RecencyOf(l[0].key, t.entries[l[0].key]);
      r in t.recency && forall x :: x in t.recency ==> UsedNoLater(r, x) && (UsedNoLater(x, r) ==> x == r)
  {
    var key := l[0].key;
    assert Mirrors(t.entries, l[0]);
    StringLeTotal(key, key);
    forall x | x in t.recency
      ensures UsedNoLater(RecencyOf(key, t.entries[key]), x)
      ensures UsedNoLater(x, RecencyOf(key, t.entries[key])) ==> x == RecencyOf(key, t.entries[key])
    {
      var k :| k in t.entries && RecencyOf(k, t.entries[k]) == x;
      assert Cached(l, k);
      var i := Position(l, k);
      assert Mirrors(t.entries, l[i]);
      if i > 0 { assert UsedBefore(t.entries, l[0].key, l[i].key); }
    }
  }

  /** The front of the expiry set is the entry that expires soonest. */
  lemma FirstExpiry(t: Tables, l: seq<Item>, next: nat, clock: nat)
    requires Stores(t, l, next, clock) && l != []
    ensures var item := l[SoonestExpiry(l)]; var r := (item.expiresAt, item.key);
      r in t.expiry && forall x :: x in t.expiry ==> ExpiresNoLater(r, x) && (ExpiresNoLater(x, r) ==> x == r)
  {
    var item := l[SoonestExpiry(l)];
    assert Mirrors(t.entries, item);
    forall x | x in t.expiry
      ensures ExpiresNoLater((item.expiresAt, item.key), x)
      ensures ExpiresNoLater(x, (item.expiresAt, item.key)) ==> x == (item.expiresAt, item.key)
    {
      var k :| k in t.entries && (t.entries[k].expiresAt, k) == x;
      assert Cached(l, k);
      var i := Position(l, k);
      assert Mirrors(t.entries, l[i]);
      SoonestExpiryIsLeast(l, i);
      StringLeTotal(item.key, k);
    }
  }

  lemma SizesAgree(t: Tables, l: seq<Item>, next: nat, clock: nat)
    requires Stores(t, l, next, clock)
    ensures |t.entries| == |l|
  {
    var keys := set i | 0 <= i < |l| :: l[i].key;
    KeysCount(l);
    forall key ensures key in keys <==> key in t.entries {
      if key in t.entries {
        assert Cached(l, key);
        assert l[Position(l, key)].key == key;
      }
      if key in keys {
        var i :| 0 <= i < |l| && l[i].key == key;
        assert Mirrors(t.entries, l[i]);
      }
    }
    assert keys == t.entries.Keys;
  }

  lemma {:induction false} KeysCount(l: seq<Item>)
    requires UniqueKeys(l)
    ensures |set i | 0 <= i < |l| :: l[i].key| == |l|
  {
    if l != [] {
      var n := |l| - 1;
      KeysCount(l[..n]);
      var front := set i | 0 <= i < |l[..n]| :: l[..n][i].key;
      assert (set i | 0 <= i < |l| :: l[i].key) == front + {l[n].key};
      assert l[n].key !in front;
    }
  }

  class StickyCache {
    const limits: Limits
    var entries: Entries
    var recency: set<Recency>
    var expiry: set<Expiry>
    var nextGeneration: nat
    /** The list the three structures stand for. */
    ghost var lru: seq<Item>
    /** The latest instant seen; callers read the clock under the lock. */
    ghost var clock: nat

    ghost predicate Valid()
      reads this
    {
      && Stores(Tables(entries, recency, expiry), lru, nextGeneration, clock)
      && |lru| <= limits.maxEntries && nextGeneration < GENERATIONS
    }

    constructor (maxEntries: nat, ttl: nat, horizon: nat)
      ensures Valid() && lru == [] && clock == 0 && nextGeneration == 0
      ensures limits == Limits(maxEntries, ttl, horizon)
    {
      limits := Limits(maxEntries, ttl, horizon);
      entries, recency, expiry, nextGeneration := map[], {}, {}, 0;
      lru, clock := [], 0;
    }

    /** Take `addr` out of the map, then out of both sets. */
    method RemoveEntry(addr: string) returns (found: bool)
      requires Valid()
      modifies this`entries, this`recency, this`expiry, this`lru
      ensures Valid() && lru == Remove(old(lru), addr) && addr !in entries
      ensures forall key :: key in entries ==> key in old(entries)
      ensures found <==> Cached(old(lru), addr)
    {
      CachedIffMapped(Tables(entries, recency, expiry), lru, nextGeneration, clock, addr);
      if addr !in entries { return false; }
      DropStores(Tables(entries, recency, expiry), lru, nextGeneration, clock, addr);
      var entry := entries[addr];
      entries := entries - {addr};
      recency := recency - {(entry.lastUsed, entry.generation, addr)};
      expiry := expiry - {(entry.expiresAt, addr)};
      lru := Remove(lru, addr);
      return true;
    }

    /** Give a cached entry fresh stamps: its recency record moves, its expiry record does not. */
    method Touch(addr: string, now: nat)
      requires Valid() && clock <= now && nextGeneration + 1 < GENERATIONS && addr in entries
      modifies this`entries, this`recency, this`nextGeneration, this`lru, this`clock
      ensures Valid() && clock == now && Cached(old(lru), addr)
      ensures lru == Remove(old(lru), addr) + [old(lru)[Position(old(lru), addr)]]
      ensures nextGeneration == old(nextGeneration) + 1
    {
      TouchStores(Tables(entries, recency, expiry), lru, nextGeneration, clock, addr, now);
      var entry := entries[addr];
      recency := recency - {(entry.lastUsed, entry.generation, addr)};
      entries := entries[addr := Entry(entry.proxy, now, entry.expiresAt, nextGeneration)];
      recency := recency + {(now, nextGeneration, addr)};
      nextGeneration := (nextGeneration + 1) % GENERATIONS;
      lru, clock := Moved(lru, addr), now;
    }

    method Lookup(addr: string, now: nat) returns (proxy: Option<ProxyConfig>)
      requires Valid() && clock <= now && nextGeneration + 1 < GENERATIONS
      modifies this`entries, this`recency, this`expiry, this`nextGeneration, this`lru, this`clock
      ensures Valid() && (lru, proxy) == Get(old(lru), addr, now)
      ensures clock <= now && nextGeneration <= old(nextGeneration) + 1
    {
      CachedIffMapped(Tables(entries, recency, expiry), lru, nextGeneration, clock, addr);
      if addr !in entries { return None; }
      var entry := entries[addr];
      assert Mirrors(entries, lru[Position(lru, addr)]);
      if now >= entry.expiresAt {
        var _ := RemoveEntry(addr);
        return None;
      }
      Touch(addr, now);
      return Some(entry.proxy);
    }

    /** The address that must make room. */
    method PickVictim(now: nat) returns (victim: string)
      requires Valid() && lru != []
      ensures victim == lru[Victim(lru, now)].key
    {
      ghost var t := Tables(entries, recency, expiry);
      FirstExpiry(t, lru, nextGeneration, clock);
      FirstRecency(t, lru, nextGeneration, clock);
      var soonest :| soonest in expiry && forall x :: x in expiry ==> ExpiresNoLater(soonest, x);
      if soonest.0 <= now { return soonest.1; }
      var oldest :| oldest in recency && forall x :: x in recency ==> UsedNoLater(oldest, x);
      return oldest.2;
    }

    /** Evict one entry when the cache is full. */
    method MakeRoom(now: nat)
      requires Valid() && limits.maxEntries > 0
      modifies this`entries, this`recency, this`expiry, this`lru
      ensures Valid() && |lru| < limits.maxEntries
      ensures lru == if |old(lru)| >= limits.maxEntries then RemoveAt(old(lru), Victim(old(lru), now)) else old(lru)
      ensures forall key :: key in entries ==> key in old(entries)
    {
      SizesAgree(Tables(entries, recency, expiry), lru, nextGeneration, clock);
      if |entries| >= limits.maxEntries {
        var victim := PickVictim(now);
        DistinctPosition(lru, Victim(lru, now));
        var _ := RemoveEntry(victim);
      }
    }

    method Link(addr: string, proxy: ProxyConfig, now: nat)
      requires Valid() && clock <= now && nextGeneration + 1 < GENERATIONS
      modifies this`entries, this`recency, this`expiry, this`nextGeneration, this`lru, this`clock
      ensures Valid() && lru == Insert(limits, old(lru), addr, proxy, now)
      ensures clock <= now && nextGeneration <= old(nextGeneration) + 1
    {
      if limits.maxEntries == 0 { return; }
      var _ := RemoveEntry(addr);
      MakeRoom(now);
      var sum := CheckedAdd(now, limits.ttl, limits.horizon);
      var expiresAt := if sum.Some? then sum.value else now;
      Store(addr, proxy, expiresAt, now);
    }

    /** Put a new entry into the map and both sets. */
    method Store(addr: string, proxy: ProxyConfig, expiresAt: nat, now: nat)
      requires Valid() && clock <= now && nextGeneration + 1 < GENERATIONS
      requires addr !in entries && |lru| < limits.maxEntries
      modifies this`entries, this`recency, this`expiry, this`nextGeneration, this`lru, this`clock
      ensures Valid() && lru == old(lru) + [Item(addr, proxy, expiresAt)]
      ensures clock == now && nextGeneration == old(nextGeneration) + 1
    {
      AddStores(Tables(entries, recency, expiry), lru, nextGeneration, clock, Item(addr, proxy, expiresAt), now);
      var generation := nextGeneration;
      nextGeneration := (nextGeneration + 1) % GENERATIONS;
      recency := recency + {(now, generation, addr)};
      expiry := expiry + {(expiresAt, addr)};
      entries := entries[addr := Entry(proxy, now, expiresAt, generation)];
      lru, clock := lru + [Item(addr, proxy, expiresAt)], now;
    }
  }

  lemma CachedIffMapped(t: Tables, l: seq<Item>, next: nat, clock: nat, addr: string)
    requires Stores(t, l, next, clock)
    ensures addr in t.entries <==> Cached(l, addr)
  {
    if Cached(l, addr) { assert Mirrors(t.entries, l[Position(l, addr)]); }
  }

  lemma DistinctPosition(l: seq<Item>, i: nat)
    requires UniqueKeys(l) && i < |l|
    ensures Position(l, l[i].key) == i
  {
  }
}
