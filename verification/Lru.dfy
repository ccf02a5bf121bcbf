/** The least-recently-used list with fixed expiries that the sticky cache stands for. */
module Lru {
  import opened Wrappers
  import opened ChainIdentity
  import opened Clock

  /** One cached address. A list holds the least recently touched item first. */
  datatype Item = Item(key: string, proxy: ProxyConfig, expiresAt: nat)

  datatype Limits = Limits(maxEntries: nat, ttl: nat, horizon: nat)

  /** Lexicographic order on addresses, as the ordered sets compare them. */
  predicate StringLe(a: string, b: string) {
    a == "" || (b != "" && (a[0] < b[0] || (a[0] == b[0] && StringLe(a[1..], b[1..]))))
  }

  lemma {:induction false} StringLeTotal(a: string, b: string)
    ensures StringLe(a, b) || StringLe(b, a)
    ensures StringLe(a, b) && StringLe(b, a) ==> a == b
  {
    if a != "" && b != "" {
      StringLeTotal(a[1..], b[1..]);
      if a[0] == b[0] && a[1..] == b[1..] { assert a == [a[0]] + a[1..] == [b[0]] + b[1..] == b; }
    }
  }

  lemma {:induction false} StringLeTransitive(a: string, b: string, c: string)
    requires StringLe(a, b) && StringLe(b, c)
    ensures StringLe(a, c)
  {
    if a != "" && a[0] == b[0] == c[0] { StringLeTransitive(a[1..], b[1..], c[1..]); }
  }

  predicate ExpiresNoLater(a: (nat, string), b: (nat, string)) {
    a.0 < b.0 || (a.0 == b.0 && StringLe(a.1, b.1))
  }

  // ---- The list operations ----

  function Keys(l: seq<Item>): seq<string> {
    seq(|l|, i requires 0 <= i < |l| => l[i].key)
  }

  ghost predicate UniqueKeys(l: seq<Item>) {
    forall i, j :: 0 <= i < j < |l| ==> l[i].key != l[j].key
  }

  /** Position of `key`, or the length when it is absent. */
  function Position(l: seq<Item>, key: string): (i: nat)
    ensures i <= |l| && (i < |l| ==> l[i].key == key)
    ensures forall j :: 0 <= j < i ==> l[j].key != key
  {
    if l == [] || l[0].key == key then 0 else 1 + Position(l[1..], key)
  }

  predicate Cached(l: seq<Item>, key: string) {
    Position(l, key) < |l|
  }

  function RemoveAt(l: seq<Item>, i: nat): seq<Item>
    requires i < |l|
  {
    l[..i] + l[i + 1..]
  }

  function Remove(l: seq<Item>, key: string): seq<Item> {
    if Cached(l, key) then RemoveAt(l, Position(l, key)) else l
  }

  /** A hit moves to the back and keeps its expiry; an expired entry is dropped. */
  function Get(l: seq<Item>, key: string, now: nat): (seq<Item>, Option<ProxyConfig>) {
    if !Cached(l, key) then (l, None)
    else
      var item := l[Position(l, key)];
      if now >= item.expiresAt then (Remove(l, key), None) else (Remove(l, key) + [item], Some(item.proxy))
  }

  /** The position that expires first, ties broken by address. */
  function SoonestExpiry(l: seq<Item>): (i: nat)
    requires l != []
    ensures i < |l|
  {
    if |l| == 1 then 0
    else
      var j := SoonestExpiry(l[1..]) + 1;
      if ExpiresNoLater((l[0].expiresAt, l[0].key), (l[j].expiresAt, l[j].key)) then 0 else j
  }

  /** Who makes room: an expired entry if there is one, else the least recently touched. */
  function Victim(l: seq<Item>, now: nat): (i: nat)
    requires l != []
    ensures i < |l|
  {
    if l[SoonestExpiry(l)].expiresAt <= now then SoonestExpiry(l) else 0
  }

  function Deadline(limits: Limits, now: nat): nat {
    var sum := CheckedAdd(now, limits.ttl, limits.horizon);
    if sum.Some? then sum.value else now
  }

  function Insert(limits: Limits, l: seq<Item>, key: string, proxy: ProxyConfig, now: nat): seq<Item> {
    if limits.maxEntries == 0 then l
    else
      var kept := Remove(l, key);
      var room := if |kept| >= limits.maxEntries then RemoveAt(kept, Victim(kept, now)) else kept;
      room + [Item(key, proxy, Deadline(limits, now))]
  }

  // ---- Facts about them ----

  lemma RemovedKeeps(l: seq<Item>, i: nat, x: Item)
    requires i < |l| && x in l && x.key != l[i].key
    ensures x in RemoveAt(l, i)
  {
    var j :| 0 <= j < |l| && l[j] == x;
    assert RemoveAt(l, i)[if j < i then j else j - 1] == x;
  }

  lemma RemovedAt(l: seq<Item>, i: nat, j: nat)
    requires i < |l| && j < |RemoveAt(l, i)|
    ensures RemoveAt(l, i)[j] == l[if j < i then j else j + 1]
  {
  }

  lemma RemovedDrops(l: seq<Item>, i: nat, x: Item)
    requires UniqueKeys(l) && i < |l| && x in RemoveAt(l, i)
    ensures x in l && x.key != l[i].key
  {
    var j :| 0 <= j < |RemoveAt(l, i)| && RemoveAt(l, i)[j] == x;
    RemovedAt(l, i, j);
  }

  lemma RemoveFacts(l: seq<Item>, i: nat)
    requires UniqueKeys(l) && i < |l|
    ensures UniqueKeys(RemoveAt(l, i))
    ensures forall x :: x in RemoveAt(l, i) <==> x in l && x.key != l[i].key
  {
    var r := RemoveAt(l, i);
    forall x ensures x in r <==> x in l && x.key != l[i].key {
      if x in r { RemovedDrops(l, i, x); }
      else if x in l && x.key != l[i].key { RemovedKeeps(l, i, x); }
    }
    forall j, k | 0 <= j < k < |r| ensures r[j].key != r[k].key {
      RemovedAt(l, i, j);
      RemovedAt(l, i, k);
    }
  }

  lemma RemoveForgets(l: seq<Item>, key: string)
    requires UniqueKeys(l)
    ensures UniqueKeys(Remove(l, key)) && forall x :: x in Remove(l, key) <==> x in l && x.key != key
  {
    if Cached(l, key) { RemoveFacts(l, Position(l, key)); }
    forall x | x in l && !Cached(l, key) ensures x.key != key {
      var i :| 0 <= i < |l| && l[i] == x;
    }
  }

  /** The soonest expiry is no later than any other, so an expired entry exists exactly when it has expired. */
  lemma {:induction false} SoonestExpiryIsLeast(l: seq<Item>, k: nat)
    requires k < |l|
    ensures var i := SoonestExpiry(l); ExpiresNoLater((l[i].expiresAt, l[i].key), (l[k].expiresAt, l[k].key))
  {
    StringLeTotal(l[k].key, l[k].key);
    if |l| > 1 {
      var j := SoonestExpiry(l[1..]) + 1;
      if k > 0 {
        SoonestExpiryIsLeast(l[1..], k - 1);
        if l[0].expiresAt == l[j].expiresAt == l[k].expiresAt && StringLe(l[0].key, l[j].key) {
          StringLeTransitive(l[0].key, l[j].key, l[k].key);
        }
      } else {
        StringLeTotal(l[0].key, l[j].key);
      }
    }
  }

  /** A full insert drops one entry: an expired one when any has expired, else the front of the list. */
  lemma VictimIsRight(l: seq<Item>, now: nat)
    requires l != []
    ensures (exists i :: 0 <= i < |l| && l[i].expiresAt <= now) ==> l[Victim(l, now)].expiresAt <= now
    ensures (forall i :: 0 <= i < |l| ==> l[i].expiresAt > now) ==> Victim(l, now) == 0
  {
    if i :| 0 <= i < |l| && l[i].expiresAt <= now {
      SoonestExpiryIsLeast(l, i);
    }
  }

  // ---- Histories ----

  datatype Op = Link(key: string, proxy: ProxyConfig, now: nat) | Unlink(key: string) | Lookup(key: string, now: nat)

  function Apply(limits: Limits, l: seq<Item>, op: Op): seq<Item> {
    match op
    case Link(key, proxy, now) => Insert(limits, l, key, proxy, now)
    case Unlink(key) => Remove(l, key)
    case Lookup(key, now) => Get(l, key, now).0
  }

  /** The list after a history, oldest operation first. */
  function Run(limits: Limits, ops: seq<Op>): seq<Item> {
    if ops == [] then [] else Apply(limits, Run(limits, ops[..|ops| - 1]), ops[|ops| - 1])
  }

  /** The last operation that touched `key`: a link or a lookup. One past it, or 0. */
  function LastTouch(ops: seq<Op>, key: string): nat {
    if ops == [] then 0
    else if !ops[|ops| - 1].Unlink? && ops[|ops| - 1].key == key then |ops|
    else LastTouch(ops[..|ops| - 1], key)
  }

  /** The link that governs `key` now: the last one, unless an unlink came after it. */
  function Governing(ops: seq<Op>, key: string): (g: Option<nat>)
    ensures g.Some? ==> g.value < |ops| && ops[g.value].Link?
  {
    if ops == [] then None
    else
      var op := ops[|ops| - 1];
      if op.Link? && op.key == key then Some(|ops| - 1)
      else if op.Unlink? && op.key == key then None
      else Governing(ops[..|ops| - 1], key)
  }

  lemma {:induction false} GoverningIsLink(ops: seq<Op>, key: string)
    ensures var g := Governing(ops, key); g.Some? ==>
      && g.value < |ops| && ops[g.value].Link? && ops[g.value].key == key
      && forall u :: g.value < u < |ops| && ops[u].key == key ==> ops[u].Lookup?
  {
    if ops != [] { GoverningIsLink(ops[..|ops| - 1], key); }
  }

  /** `item` is what the governing link of its key put there. */
  ghost predicate Current(limits: Limits, ops: seq<Op>, item: Item) {
    GoverningIsLink(ops, item.key);
    var g := Governing(ops, item.key);
    g.Some? && item == Item(item.key, ops[g.value].proxy, Deadline(limits, ops[g.value].now))
  }

  ghost predicate Faithful(limits: Limits, ops: seq<Op>, l: seq<Item>) {
    && UniqueKeys(l) && |l| <= limits.maxEntries
    && (forall i :: 0 <= i < |l| ==> Current(limits, ops, l[i]))
    && (forall i, j :: 0 <= i < j < |l| ==> LastTouch(ops, l[i].key) < LastTouch(ops, l[j].key))
  }

  lemma {:induction false} LastTouchBound(ops: seq<Op>, key: string)
    ensures LastTouch(ops, key) <= |ops|
  {
    if ops != [] { LastTouchBound(ops[..|ops| - 1], key); }
  }

  lemma RemoveAtFaithful(limits: Limits, ops: seq<Op>, l: seq<Item>, i: nat)
    requires Faithful(limits, ops, l) && i < |l|
    ensures Faithful(limits, ops, RemoveAt(l, i))
  {
    var r := RemoveAt(l, i);
    assert forall j :: 0 <= j < |r| ==> r[j] == l[if j < i then j else j + 1];
  }

  /** An operation on one key changes nothing about the others. */
  lemma OtherKeysFaithful(limits: Limits, ops: seq<Op>, op: Op, l: seq<Item>)
    requires Faithful(limits, ops, l) && forall x :: x in l ==> x.key != op.key
    ensures Faithful(limits, ops + [op], l)
  {
    assert (ops + [op])[..|ops|] == ops;
    forall i | 0 <= i < |l|
      ensures Current(limits, ops + [op], l[i]) && LastTouch(ops + [op], l[i].key) == LastTouch(ops, l[i].key)
    {
      assert l[i] in l;
      assert Current(limits, ops, l[i]);
    }
  }

  lemma PushFaithful(limits: Limits, ops: seq<Op>, op: Op, l: seq<Item>, item: Item)
    requires Faithful(limits, ops, l) && |l| < limits.maxEntries
    requires (forall x :: x in l ==> x.key != op.key) && item.key == op.key && !op.Unlink?
    requires Current(limits, ops + [op], item)
    ensures Faithful(limits, ops + [op], l + [item])
  {
    OtherKeysFaithful(limits, ops, op, l);
    assert (ops + [op])[..|ops|] == ops;
    forall i | 0 <= i < |l| ensures LastTouch(ops + [op], l[i].key) < |ops + [op]| && l[i].key != item.key {
      assert l[i] in l;
      LastTouchBound(ops, l[i].key);
    }
  }

  lemma LinkFaithful(limits: Limits, ops: seq<Op>, op: Op, l: seq<Item>)
    requires Faithful(limits, ops, l) && op.Link? && limits.maxEntries > 0
    ensures Faithful(limits, ops + [op], Insert(limits, l, op.key, op.proxy, op.now))
  {
    RemoveForgets(l, op.key);
    var kept := Remove(l, op.key);
    if Cached(l, op.key) { RemoveAtFaithful(limits, ops, l, Position(l, op.key)); }
    var room := kept;
    if |kept| >= limits.maxEntries {
      room := RemoveAt(kept, Victim(kept, op.now));
      RemoveAtFaithful(limits, ops, kept, Victim(kept, op.now));
      RemoveFacts(kept, Victim(kept, op.now));
    }
    PushFaithful(limits, ops, op, room, Item(op.key, op.proxy, Deadline(limits, op.now)));
  }

  lemma LookupKeepsCurrent(limits: Limits, ops: seq<Op>, op: Op, item: Item)
    requires Current(limits, ops, item) && op.Lookup?
    ensures Current(limits, ops + [op], item)
  {
    assert (ops + [op])[..|ops|] == ops;
  }

  lemma LookupFaithful(limits: Limits, ops: seq<Op>, op: Op, l: seq<Item>)
    requires Faithful(limits, ops, l) && op.Lookup?
    ensures Faithful(limits, ops + [op], Get(l, op.key, op.now).0)
  {
    RemoveForgets(l, op.key);
    if Cached(l, op.key) {
      var item := l[Position(l, op.key)];
      RemoveAtFaithful(limits, ops, l, Position(l, op.key));
      if op.now >= item.expiresAt {
        OtherKeysFaithful(limits, ops, op, Remove(l, op.key));
      } else {
        LookupKeepsCurrent(limits, ops, op, item);
        PushFaithful(limits, ops, op, Remove(l, op.key), item);
      }
    } else {
      OtherKeysFaithful(limits, ops, op, l);
    }
  }

  /**
   * After any history the list has no duplicate and at most `maxEntries` items,
   * holds for each the proxy and deadline of the last link of its address (a
   * lookup extends neither), and is in order of last touch.
   */
  lemma {:induction false} RunIsFaithful(limits: Limits, ops: seq<Op>)
    ensures Faithful(limits, ops, Run(limits, ops))
  {
    if ops != [] {
      var n := |ops| - 1;
      var l, op := Run(limits, ops[..n]), ops[n];
      RunIsFaithful(limits, ops[..n]);
      assert ops == ops[..n] + [op];
      match op
      case Link(_, _, _) => if limits.maxEntries > 0 { LinkFaithful(limits, ops[..n], op, l); }
      case Unlink(key) =>
        RemoveForgets(l, key);
        if Cached(l, key) { RemoveAtFaithful(limits, ops[..n], l, Position(l, key)); }
        OtherKeysFaithful(limits, ops[..n], op, Remove(l, key));
      case Lookup(_, _) => LookupFaithful(limits, ops[..n], op, l);
    }
  }

  /** Operation `u` finds a cached `key` expired. */
  ghost predicate FindsExpired(limits: Limits, ops: seq<Op>, u: nat, key: string)
    requires u < |ops|
  {
    var before := Run(limits, ops[..u]);
    Cached(before, key) && ops[u].Lookup? && ops[u].key == key && ops[u].now >= before[Position(before, key)].expiresAt
  }

  /** Operation `u` evicts a cached `key` to make room. */
  ghost predicate Evicts(limits: Limits, ops: seq<Op>, u: nat, key: string)
    requires u < |ops|
  {
    var before := Run(limits, ops[..u]);
    Cached(before, key) && ops[u].Link? && ops[u].key != key && IsVictim(limits, before, ops[u], key)
  }

  /** The entry a link of another address puts out. */
  ghost predicate IsVictim(limits: Limits, before: seq<Item>, op: Op, key: string)
    requires op.Link?
  {
    var kept := Remove(before, op.key);
    |kept| >= limits.maxEntries && kept != [] && kept[Victim(kept, op.now)].key == key
  }

  /** Operation `u` loses a cached `key`. */
  ghost predicate Loses(limits: Limits, ops: seq<Op>, u: nat, key: string)
    requires u < |ops|
  {
    FindsExpired(limits, ops, u, key) || Evicts(limits, ops, u, key)
  }

  /** An address whose link was never undone is missing only because some later operation lost it. */
  lemma {:induction false} MissingWasLost(limits: Limits, ops: seq<Op>, key: string) returns (u: nat)
    requires limits.maxEntries > 0 && Governing(ops, key).Some? && !Cached(Run(limits, ops), key)
    ensures Governing(ops, key).value < u < |ops| && Loses(limits, ops, u, key)
  {
    GoverningIsLink(ops, key);
    var n := |ops| - 1;
    var before, op := Run(limits, ops[..n]), ops[n];
    RunIsFaithful(limits, ops[..n]);
    var after := Run(limits, ops);
    if op.Link? && op.key == key {
      InsertCaches(limits, before, key, op.proxy, op.now);
    } else if Cached(before, key) {
      u := n;
      LostNow(limits, before, op, key);
    } else {
      u := MissingWasLost(limits, ops[..n], key);
      assert ops[..n][..u] == ops[..u];
    }
  }

  lemma InsertCaches(limits: Limits, l: seq<Item>, key: string, proxy: ProxyConfig, now: nat)
    requires limits.maxEntries > 0
    ensures Cached(Insert(limits, l, key, proxy, now), key)
  {
    var after := Insert(limits, l, key, proxy, now);
    assert after[|after| - 1].key == key;
  }

  lemma HitStays(l: seq<Item>, key: string, now: nat)
    requires Cached(l, key) && now < l[Position(l, key)].expiresAt
    ensures Cached(Get(l, key, now).0, key)
  {
    var after := Get(l, key, now).0;
    assert after[|after| - 1].key == key;
  }

  /** What one operation can do to a cached address it does not unlink. */
  lemma LostNow(limits: Limits, before: seq<Item>, op: Op, key: string)
    requires limits.maxEntries > 0 && UniqueKeys(before) && Cached(before, key)
    requires op.key == key ==> op.Lookup?
    requires !Cached(Apply(limits, before, op), key)
    ensures (op.Lookup? && op.key == key && op.now >= before[Position(before, key)].expiresAt)
         || (op.Link? && op.key != key && IsVictim(limits, before, op, key))
  {
    var item := before[Position(before, key)];
    assert item in before;
    RemoveForgets(before, op.key);
    var kept, after := Remove(before, op.key), Apply(limits, before, op);
    forall x | x in after ensures x.key != key {
      var i :| 0 <= i < |after| && after[i] == x;
    }
    if op.Lookup? && op.key == key && op.now < item.expiresAt {
      HitStays(before, key, op.now);
    } else if op.key != key {
      assert item in kept;
      if op.Link? {
        if |kept| >= limits.maxEntries { RemoveFacts(kept, Victim(kept, op.now)); }
        var room := if |kept| >= limits.maxEntries then RemoveAt(kept, Victim(kept, op.now)) else kept;
        assert forall x :: x in room ==> x in after;
      }
    }
  }

  /**
   * An eviction makes room in a full list, for an address that is not in it;
   * it takes an expired entry if there is one, and else the one touched least
   * recently.
   */
  lemma EvictsWhenFull(limits: Limits, ops: seq<Op>, u: nat, key: string)
    requires u < |ops| && Evicts(limits, ops, u, key)
    ensures var before := Run(limits, ops[..u]);
      && |before| == limits.maxEntries && !Cached(before, ops[u].key)
      && (if exists x :: x in before && x.expiresAt <= ops[u].now
          then before[Position(before, key)].expiresAt <= ops[u].now
          else forall x :: x in before ==> LastTouch(ops[..u], key) <= LastTouch(ops[..u], x.key))
  {
    var before, now := Run(limits, ops[..u]), ops[u].now;
    RunIsFaithful(limits, ops[..u]);
    var v := Victim(before, now);
    assert Remove(before, ops[u].key) == before && before[v].key == key;
    assert Position(before, key) == v;
    VictimIsRight(before, now);
    if !exists x :: x in before && x.expiresAt <= now {
      forall i | 0 <= i < |before| ensures before[i].expiresAt > now { assert before[i] in before; }
      forall x | x in before ensures LastTouch(ops[..u], key) <= LastTouch(ops[..u], x.key) {
        var i :| 0 <= i < |before| && before[i] == x;
      }
    }
  }

  /** And a link of such an address in a full list does evict. */
  lemma FullListEvicts(limits: Limits, ops: seq<Op>, u: nat)
    requires u < |ops| && ops[u].Link? && limits.maxEntries > 0
    requires var before := Run(limits, ops[..u]); |before| == limits.maxEntries && !Cached(before, ops[u].key)
    ensures exists key :: Evicts(limits, ops, u, key)
  {
    var before := Run(limits, ops[..u]);
    var key := before[Victim(before, ops[u].now)].key;
    NotCachedMeansAbsent(before, ops[u].key);
    NotCachedMeansAbsent(before, key);
    assert Evicts(limits, ops, u, key);
  }

  // ---- A lost address stays lost ----

  lemma NotCachedMeansAbsent(l: seq<Item>, key: string)
    ensures Cached(l, key) <==> exists x :: x in l && x.key == key
  {
    if x :| x in l && x.key == key {
      var i :| 0 <= i < |l| && l[i] == x;
    }
    if Cached(l, key) { assert l[Position(l, key)] in l; }
  }

  /** Only a link of an address caches it. */
  lemma AppliedMembers(limits: Limits, l: seq<Item>, op: Op, x: Item)
    requires UniqueKeys(l) && x in Apply(limits, l, op)
    ensures x in l || (op.Link? && x.key == op.key)
  {
    RemoveForgets(l, op.key);
    if op.Link? && limits.maxEntries > 0 {
      var kept := Remove(l, op.key);
      if |kept| >= limits.maxEntries { RemoveFacts(kept, Victim(kept, op.now)); }
    }
    if Cached(l, op.key) { assert l[Position(l, op.key)] in l; }
  }

  lemma NotCachedStays(limits: Limits, l: seq<Item>, op: Op, key: string)
    requires UniqueKeys(l) && !Cached(l, key) && (op.Link? ==> op.key != key)
    ensures !Cached(Apply(limits, l, op), key)
  {
    NotCachedMeansAbsent(l, key);
    var after := Apply(limits, l, op);
    NotCachedMeansAbsent(after, key);
    forall x | x in after ensures x.key != key { AppliedMembers(limits, l, op, x); }
  }

  /** An eviction and an expired lookup really remove the address. */
  lemma LossRemoves(limits: Limits, before: seq<Item>, op: Op, key: string)
    requires UniqueKeys(before) && Cached(before, key) && limits.maxEntries > 0
    requires (op.Lookup? && op.key == key && op.now >= before[Position(before, key)].expiresAt)
          || (op.Link? && op.key != key && IsVictim(limits, before, op, key))
    ensures !Cached(Apply(limits, before, op), key)
  {
    RemoveForgets(before, op.key);
    var after := Apply(limits, before, op);
    NotCachedMeansAbsent(after, key);
    if op.Link? {
      var kept := Remove(before, op.key);
      RemoveFacts(kept, Victim(kept, op.now));
    }
  }

  lemma {:induction false} LostStaysLost(limits: Limits, ops: seq<Op>, u: nat, key: string)
    requires limits.maxEntries > 0 && u < |ops| && Loses(limits, ops, u, key)
    requires forall v :: u < v < |ops| && ops[v].key == key ==> !ops[v].Link?
    ensures !Cached(Run(limits, ops), key)
    decreases |ops|
  {
    var n := |ops| - 1;
    RunIsFaithful(limits, ops[..n]);
    if u == n {
      LossRemoves(limits, Run(limits, ops[..n]), ops[n], key);
    } else {
      assert ops[..n][..u] == ops[..u];
      LostStaysLost(limits, ops[..n], u, key);
      NotCachedStays(limits, Run(limits, ops[..n]), ops[n], key);
    }
  }

  lemma {:induction false} NothingWithoutRoom(limits: Limits, ops: seq<Op>)
    requires limits.maxEntries == 0
    ensures Run(limits, ops) == []
  {
    if ops != [] { NothingWithoutRoom(limits, ops[..|ops| - 1]); }
  }

  // ---- What a lookup returns ----

  lemma CachedIsCurrent(limits: Limits, ops: seq<Op>, key: string)
    requires Cached(Run(limits, ops), key)
    ensures var l := Run(limits, ops); Current(limits, ops, l[Position(l, key)])
  {
    RunIsFaithful(limits, ops);
  }

  /**
   * A lookup returns a proxy exactly when the address has a governing link,
   * less than the ttl ago, and no operation since has lost the entry; and it
   * returns the proxy of that link. A link whose ttl ends after the clock does
   * is over at once.
   */
  lemma {:induction false} LookupIsLatestLink(limits: Limits, ops: seq<Op>, key: string, now: nat)
    ensures var r, g := Get(Run(limits, ops), key, now).1, Governing(ops, key);
      && (r.Some? <==>
            && limits.maxEntries > 0 && g.Some?
            && (if ops[g.value].now + limits.ttl <= limits.horizon then now < ops[g.value].now + limits.ttl
                else now < ops[g.value].now)
            && forall u: nat :: g.value < u < |ops| ==> !Loses(limits, ops, u, key))
      && (r.Some? ==> r.value == ops[g.value].proxy)
  {
    var l, g := Run(limits, ops), Governing(ops, key);
    GoverningIsLink(ops, key);
    if limits.maxEntries == 0 {
      NothingWithoutRoom(limits, ops);
    } else if Cached(l, key) {
      CachedIsCurrent(limits, ops, key);
      forall u: nat | g.value < u < |ops| ensures !Loses(limits, ops, u, key) {
        if Loses(limits, ops, u, key) { LostStaysLost(limits, ops, u, key); }
      }
    } else if g.Some? {
      var u := MissingWasLost(limits, ops, key);
    }
  }

  lemma {:induction false} GoverningBefore(ops: seq<Op>, key: string, u: nat)
    requires Governing(ops, key).Some? && Governing(ops, key).value < u <= |ops|
    ensures Governing(ops[..u], key) == Governing(ops, key)
    decreases |ops|
  {
    if u < |ops| {
      GoverningBefore(ops[..|ops| - 1], key, u);
      assert ops[..|ops| - 1][..u] == ops[..u];
    } else {
      assert ops[..u] == ops;
    }
  }

  lemma NotFoundExpired(limits: Limits, ops: seq<Op>, key: string, now: nat, u: nat)
    requires Governing(ops, key).Some? && Governing(ops, key).value < u < |ops|
    requires now < Deadline(limits, ops[Governing(ops, key).value].now)
    requires ops[u].Lookup? ==> ops[u].now <= now
    ensures !FindsExpired(limits, ops, u, key)
  {
    GoverningBefore(ops, key, u);
    if Cached(Run(limits, ops[..u]), key) { CachedIsCurrent(limits, ops[..u], key); }
  }

  /** With a clock that does not run backwards, an entry whose ttl has not passed can only have been evicted. */
  lemma {:induction false} OnlyEvictionLoses(limits: Limits, ops: seq<Op>, key: string, now: nat)
    requires forall u :: 0 <= u < |ops| && ops[u].Lookup? ==> ops[u].now <= now
    ensures var r, g := Get(Run(limits, ops), key, now).1, Governing(ops, key);
      r.Some? <==>
        && limits.maxEntries > 0 && g.Some?
        && (if ops[g.value].now + limits.ttl <= limits.horizon then now < ops[g.value].now + limits.ttl
            else now < ops[g.value].now)
        && forall u: nat :: g.value < u < |ops| ==> !Evicts(limits, ops, u, key)
  {
    LookupIsLatestLink(limits, ops, key, now);
    var g := Governing(ops, key);
    if g.Some? && now < Deadline(limits, ops[g.value].now) {
      forall u: nat | g.value < u < |ops| ensures Loses(limits, ops, u, key) <==> Evicts(limits, ops, u, key) {
        NotFoundExpired(limits, ops, key, now, u);
      }
    }
  }
}
