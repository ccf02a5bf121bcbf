/**
 * The lazy Cartesian plan over gate layers and exits: an odometer that jumps
 * over subtrees whose node has died and skips chains excluded one by one.
 */
module ChainPlanning {
  import opened Wrappers
  import opened ChainIdentity
  import opened Odometer

  datatype Candidate = Candidate(hop: Hop, key: Key)

  /** The candidates of every layer: gates outermost first, exits last. */
  type Layers = seq<seq<Candidate>>

  /** One rotator's selection order, as drawn when the plan is made. */
  datatype Order = Order(rotator: Rotator, picks: seq<ProxyConfig>)

  function SingletonKey(proxy: ProxyConfig): (key: Key)
    ensures key == [Id(proxy)]
  {
    KeyOf(proxy.(gate := None))
  }

  // ---- Candidates ----

  ghost predicate DistinctKeys(candidates: seq<Candidate>) {
    forall i, j :: 0 <= i < j < |candidates| ==> candidates[i].key != candidates[j].key
  }

  ghost predicate Keyed(candidates: seq<Candidate>) {
    forall i :: 0 <= i < |candidates| ==> candidates[i].key == [Id(candidates[i].hop.proxy)]
  }

  function KeysOf(candidates: seq<Candidate>): set<Key> {
    set i | 0 <= i < |candidates| :: candidates[i].key
  }

  /** The first hop of each identity, in order. */
  function FirstOccurrences(hops: seq<Hop>): seq<Candidate> {
    if hops == [] then []
    else
      var last := hops[|hops| - 1];
      var before := FirstOccurrences(hops[..|hops| - 1]);
      var key := SingletonKey(last.proxy);
      if key in KeysOf(before) then before else before + [Candidate(last, key)]
  }

  lemma KeysOfSnoc(candidates: seq<Candidate>, c: Candidate)
    ensures KeysOf(candidates + [c]) == KeysOf(candidates) + {c.key}
    ensures DistinctKeys(candidates) && c.key !in KeysOf(candidates) ==> DistinctKeys(candidates + [c])
  {
    var more := candidates + [c];
    assert more[|candidates|] == c;
    forall i | 0 <= i < |candidates| ensures more[i].key in KeysOf(candidates) {
      assert more[i] == candidates[i];
    }
    forall key | key in KeysOf(candidates) ensures key in KeysOf(more) {
      var i :| 0 <= i < |candidates| && candidates[i].key == key;
      assert more[i].key == key;
    }
  }

  lemma {:induction false} FirstOccurrencesDistinct(hops: seq<Hop>)
    ensures DistinctKeys(FirstOccurrences(hops)) && Keyed(FirstOccurrences(hops))
  {
    if hops != [] {
      var n := |hops| - 1;
      FirstOccurrencesDistinct(hops[..n]);
      KeysOfSnoc(FirstOccurrences(hops[..n]), Candidate(hops[n], SingletonKey(hops[n].proxy)));
    }
  }

  ghost predicate Covers(hops: seq<Hop>, candidates: seq<Candidate>) {
    && (forall i :: 0 <= i < |hops| ==> [Id(hops[i].proxy)] in KeysOf(candidates))
    && forall i :: 0 <= i < |candidates| ==> candidates[i].hop in hops
  }

  lemma CoversSeen(hops: seq<Hop>, candidates: seq<Candidate>, hop: Hop)
    requires Covers(hops, candidates) && SingletonKey(hop.proxy) in KeysOf(candidates)
    ensures Covers(hops + [hop], candidates)
  {
    forall i | 0 <= i < |candidates| ensures candidates[i].hop in hops + [hop] {
      assert candidates[i].hop in hops;
    }
  }

  lemma SnocKeepsKeys(hops: seq<Hop>, candidates: seq<Candidate>, hop: Hop, i: nat)
    requires Covers(hops, candidates) && i <= |hops|
    ensures [Id((hops + [hop])[i].proxy)] in KeysOf(candidates) + {SingletonKey(hop.proxy)}
  {
  }

  lemma SnocKeepsHops(hops: seq<Hop>, candidates: seq<Candidate>, c: Candidate, i: nat)
    requires Covers(hops, candidates) && i <= |candidates|
    ensures (candidates + [c])[i].hop in hops + [c.hop]
  {
    if i < |candidates| {
      assert candidates[i].hop in hops;
    } else {
      assert (hops + [c.hop])[|hops|] == c.hop;
    }
  }

  lemma CoversNew(hops: seq<Hop>, candidates: seq<Candidate>, hop: Hop)
    requires Covers(hops, candidates)
    ensures Covers(hops + [hop], candidates + [Candidate(hop, SingletonKey(hop.proxy))])
  {
    var c := Candidate(hop, SingletonKey(hop.proxy));
    KeysOfSnoc(candidates, c);
    forall i | 0 <= i <= |hops| ensures [Id((hops + [hop])[i].proxy)] in KeysOf(candidates + [c]) {
      SnocKeepsKeys(hops, candidates, hop, i);
    }
    forall i | 0 <= i <= |candidates| ensures (candidates + [c])[i].hop in hops + [hop] {
      SnocKeepsHops(hops, candidates, c, i);
    }
  }

  lemma OccurrencesSnoc(hops: seq<Hop>, hop: Hop)
    ensures var before, key := FirstOccurrences(hops), SingletonKey(hop.proxy);
      FirstOccurrences(hops + [hop]) == if key in KeysOf(before) then before else before + [Candidate(hop, key)]
  {
    assert (hops + [hop])[..|hops|] == hops;
  }

  lemma StillCovers(hops: seq<Hop>, before: seq<Candidate>, hop: Hop, after: seq<Candidate>)
    requires Covers(hops, before)
    requires after == if SingletonKey(hop.proxy) in KeysOf(before) then before
                      else before + [Candidate(hop, SingletonKey(hop.proxy))]
    ensures Covers(hops + [hop], after)
  {
    if SingletonKey(hop.proxy) in KeysOf(before) {
      CoversSeen(hops, before, hop);
    } else {
      CoversNew(hops, before, hop);
    }
  }

  lemma NextCovers(hops: seq<Hop>, hop: Hop)
    requires Covers(hops, FirstOccurrences(hops))
    ensures Covers(hops + [hop], FirstOccurrences(hops + [hop]))
  {
    OccurrencesSnoc(hops, hop);
    StillCovers(hops, FirstOccurrences(hops), hop, FirstOccurrences(hops + [hop]));
  }

  lemma {:induction false} OccurrencesCover(hops: seq<Hop>)
    ensures Covers(hops, FirstOccurrences(hops))
  {
    if hops != [] {
      var front, last := hops[..|hops| - 1], hops[|hops| - 1];
      assert hops == front + [last];
      OccurrencesCover(front);
      NextCovers(front, last);
    }
  }

  /** De-duplication repeats no identity, loses none, and invents no hop. */
  lemma {:induction false} FirstOccurrencesCover(hops: seq<Hop>)
    ensures DistinctKeys(FirstOccurrences(hops)) && Keyed(FirstOccurrences(hops))
    ensures Covers(hops, FirstOccurrences(hops))
  {
    FirstOccurrencesDistinct(hops);
    OccurrencesCover(hops);
  }

  function HopsOf(order: Order): seq<Hop> {
    seq(|order.picks|, i requires 0 <= i < |order.picks| => Hop(order.rotator, order.picks[i]))
  }

  function AllHops(orders: seq<Order>): seq<Hop> {
    if orders == [] then [] else AllHops(orders[..|orders| - 1]) + HopsOf(orders[|orders| - 1])
  }

  // ---- Where the candidates come from ----

  /** `a` is a place in the orders: of one of them, and of one of its picks. */
  type Place = (nat, nat)

  predicate IsPlace(orders: seq<Order>, a: Place) {
    a.0 < |orders| && a.1 < |orders[a.0].picks|
  }

  predicate Earlier(a: Place, b: Place) {
    a.0 < b.0 || (a.0 == b.0 && a.1 < b.1)
  }

  function IdAt(orders: seq<Order>, a: Place): Identity
    requires IsPlace(orders, a)
  {
    Id(orders[a.0].picks[a.1])
  }

  /** No earlier place has the same identity. */
  ghost predicate FirstOfItsId(orders: seq<Order>, a: Place)
    requires IsPlace(orders, a)
  {
    forall b :: IsPlace(orders, b) && Earlier(b, a) ==> IdAt(orders, b) != IdAt(orders, a)
  }

  ghost predicate InPlace(orders: seq<Order>, a: Place, hop: Hop) {
    IsPlace(orders, a) && hop == Hop(orders[a.0].rotator, orders[a.0].picks[a.1])
  }

  /** The candidates are the picks at these places, in order: exactly those whose identity has not occurred before. */
  ghost predicate FirstPlaces(candidates: seq<Candidate>, orders: seq<Order>, places: seq<Place>) {
    && |places| == |candidates|
    && (forall i :: 0 <= i < |places| ==> InPlace(orders, places[i], candidates[i].hop))
    && (forall i, j :: 0 <= i < j < |places| ==> Earlier(places[i], places[j]))
    && (forall a :: IsPlace(orders, a) ==> (a in places <==> FirstOfItsId(orders, a)))
  }

  ghost predicate Chosen(candidates: seq<Candidate>, orders: seq<Order>) {
    exists places :: FirstPlaces(candidates, orders, places)
  }

  ghost predicate Rising(ps: seq<nat>) {
    forall i, j :: 0 <= i < j < |ps| ==> ps[i] < ps[j]
  }

  ghost predicate AreNotSeen(hops: seq<Hop>, ps: seq<nat>) {
    forall p: nat :: p < |hops| ==> (p in ps <==> NotSeen(hops, p))
  }

  /** Each hop is the one at its position. */
  ghost predicate HopsOfPositions(hops: seq<Hop>, candidates: seq<Candidate>, ps: seq<nat>) {
    |ps| == |candidates| && forall i :: 0 <= i < |ps| ==> ps[i] < |hops| && candidates[i].hop == hops[ps[i]]
  }

  /** The positions of first occurrences in a list of hops. */
  ghost predicate FirstPositions(hops: seq<Hop>, candidates: seq<Candidate>, ps: seq<nat>) {
    HopsOfPositions(hops, candidates, ps) && Rising(ps) && AreNotSeen(hops, ps)
  }

  ghost predicate NotSeen(hops: seq<Hop>, p: nat)
    requires p < |hops|
  {
    forall q :: 0 <= q < p ==> !SameId(hops, q, p)
  }

  predicate SameId(hops: seq<Hop>, q: nat, p: nat)
    requires q < |hops| && p < |hops|
  {
    Id(hops[q].proxy) == Id(hops[p].proxy)
  }

  /** A hop opens a candidate exactly when its identity has not occurred. */
  lemma SeenBefore(hops: seq<Hop>, n: nat)
    requires n < |hops|
    ensures SingletonKey(hops[n].proxy) in KeysOf(FirstOccurrences(hops[..n])) <==> !NotSeen(hops, n)
  {
    var candidates, key := FirstOccurrences(hops[..n]), SingletonKey(hops[n].proxy);
    FirstOccurrencesCover(hops[..n]);
    if key in KeysOf(candidates) {
      var i :| 0 <= i < |candidates| && candidates[i].key == key;
      assert candidates[i].hop in hops[..n] && candidates[i].key == [Id(candidates[i].hop.proxy)];
      var q :| 0 <= q < n && hops[..n][q] == candidates[i].hop;
      assert [Id(hops[q].proxy)][0] == [Id(hops[n].proxy)][0];
      assert SameId(hops, q, n);
    }
    if !NotSeen(hops, n) {
      var q :| 0 <= q < n && SameId(hops, q, n);
      assert [Id(hops[..n][q].proxy)] in KeysOf(candidates);
    }
  }

  lemma NotSeenPrefix(hops: seq<Hop>, n: nat, p: nat)
    requires p < n <= |hops|
    ensures NotSeen(hops[..n], p) <==> NotSeen(hops, p)
  {
    assert forall q :: 0 <= q < p ==> SameId(hops[..n], q, p) == SameId(hops, q, p);
  }

  lemma HopsSnoc(hops: seq<Hop>, n: nat, cs: seq<Candidate>, before: seq<nat>, cs': seq<Candidate>)
    requires |hops| == n + 1 && HopsOfPositions(hops[..n], cs, before)
    requires |cs'| == |cs| + 1 && cs'[..|cs|] == cs && cs'[|cs|].hop == hops[n]
    ensures HopsOfPositions(hops, cs', before + [n])
  {
    forall i | 0 <= i < |before| ensures before[i] < |hops| && cs'[i].hop == hops[before[i]] {
      assert cs'[i] == cs'[..|cs|][i] == cs[i];
    }
  }

  lemma HopsStay(hops: seq<Hop>, n: nat, cs: seq<Candidate>, before: seq<nat>)
    requires |hops| == n + 1 && HopsOfPositions(hops[..n], cs, before)
    ensures HopsOfPositions(hops, cs, before)
  {
    assert forall i :: 0 <= i < |before| ==> hops[..n][before[i]] == hops[before[i]];
  }

  lemma RisingSnoc(before: seq<nat>, n: nat)
    requires Rising(before) && forall i :: 0 <= i < |before| ==> before[i] < n
    ensures Rising(before + [n])
  {
  }

  lemma NotSeenSnoc(hops: seq<Hop>, n: nat, before: seq<nat>, ps: seq<nat>)
    requires |hops| == n + 1 && AreNotSeen(hops[..n], before) && forall i :: 0 <= i < |before| ==> before[i] < n
    requires ps == if NotSeen(hops, n) then before + [n] else before
    ensures AreNotSeen(hops, ps)
  {
    assert n !in before;
    forall p: nat | p < |hops| ensures p in ps <==> NotSeen(hops, p) {
      assert p in before + [n] <==> p in before || p == n;
      if p < n { NotSeenPrefix(hops, n, p); }
    }
  }

  lemma {:induction false} OccurrencesAt(hops: seq<Hop>) returns (ps: seq<nat>)
    ensures FirstPositions(hops, FirstOccurrences(hops), ps)
  {
    if hops == [] {
      ps := [];
    } else {
      var n := |hops| - 1;
      var before := OccurrencesAt(hops[..n]);
      SeenBefore(hops, n);
      ps := if NotSeen(hops, n) then before + [n] else before;
      NotSeenSnoc(hops, n, before, ps);
      if NotSeen(hops, n) {
        RisingSnoc(before, n);
        HopsSnoc(hops, n, FirstOccurrences(hops[..n]), before, FirstOccurrences(hops));
      } else {
        HopsStay(hops, n, FirstOccurrences(hops), before);
      }
    }
  }

  /** All places, in order. */
  function Places(orders: seq<Order>): seq<Place> {
    if orders == [] then []
    else
      var e := |orders| - 1;
      Places(orders[..e]) + seq(|orders[e].picks|, i requires 0 <= i < |orders[e].picks| => (e, i))
  }

  lemma {:induction false} PlacesAreAll(orders: seq<Order>)
    ensures |Places(orders)| == |AllHops(orders)|
    ensures forall i :: 0 <= i < |Places(orders)| ==> InPlace(orders, Places(orders)[i], AllHops(orders)[i])
    ensures forall i, j :: 0 <= i < j < |Places(orders)| ==> Earlier(Places(orders)[i], Places(orders)[j])
    ensures forall a :: IsPlace(orders, a) ==> a in Places(orders)
  {
    if orders != [] {
      var e := |orders| - 1;
      PlacesAreAll(orders[..e]);
      var before, places := Places(orders[..e]), Places(orders);
      forall i | 0 <= i < |places| ensures InPlace(orders, places[i], AllHops(orders)[i]) {
        if i < |before| { assert InPlace(orders[..e], before[i], AllHops(orders[..e])[i]); }
      }
      forall i, j | 0 <= i < j < |places| ensures Earlier(places[i], places[j]) {
        if i < |before| { assert InPlace(orders[..e], before[i], AllHops(orders[..e])[i]); }
      }
      forall a | IsPlace(orders, a) ensures a in places {
        if a.0 == e {
          assert places[|before| + a.1] == a;
        } else {
          assert IsPlace(orders[..e], a);
        }
      }
    }
  }

  /** First occurrences among all hops are the first picks of their identity, over all orders. */
  lemma FirstOccurrencesChosen(orders: seq<Order>)
    ensures Chosen(FirstOccurrences(AllHops(orders)), orders)
  {
    var hops, all := AllHops(orders), Places(orders);
    PlacesAreAll(orders);
    var ps := OccurrencesAt(hops);
    var places := seq(|ps|, i requires 0 <= i < |ps| => all[ps[i]]);
    forall a | IsPlace(orders, a) ensures a in places <==> FirstOfItsId(orders, a) {
      PlaceIsFirst(orders, ps, places, a);
    }
    assert FirstPlaces(FirstOccurrences(hops), orders, places);
  }

  lemma GateChosen(gate: Order)
    ensures Chosen(FirstOccurrences(HopsOf(gate)), [gate])
  {
    assert [gate][..0] == [] && AllHops([gate]) == [] + HopsOf(gate) == HopsOf(gate);
    FirstOccurrencesChosen([gate]);
  }

  lemma PlaceIsFirst(orders: seq<Order>, ps: seq<nat>, places: seq<Place>, a: Place)
    requires IsPlace(orders, a)
    requires FirstPositions(AllHops(orders), FirstOccurrences(AllHops(orders)), ps)
    requires |places| == |ps| && |Places(orders)| == |AllHops(orders)|
    requires forall i :: 0 <= i < |ps| ==> places[i] == Places(orders)[ps[i]]
    ensures a in places <==> FirstOfItsId(orders, a)
  {
    var all := Places(orders);
    PlacesAreAll(orders);
    var p :| 0 <= p < |all| && all[p] == a;
    PlaceOfPosition(all, ps, places, p);
    FirstInBoth(orders, p);
  }

  lemma PlaceOfPosition(all: seq<Place>, ps: seq<nat>, places: seq<Place>, p: nat)
    requires p < |all| && |places| == |ps|
    requires forall i :: 0 <= i < |ps| ==> ps[i] < |all| && places[i] == all[ps[i]]
    requires forall i, j :: 0 <= i < j < |all| ==> Earlier(all[i], all[j])
    ensures all[p] in places <==> p in ps
  {
    if p in ps {
      var i :| 0 <= i < |ps| && ps[i] == p;
      assert places[i] == all[p];
    }
    if all[p] in places {
      var i :| 0 <= i < |places| && places[i] == all[p];
      assert ps[i] == p;
    }
  }

  /** The identity at a place is that of the hop there. */
  lemma SameInBoth(orders: seq<Order>, q: nat, p: nat)
    requires p < |Places(orders)| == |AllHops(orders)| && q < |Places(orders)|
    ensures var all := Places(orders); IsPlace(orders, all[q]) && IsPlace(orders, all[p])
    ensures var all := Places(orders); IdAt(orders, all[q]) == IdAt(orders, all[p]) <==> SameId(AllHops(orders), q, p)
    ensures var all := Places(orders); Earlier(all[q], all[p]) <==> q < p
  {
    var hops, all := AllHops(orders), Places(orders);
    PlacesAreAll(orders);
    assert InPlace(orders, all[q], hops[q]) && InPlace(orders, all[p], hops[p]);
  }

  lemma FirstInBoth(orders: seq<Order>, p: nat)
    requires p < |Places(orders)| == |AllHops(orders)| && IsPlace(orders, Places(orders)[p])
    ensures FirstOfItsId(orders, Places(orders)[p]) <==> NotSeen(AllHops(orders), p)
  {
    var all := Places(orders);
    if FirstOfItsId(orders, all[p]) {
      forall q | 0 <= q < p ensures !SameId(AllHops(orders), q, p) { SameInBoth(orders, q, p); }
    }
    if NotSeen(AllHops(orders), p) {
      forall b | IsPlace(orders, b) && Earlier(b, all[p]) ensures IdAt(orders, b) != IdAt(orders, all[p]) {
        var q := IndexOfPlace(orders, b);
        SameInBoth(orders, q, p);
      }
    }
  }

  lemma IndexOfPlace(orders: seq<Order>, b: Place) returns (q: nat)
    requires IsPlace(orders, b)
    ensures q < |Places(orders)| == |AllHops(orders)| && Places(orders)[q] == b
  {
    PlacesAreAll(orders);
    q :| 0 <= q < |Places(orders)| && Places(orders)[q] == b;
  }

  lemma OfferOne(hops: seq<Hop>, hop: Hop)
    ensures var before, key := FirstOccurrences(hops), SingletonKey(hop.proxy);
      && FirstOccurrences(hops + [hop]) == (if key in KeysOf(before) then before else before + [Candidate(hop, key)])
      && KeysOf(before + [Candidate(hop, key)]) == KeysOf(before) + {key}
  {
    OccurrencesSnoc(hops, hop);
    KeysOfSnoc(FirstOccurrences(hops), Candidate(hop, SingletonKey(hop.proxy)));
  }

  method Offer(candidates: seq<Candidate>, keys: set<Key>, hop: Hop, ghost hops: seq<Hop>)
    returns (candidates': seq<Candidate>, keys': set<Key>)
    requires candidates == FirstOccurrences(hops) && keys == KeysOf(candidates)
    ensures candidates' == FirstOccurrences(hops + [hop]) && keys' == KeysOf(candidates')
  {
    OfferOne(hops, hop);
    var key := SingletonKey(hop.proxy);
    if key in keys { return candidates, keys; }
    return candidates + [Candidate(hop, key)], keys + {key};
  }

  lemma TakeOneMore(hops: seq<Hop>, more: seq<Hop>, i: nat)
    requires i < |more|
    ensures hops + more[..i + 1] == hops + more[..i] + [more[i]]
  {
  }

  /** Offer `more` one by one on top of `hops`. */
  method OfferAll(candidates: seq<Candidate>, keys: set<Key>, more: seq<Hop>, ghost hops: seq<Hop>)
    returns (candidates': seq<Candidate>, keys': set<Key>)
    requires candidates == FirstOccurrences(hops) && keys == KeysOf(candidates)
    ensures candidates' == FirstOccurrences(hops + more) && keys' == KeysOf(candidates')
  {
    candidates', keys' := candidates, keys;
    ghost var offered := hops;
    assert hops + more[..0] == hops;
    for i := 0 to |more|
      invariant offered == hops + more[..i]
      invariant candidates' == FirstOccurrences(offered) && keys' == KeysOf(candidates')
    {
      candidates', keys' := Offer(candidates', keys', more[i], offered);
      TakeOneMore(hops, more, i);
      offered := offered + [more[i]];
    }
    assert more[..|more|] == more;
  }

  method Deduplicate(hops: seq<Hop>) returns (candidates: seq<Candidate>)
    ensures candidates == FirstOccurrences(hops)
  {
    var keys;
    candidates, keys := OfferAll([], {}, hops, []);
    assert [] + hops == hops;
  }

  /** The exits of every rotator in one layer, first occurrence winning across rotators too. */
  method ExitCandidates(exits: seq<Order>) returns (candidates: seq<Candidate>)
    ensures candidates == FirstOccurrences(AllHops(exits)) && Chosen(candidates, exits)
  {
    candidates := [];
    var keys: set<Key> := {};
    for e := 0 to |exits|
      invariant candidates == FirstOccurrences(AllHops(exits[..e])) && keys == KeysOf(candidates)
    {
      assert exits[..e + 1][..e] == exits[..e];
      candidates, keys := OfferAll(candidates, keys, HopsOf(exits[e]), AllHops(exits[..e]));
    }
    assert exits[..|exits|] == exits;
    FirstOccurrencesChosen(exits);
  }

  // ---- Layers as a box of index vectors ----

  function Sizes(layers: Layers): Vector {
    seq(|layers|, k requires 0 <= k < |layers| => |layers[k]|)
  }

  ghost predicate WellFormed(layers: Layers) {
    && |layers| > 0
    && forall k {:trigger DistinctKeys(layers[k])} {:trigger Keyed(layers[k])} ::
         0 <= k < |layers| ==> DistinctKeys(layers[k]) && Keyed(layers[k])
  }

  ghost predicate DeadAt(layers: Layers, dead: set<Key>, v: Vector, k: nat)
    requires InBox(v, Sizes(layers)) && k < |layers|
  {
    layers[k][v[k]].key in dead
  }

  ghost predicate HasDead(layers: Layers, dead: set<Key>, v: Vector)
    requires InBox(v, Sizes(layers))
  {
    exists k: nat :: k < |layers| && DeadAt(layers, dead, v, k)
  }

  ghost predicate FirstDead(layers: Layers, dead: set<Key>, v: Vector, f: nat)
    requires InBox(v, Sizes(layers)) && f < |layers|
  {
    DeadAt(layers, dead, v, f) && forall i :: 0 <= i < f ==> !DeadAt(layers, dead, v, i)
  }

  function HopsAt(layers: Layers, v: Vector): seq<Hop>
    requires InBox(v, Sizes(layers))
  {
    seq(|layers|, k requires 0 <= k < |layers| => layers[k][v[k]].hop)
  }

  function KeyAt(layers: Layers, v: Vector): Key
    requires InBox(v, Sizes(layers))
  {
    Ids(Proxies(HopsAt(layers, v)))
  }

  function PickAt(layers: Layers, v: Vector): ChainPick
    requires InBox(v, Sizes(layers))
  {
    ChainPick(HopsAt(layers, v), KeyAt(layers, v))
  }

  /** A vector still worth dialling: no dead node in it and not excluded. */
  ghost predicate Survives(layers: Layers, dead: set<Key>, seen: set<Key>, v: Vector)
    requires InBox(v, Sizes(layers))
  {
    !HasDead(layers, dead, v) && KeyAt(layers, v) !in seen
  }

  /** Different index vectors are different chains, because no layer repeats an identity. */
  lemma KeyAtInjective(layers: Layers, v: Vector, w: Vector)
    requires WellFormed(layers) && InBox(v, Sizes(layers)) && InBox(w, Sizes(layers))
    requires KeyAt(layers, v) == KeyAt(layers, w)
    ensures v == w
  {
    forall k | 0 <= k < |v| ensures v[k] == w[k] {
      var c := layers[k];
      assert Keyed(c) && DistinctKeys(c);
      assert KeyAt(layers, v)[k] == Id(c[v[k]].hop.proxy) && KeyAt(layers, w)[k] == Id(c[w[k]].hop.proxy);
      assert c[v[k]].key == c[w[k]].key;
    }
  }

  /** The identities of the candidates at a vector, outermost first. */
  function IdsAt(layers: Layers, v: Vector): Key
    requires InBox(v, Sizes(layers))
  {
    seq(|layers|, k requires 0 <= k < |layers| => Id(layers[k][v[k]].hop.proxy))
  }

  /** A vector survives exactly if none of its nodes is dead and the sequence of them all is not excluded. */
  lemma SurvivesExactly(layers: Layers, dead: set<Key>, seen: set<Key>, v: Vector)
    requires WellFormed(layers) && InBox(v, Sizes(layers))
    ensures Survives(layers, dead, seen, v)
       <==> (forall id :: id in IdsAt(layers, v) ==> [id] !in dead) && IdsAt(layers, v) !in seen
    ensures PickAt(layers, v).key == IdsAt(layers, v) && |PickAt(layers, v).hops| == |layers|
    ensures forall k :: 0 <= k < |layers| ==> PickAt(layers, v).hops[k] == layers[k][v[k]].hop
  {
    assert KeyAt(layers, v) == IdsAt(layers, v);
    forall k: nat | k < |layers| ensures DeadAt(layers, dead, v, k) <==> [IdsAt(layers, v)[k]] in dead {
      assert Keyed(layers[k]);
    }
  }

  function CountLive(candidates: seq<Candidate>, dead: set<Key>): nat {
    if candidates == [] then 0
    else CountLive(candidates[1..], dead) + if candidates[0].key in dead then 0 else 1
  }

  lemma {:induction false} CountLiveNone(candidates: seq<Candidate>)
    ensures CountLive(candidates, {}) == |candidates|
  {
    if candidates != [] { CountLiveNone(candidates[1..]); }
  }

  /** One more dead key costs a layer exactly one live candidate, or none. */
  lemma {:induction false} CountLiveAfterDeath(candidates: seq<Candidate>, dead: set<Key>, key: Key)
    requires DistinctKeys(candidates) && key !in dead
    ensures CountLive(candidates, dead) ==
      CountLive(candidates, dead + {key}) + if key in KeysOf(candidates) then 1 else 0
  {
    if candidates != [] {
      var rest := candidates[1..];
      CountLiveAfterDeath(rest, dead, key);
      if key in KeysOf(rest) {
        var i :| 0 <= i < |rest| && rest[i].key == key;
        assert candidates[i + 1].key == key && candidates[0].key != key;
      } else if key in KeysOf(candidates) {
        assert forall j :: 0 <= j < |rest| ==> rest[j] == candidates[j + 1] && rest[j].key in KeysOf(rest);
      }
    }
  }

  lemma {:induction false} CountLiveWitness(candidates: seq<Candidate>, dead: set<Key>) returns (x: nat)
    requires CountLive(candidates, dead) > 0
    ensures x < |candidates| && candidates[x].key !in dead
  {
    if candidates[0].key !in dead {
      x := 0;
    } else {
      x := CountLiveWitness(candidates[1..], dead);
      x := x + 1;
    }
  }

  lemma {:induction false} CountLiveZero(candidates: seq<Candidate>, dead: set<Key>, x: nat)
    requires CountLive(candidates, dead) == 0 && x < |candidates|
    ensures candidates[x].key in dead
  {
    if x > 0 { CountLiveZero(candidates[1..], dead, x - 1); }
  }

  // ---- The state of a plan ----

  /** Nothing behind the position is left undecided. */
  ghost predicate Settled(layers: Layers, dead: set<Key>, seen: set<Key>, returned: seq<Vector>, v: Vector)
    requires InBox(v, Sizes(layers))
  {
    v in returned || !Survives(layers, dead, seen, v)
  }

  ghost predicate Behind(index: Vector, done: bool, v: Vector) {
    done || LexLess(v, index)
  }

  /** Each layer's live count is right, and only a finished plan may have an empty layer. */
  ghost predicate Counted(layers: Layers, live: seq<nat>, dead: set<Key>, done: bool) {
    && |live| == |layers|
    && forall k {:trigger live[k]} :: 0 <= k < |live| ==>
         live[k] == CountLive(layers[k], dead) && (done || live[k] > 0)
  }

  /** The vectors returned are exactly the survivors behind the position, in order. */
  ghost predicate Swept(layers: Layers, dead: set<Key>, seen: set<Key>, done: bool, index: Vector,
                        returned: seq<Vector>)
  {
    && WellFormed(layers)
    && (done || InBox(index, Sizes(layers)))
    && Ascending(returned)
    && (forall v {:trigger v in returned} :: v in returned ==>
          InBox(v, Sizes(layers)) && Behind(index, done, v))
    && (forall v {:trigger Settled(layers, dead, seen, returned, v)} ::
          InBox(v, Sizes(layers)) && Behind(index, done, v) ==> Settled(layers, dead, seen, returned, v))
  }

  /**
   * A carry out of place `f` keeps the sweep complete when everything that
   * shares the current prefix through `f` is already settled.
   */
  lemma CarryKeeps(layers: Layers, dead: set<Key>, seen: set<Key>, index: Vector, returned: seq<Vector>,
                   f: nat, index': Vector, done': bool, returned': seq<Vector>)
    requires Swept(layers, dead, seen, false, index, returned) && f < |layers|
    requires CarriesTo(index, Sizes(layers), f, index', done')
    requires returned' == returned || returned' == returned + [index]
    requires forall w :: InBox(w, Sizes(layers)) && SharesPrefix(w, index, f + 1) ==>
               Settled(layers, dead, seen, returned', w)
    ensures Swept(layers, dead, seen, done', index', returned')
  {
    var sizes := Sizes(layers);
    if !done' { CarryMoves(index, sizes, f, index'); }
    AscendingSnoc(returned, index);
    forall w | w in returned' ensures InBox(w, sizes) && Behind(index', done', w) {
      if !done' && w != index { LexTransitive(w, index, index'); }
    }
    forall w | InBox(w, sizes) && Behind(index', done', w) ensures Settled(layers, dead, seen, returned', w) {
      CarryGap(index, sizes, f, w);
      if LexLess(w, index) { assert Settled(layers, dead, seen, returned, w); }
    }
  }

  /** Jumping over a dead node condemns only vectors that contain it. */
  lemma JumpKeeps(layers: Layers, dead: set<Key>, seen: set<Key>, index: Vector, returned: seq<Vector>,
                  f: nat, index': Vector, done': bool)
    requires Swept(layers, dead, seen, false, index, returned) && f < |layers|
    requires DeadAt(layers, dead, index, f) && CarriesTo(index, Sizes(layers), f, index', done')
    ensures Swept(layers, dead, seen, done', index', returned)
  {
    forall w | InBox(w, Sizes(layers)) && SharesPrefix(w, index, f + 1)
      ensures Settled(layers, dead, seen, returned, w)
    {
      assert DeadAt(layers, dead, w, f);
    }
    CarryKeeps(layers, dead, seen, index, returned, f, index', done', returned);
  }

  /** Stepping past one vector, returned or excluded. */
  lemma VisitKeeps(layers: Layers, dead: set<Key>, seen: set<Key>, index: Vector, returned: seq<Vector>,
                   index': Vector, done': bool, returned': seq<Vector>)
    requires Swept(layers, dead, seen, false, index, returned)
    requires CarriesTo(index, Sizes(layers), |layers| - 1, index', done')
    requires returned' == returned + [index] || (returned' == returned && KeyAt(layers, index) in seen)
    ensures Swept(layers, dead, seen, done', index', returned')
  {
    forall w | InBox(w, Sizes(layers)) && SharesPrefix(w, index, |layers|)
      ensures Settled(layers, dead, seen, returned', w)
    {
      assert w == index;
    }
    CarryKeeps(layers, dead, seen, index, returned, |layers| - 1, index', done', returned');
  }

  /** More deaths and exclusions unsettle nothing, and an emptied layer condemns everything. */
  lemma GrowthKeeps(layers: Layers, dead: set<Key>, dead': set<Key>, seen: set<Key>, seen': set<Key>,
                    done: bool, done': bool, index: Vector, returned: seq<Vector>)
    requires Swept(layers, dead, seen, done, index, returned) && dead <= dead' && seen <= seen'
    requires done' <==> (done || exists k :: 0 <= k < |layers| && CountLive(layers[k], dead') == 0)
    ensures Swept(layers, dead', seen', done', index, returned)
  {
    forall w | InBox(w, Sizes(layers)) && Behind(index, done', w)
      ensures Settled(layers, dead', seen', returned, w)
    {
      if Behind(index, done, w) {
        assert Settled(layers, dead, seen, returned, w);
        if HasDead(layers, dead, w) {
          var k: nat :| k < |layers| && DeadAt(layers, dead, w, k);
          assert DeadAt(layers, dead', w, k);
        }
      } else {
        var k :| 0 <= k < |layers| && CountLive(layers[k], dead') == 0;
        CountLiveZero(layers[k], dead', w[k]);
        assert DeadAt(layers, dead', w, k);
      }
    }
  }

  // ---- The cost of a run of jumps ----

  function Sum(s: seq<int>): int {
    if s == [] then 0 else s[0] + Sum(s[1..])
  }

  lemma {:induction false} SumBelow(s: seq<int>, t: seq<int>)
    requires |s| == |t| && forall k :: 0 <= k < |s| ==> s[k] <= t[k]
    ensures Sum(s) <= Sum(t)
    ensures forall k :: 0 <= k < |s| && s[k] < t[k] ==> Sum(s) < Sum(t)
  {
    if s != [] {
      SumBelow(s[1..], t[1..]);
      forall k | 0 <= k < |s| && s[k] < t[k] ensures Sum(s) < Sum(t) {
        if k > 0 { assert s[1..][k - 1] < t[1..][k - 1]; }
      }
    }
  }

  lemma {:induction false} SumTwice(sizes: Vector)
    ensures Sum(seq(|sizes|, k requires 0 <= k < |sizes| => 2 * sizes[k])) == 2 * Sum(sizes)
  {
    if sizes != [] {
      var doubled := seq(|sizes|, k requires 0 <= k < |sizes| => 2 * sizes[k]);
      assert doubled[1..] == seq(|sizes[1..]|, k requires 0 <= k < |sizes[1..]| => 2 * sizes[1..][k]);
      SumTwice(sizes[1..]);
    }
  }

  lemma {:induction false} SumZero(s: seq<int>)
    requires forall k :: 0 <= k < |s| ==> s[k] == 0
    ensures Sum(s) == 0
  {
    if s != [] { SumZero(s[1..]); }
  }

  /**
   * What each layer has contributed to a run of jumps that began at `start`:
   * before place `lo` only forward moves; from `lo` on, a full first pass and
   * then the moves since the reset.
   */
  ghost function Cost(start: Vector, v: Vector, sizes: Vector, lo: nat): seq<int>
    requires |start| == |v| == |sizes|
  {
    seq(|v|, k requires 0 <= k < |v| =>
      if k < lo then v[k] as int - start[k] as int else sizes[k] + v[k])
  }

  /** The shape of a run of jumps: places from `lo` on restarted at zero and met only dead nodes. */
  ghost predicate Run(layers: Layers, dead: set<Key>, start: Vector, v: Vector, lo: nat, jumps: nat) {
    && InBox(v, Sizes(layers)) && InBox(start, Sizes(layers)) && lo <= |layers|
    && (forall k {:trigger start[k]} :: 0 <= k < lo ==> start[k] <= v[k])
    && (forall k, x {:trigger layers[k][x]} :: lo <= k < |layers| && 0 <= x < v[k] ==> layers[k][x].key in dead)
    && (forall k, i {:trigger v[k], DeadAt(layers, dead, v, i)} ::
          lo <= k < |layers| && v[k] > 0 && 0 <= i < k ==> !DeadAt(layers, dead, v, i))
    && jumps <= Sum(Cost(start, v, Sizes(layers), lo))
  }

  /** A jump out of the places that restarted: they start over once more. */
  lemma RunJumpsBefore(layers: Layers, dead: set<Key>, start: Vector, v: Vector, lo: nat, jumps: nat, j: nat)
    requires Run(layers, dead, start, v, lo, jumps) && j < lo && v[j] + 1 < |layers[j]|
    requires forall k :: j < k && lo <= k < |layers| ==> v[k] == 0
    ensures Run(layers, dead, start, Bump(v, j), j + 1, jumps + 1)
  {
    BumpMovesForward(v, Sizes(layers), j);
    CostRises(start, v, Sizes(layers), lo, j, j + 1);
  }

  /** A jump among them: the place that moves leaves a dead node behind, everything before it stays as it was. */
  lemma RunJumpsWithin(layers: Layers, dead: set<Key>, start: Vector, v: Vector, lo: nat, jumps: nat, f: nat)
    requires Run(layers, dead, start, v, lo, jumps) && lo <= f < |layers| && FirstDead(layers, dead, v, f)
    requires v[f] + 1 < |layers[f]| && forall k :: f < k < |layers| ==> v[k] == 0
    ensures Run(layers, dead, start, Bump(v, f), lo, jumps + 1)
  {
    var v' := Bump(v, f);
    BumpMovesForward(v, Sizes(layers), f);
    forall k, i | lo <= k < |layers| && v'[k] > 0 && 0 <= i < k ensures !DeadAt(layers, dead, v', i) {
      assert k <= f && v'[i] == v[i] && !DeadAt(layers, dead, v, i);
    }
    CostRises(start, v, Sizes(layers), lo, f, lo);
  }

  /** One more jump is paid for: by the pivot's own move, or by a full pass of the layers reset. */
  lemma RunJump(layers: Layers, dead: set<Key>, start: Vector, v: Vector, lo: nat, jumps: nat, f: nat)
    returns (lo': nat)
    requires Run(layers, dead, start, v, lo, jumps) && f < |layers| && FirstDead(layers, dead, v, f)
    requires forall k :: 0 <= k < |layers| ==> CountLive(layers[k], dead) > 0
    requires Pivot(v, Sizes(layers), f).Some?
    ensures Run(layers, dead, start, Bump(v, Pivot(v, Sizes(layers), f).value), lo', jumps + 1)
  {
    var j := Pivot(v, Sizes(layers), f).value;
    forall k | lo <= k < |layers| && k > f ensures v[k] == 0 {
      assert DeadAt(layers, dead, v, f);
    }
    if f >= lo {
      var x := CountLiveWitness(layers[f], dead);
      assert x > v[f] && j == f;
      lo' := lo;
      RunJumpsWithin(layers, dead, start, v, lo, jumps, f);
    } else {
      lo' := j + 1;
      RunJumpsBefore(layers, dead, start, v, lo, jumps, j);
    }
  }

  lemma CostRises(start: Vector, v: Vector, sizes: Vector, lo: nat, j: nat, lo': nat)
    requires InBox(start, sizes) && InBox(v, sizes) && j < |v|
    requires if lo <= j then lo' == lo else lo' == j + 1
    requires forall k :: 0 <= k < lo && k < |v| ==> start[k] <= v[k]
    requires forall k :: j < k && lo <= k < |v| ==> v[k] == 0
    ensures Sum(Cost(start, v, sizes, lo)) < Sum(Cost(start, Bump(v, j), sizes, lo'))
  {
    var before, after := Cost(start, v, sizes, lo), Cost(start, Bump(v, j), sizes, lo');
    forall k | 0 <= k < |v| ensures before[k] <= after[k] {}
    assert before[j] < after[j];
    SumBelow(before, after);
  }

  /** However a run goes, it makes at most two passes over each layer. */
  lemma RunBounded(layers: Layers, dead: set<Key>, start: Vector, v: Vector, lo: nat, jumps: nat)
    requires Run(layers, dead, start, v, lo, jumps) && |layers| > 0
    ensures jumps + 1 <= 2 * Sum(Sizes(layers))
  {
    var sizes := Sizes(layers);
    var cost := Cost(start, v, sizes, lo);
    var twice := seq(|sizes|, k requires 0 <= k < |sizes| => 2 * sizes[k]);
    forall k | 0 <= k < |sizes| ensures cost[k] < twice[k] {}
    SumBelow(cost, twice);
    assert cost[0] < twice[0];
    SumTwice(sizes);
  }

  // ---- One call's walk: the excluded vectors it passed, and the run of jumps it is in ----

  ghost predicate PassedOver(layers: Layers, seen: set<Key>, passed: seq<Vector>) {
    && Ascending(passed)
    && forall v {:trigger v in passed} :: v in passed ==> InBox(v, Sizes(layers)) && KeyAt(layers, v) in seen
  }

  /** No two vectors share a key, so at most as many are passed as were excluded. */
  lemma {:induction false} PassedOverCount(layers: Layers, seen: set<Key>, passed: seq<Vector>)
    requires WellFormed(layers) && PassedOver(layers, seen, passed)
    ensures |passed| <= |seen|
  {
    if passed != [] {
      var n := |passed| - 1;
      var last := passed[n];
      assert last in passed;
      var key := KeyAt(layers, last);
      forall v | v in passed[..n] ensures InBox(v, Sizes(layers)) && KeyAt(layers, v) in seen - {key} {
        var i :| 0 <= i < n && passed[i] == v;
        assert v in passed && LexLess(passed[i], passed[n]);
        LexAsymmetric(v, last);
        if KeyAt(layers, v) == key { KeyAtInjective(layers, v, last); }
      }
      forall i, j | 0 <= i < j < n ensures LexLess(passed[..n][i], passed[..n][j]) {
        assert LexLess(passed[i], passed[j]);
      }
      PassedOverCount(layers, seen - {key}, passed[..n]);
      assert |seen - {key}| == |seen| - 1;
    }
  }

  datatype Walk = Walk(passed: seq<Vector>, start: Vector, lo: nat, jumps: nat)

  ghost predicate OnWalk(layers: Layers, dead: set<Key>, seen: set<Key>, done: bool, index: Vector, walk: Walk) {
    && PassedOver(layers, seen, walk.passed)
    && walk.jumps <= 2 * Sum(Sizes(layers))
    && (!done ==> Run(layers, dead, walk.start, index, walk.lo, walk.jumps))
    && (!done ==> forall w {:trigger w in walk.passed} :: w in walk.passed ==> LexLess(w, index))
  }

  /** Steps spent so far on a walk, when each vector costs at most `each`. */
  ghost function Spent(walk: Walk, each: nat): nat {
    Times(|walk.passed|, each) + walk.jumps
  }

  lemma WalkBegins(layers: Layers, dead: set<Key>, seen: set<Key>, done: bool, index: Vector, passed: seq<Vector>)
    requires !done ==> InBox(index, Sizes(layers))
    requires PassedOver(layers, seen, passed)
    requires !done ==> forall w {:trigger w in passed} :: w in passed ==> LexLess(w, index)
    ensures OnWalk(layers, dead, seen, done, index, Walk(passed, index, |layers|, 0))
  {
    var zero := seq(|layers|, k => 0);
    SumZero(zero);
    SumBelow(zero, Sizes(layers));
    assert !done ==> Cost(index, index, Sizes(layers), |layers|) == zero;
  }

  /** An upper bound on the turns left. */
  ghost function Remaining(layers: Layers, done: bool, index: Vector): nat {
    if done || !InBox(index, Sizes(layers)) then 0
    else
      RankBelowVolume(index, Sizes(layers));
      Volume(Sizes(layers)) - Rank(index, Sizes(layers))
  }

  lemma RemainingFalls(layers: Layers, index: Vector, f: nat, index': Vector, done': bool)
    requires InBox(index, Sizes(layers)) && f < |layers| && CarriesTo(index, Sizes(layers), f, index', done')
    ensures Remaining(layers, done', index') < Remaining(layers, false, index)
  {
    RankBelowVolume(index, Sizes(layers));
    if !done' { CarryMoves(index, Sizes(layers), f, index'); }
  }

  /** Everything one iteration of the loop relies on and restores. */
  ghost predicate Underway(layers: Layers, live: seq<nat>, dead: set<Key>, seen: set<Key>, done: bool,
                           index: Vector, returned: seq<Vector>, walk: Walk)
  {
    && Counted(layers, live, dead, done)
    && Swept(layers, dead, seen, done, index, returned)
    && OnWalk(layers, dead, seen, done, index, walk)
  }

  /** A jump lengthens the current run; even a plan's last jump is paid for. */
  lemma Jumped(layers: Layers, live: seq<nat>, dead: set<Key>, seen: set<Key>, index: Vector,
               returned: seq<Vector>, walk: Walk, f: nat, index': Vector, done': bool) returns (walk': Walk)
    requires Underway(layers, live, dead, seen, false, index, returned, walk)
    requires f < |layers| && FirstDead(layers, dead, index, f)
    requires CarriesTo(index, Sizes(layers), f, index', done')
    ensures Underway(layers, live, dead, seen, done', index', returned, walk')
    ensures walk'.passed == walk.passed && walk'.jumps == walk.jumps + 1
    ensures Remaining(layers, done', index') < Remaining(layers, false, index)
  {
    JumpKeeps(layers, dead, seen, index, returned, f, index', done');
    RemainingFalls(layers, index, f, index', done');
    RunBounded(layers, dead, walk.start, index, walk.lo, walk.jumps);
    walk' := walk.(jumps := walk.jumps + 1);
    if !done' {
      forall k | 0 <= k < |layers| ensures CountLive(layers[k], dead) > 0 {
        assert live[k] > 0;
      }
      var lo := RunJump(layers, dead, walk.start, index, walk.lo, walk.jumps, f);
      walk' := walk'.(lo := lo);
      CarryMoves(index, Sizes(layers), f, index');
      AllBelow(walk.passed, index, index');
      assert forall w {:trigger w in walk.passed} :: w in walk.passed ==> w in walk.passed + [index];
    }
  }

  /** Passing an excluded vector starts a new run. */
  lemma Passed(layers: Layers, live: seq<nat>, dead: set<Key>, seen: set<Key>, index: Vector,
               returned: seq<Vector>, walk: Walk, index': Vector, done': bool) returns (walk': Walk)
    requires Underway(layers, live, dead, seen, false, index, returned, walk)
    requires KeyAt(layers, index) in seen
    requires CarriesTo(index, Sizes(layers), |layers| - 1, index', done')
    ensures Underway(layers, live, dead, seen, done', index', returned, walk')
    ensures Spent(walk, Each(layers)) + 1 <= Spent(walk', Each(layers))
    ensures Remaining(layers, done', index') < Remaining(layers, false, index)
  {
    VisitKeeps(layers, dead, seen, index, returned, index', done', returned);
    RemainingFalls(layers, index, |layers| - 1, index', done');
    PassedGrows(layers, seen, index, walk.passed, index', done');
    WalkBegins(layers, dead, seen, done', index', walk.passed + [index]);
    walk' := Walk(walk.passed + [index], index', |layers|, 0);
  }

  lemma PassedGrows(layers: Layers, seen: set<Key>, index: Vector, passed: seq<Vector>, index': Vector, done': bool)
    requires layers != [] && InBox(index, Sizes(layers)) && PassedOver(layers, seen, passed)
    requires KeyAt(layers, index) in seen
    requires forall w {:trigger w in passed} :: w in passed ==> LexLess(w, index)
    requires CarriesTo(index, Sizes(layers), |layers| - 1, index', done')
    ensures PassedOver(layers, seen, passed + [index])
    ensures !done' ==> forall w :: w in passed + [index] ==> LexLess(w, index')
  {
    AscendingSnoc(passed, index);
    if !done' {
      CarryMoves(index, Sizes(layers), |layers| - 1, index');
      AllBelow(passed, index, index');
    }
  }

  lemma AllBelow(passed: seq<Vector>, index: Vector, index': Vector)
    requires forall w {:trigger w in passed} :: w in passed ==> LexLess(w, index)
    requires LexLess(index, index')
    ensures forall w :: w in passed + [index] ==> LexLess(w, index')
  {
    forall w | w in passed ensures LexLess(w, index') {
      LexTransitive(w, index, index');
    }
  }

  /** The most one looked-at vector can cost: the jumps that reach it, and itself. */
  ghost function Each(layers: Layers): nat {
    SumBelow(seq(|layers|, k => 0), Sizes(layers));
    SumZero(seq(|layers|, k => 0));
    2 * Sum(Sizes(layers)) + 1
  }

  /** The most one call can cost: one more vector than there are exclusions. */
  ghost function Budget(layers: Layers, seen: set<Key>): nat {
    Times(|seen| + 1, Each(layers))
  }

  /** A product the solver is not tempted to multiply out. */
  function Times(a: nat, b: nat): nat {
    if a == 0 then 0 else b + Times(a - 1, b)
  }

  lemma {:induction false} TimesIsProduct(a: nat, b: nat)
    ensures Times(a, b) == a * b
  {
    if a > 0 {
      TimesIsProduct(a - 1, b);
      assert a * b == (a - 1) * b + b;
    }
  }

  /** What one call may cost grows with the sum of the layer sizes, not with their product. */
  lemma BudgetIsLinear(layers: Layers, seen: set<Key>)
    ensures Budget(layers, seen) == (|seen| + 1) * (2 * Sum(Sizes(layers)) + 1)
  {
    TimesIsProduct(|seen| + 1, Each(layers));
  }

  lemma {:induction false} TimesMonotone(a: nat, a': nat, b: nat)
    requires a <= a'
    ensures Times(a, b) <= Times(a', b)
    decreases a'
  {
    if a < a' { TimesMonotone(a, a' - 1, b); }
  }

  lemma WalkBounded(layers: Layers, live: seq<nat>, dead: set<Key>, seen: set<Key>, done: bool,
                    index: Vector, returned: seq<Vector>, walk: Walk)
    requires Underway(layers, live, dead, seen, done, index, returned, walk)
    ensures Spent(walk, Each(layers)) + 1 <= Budget(layers, seen)
  {
    PassedOverCount(layers, seen, walk.passed);
    TimesMonotone(|walk.passed|, |seen|, Each(layers));
  }

  lemma Found(layers: Layers, live: seq<nat>, dead: set<Key>, seen: set<Key>, index: Vector,
              returned: seq<Vector>, walk: Walk, index': Vector, done': bool)
    requires Underway(layers, live, dead, seen, false, index, returned, walk)
    requires Survives(layers, dead, seen, index)
    requires CarriesTo(index, Sizes(layers), |layers| - 1, index', done')
    ensures Counted(layers, live, dead, done')
    ensures Swept(layers, dead, seen, done', index', returned + [index])
    ensures Delivers(layers, dead, seen, returned, returned + [index], PickAt(layers, index))
    ensures Spent(walk, Each(layers)) + 1 <= Budget(layers, seen)
    ensures Remaining(layers, done', index') < Remaining(layers, false, index)
  {
    RemainingFalls(layers, index, |layers| - 1, index', done');
    VisitKeeps(layers, dead, seen, index, returned, index', done', returned + [index]);
    WalkBounded(layers, live, dead, seen, false, index, returned, walk);
  }

  /** `pick` is the chain at the vector just added, with no dead node in it and not excluded. */
  ghost predicate Delivers(layers: Layers, dead: set<Key>, seen: set<Key>, before: seq<Vector>,
                           returned: seq<Vector>, pick: ChainPick)
  {
    && |returned| == |before| + 1 && returned[..|before|] == before
    && var v := returned[|before|];
       InBox(v, Sizes(layers)) && pick == PickAt(layers, v) && Survives(layers, dead, seen, v)
  }

  /** One turn on a vector with no dead node: it is delivered, or passed over and paid for. */
  ghost predicate TurnEnds(layers: Layers, live: seq<nat>, dead: set<Key>, seen: set<Key>, index: Vector,
                           returned: seq<Vector>, walk: Walk, pick: Option<ChainPick>,
                           index': Vector, done': bool, returned': seq<Vector>, walk': Walk)
  {
    && Remaining(layers, done', index') < Remaining(layers, false, index)
    && match pick
       case None =>
         && returned' == returned && Underway(layers, live, dead, seen, done', index', returned, walk')
         && Spent(walk, Each(layers)) + 1 <= Spent(walk', Each(layers))
       case Some(p) =>
         && Counted(layers, live, dead, done') && Swept(layers, dead, seen, done', index', returned')
         && Delivers(layers, dead, seen, returned, returned', p)
         && Spent(walk, Each(layers)) + 1 <= Budget(layers, seen)
  }

  lemma Visited(layers: Layers, live: seq<nat>, dead: set<Key>, seen: set<Key>, index: Vector,
                returned: seq<Vector>, walk: Walk, index': Vector, done': bool) returns (walk': Walk)
    requires Underway(layers, live, dead, seen, false, index, returned, walk)
    requires !HasDead(layers, dead, index)
    requires CarriesTo(index, Sizes(layers), |layers| - 1, index', done')
    ensures if KeyAt(layers, index) in seen
            then TurnEnds(layers, live, dead, seen, index, returned, walk, None, index', done', returned, walk')
            else TurnEnds(layers, live, dead, seen, index, returned, walk,
                          Some(PickAt(layers, index)), index', done', returned + [index], walk')
  {
    if KeyAt(layers, index) in seen {
      walk' := Passed(layers, live, dead, seen, index, returned, walk, index', done');
    } else {
      Found(layers, live, dead, seen, index, returned, walk, index', done');
      walk' := walk;
    }
  }

  // ---- What a whole plan yields ----

  ghost function Survivors(layers: Layers, dead: set<Key>, seen: set<Key>, vs: seq<Vector>): seq<Vector> {
    if vs == [] then []
    else
      var last := vs[|vs| - 1];
      Survivors(layers, dead, seen, vs[..|vs| - 1]) +
      if InBox(last, Sizes(layers)) && Survives(layers, dead, seen, last) then [last] else []
  }

  lemma {:induction false} SurvivorsAreSome(layers: Layers, dead: set<Key>, seen: set<Key>, vs: seq<Vector>)
    requires Ascending(vs)
    ensures Ascending(Survivors(layers, dead, seen, vs))
    ensures forall v :: v in Survivors(layers, dead, seen, vs) <==>
      v in vs && InBox(v, Sizes(layers)) && Survives(layers, dead, seen, v)
  {
    if vs != [] {
      var n := |vs| - 1;
      assert vs == vs[..n] + [vs[n]];
      forall i, j | 0 <= i < j < n ensures LexLess(vs[..n][i], vs[..n][j]) { assert LexLess(vs[i], vs[j]); }
      SurvivorsAreSome(layers, dead, seen, vs[..n]);
      forall v | v in vs[..n] ensures LexLess(v, vs[n]) {
        var i :| 0 <= i < n && vs[i] == v;
        assert LexLess(vs[i], vs[n]);
      }
      AscendingSnoc(Survivors(layers, dead, seen, vs[..n]), vs[n]);
    }
  }

  /** When no node dies under way, a finished plan has returned the filtered product, in order. */
  lemma FinishedPlan(layers: Layers, dead: set<Key>, seen: set<Key>, index: Vector, returned: seq<Vector>)
    requires Swept(layers, dead, seen, true, index, returned)
    requires forall v :: v in returned ==> InBox(v, Sizes(layers)) && Survives(layers, dead, seen, v)
    ensures returned == Survivors(layers, dead, seen, Product(Sizes(layers)))
  {
    var all := Product(Sizes(layers));
    ProductIsBox(Sizes(layers));
    SurvivorsAreSome(layers, dead, seen, all);
    forall v ensures v in returned <==> v in Survivors(layers, dead, seen, all) {
      if InBox(v, Sizes(layers)) { assert Settled(layers, dead, seen, returned, v); }
    }
    AscendingUnique(returned, Survivors(layers, dead, seen, all));
  }

  function PicksAt(layers: Layers, vs: seq<Vector>): seq<ChainPick>
    requires forall v :: v in vs ==> InBox(v, Sizes(layers))
  {
    seq(|vs|, i requires 0 <= i < |vs| => PickAt(layers, vs[i]))
  }

  // ---- The plan ----

  class ChainPlan {
    const layers: Layers
    /** Candidates of each layer not marked dead; zero anywhere means no chain can exist. */
    var live: seq<nat>
    /** The position in each layer. */
    var index: Vector
    var seen: set<Key>
    var dead: set<Key>
    var done: bool
    /** Loop iterations so far, as the work-bound tests count them. */
    var steps: nat
    /** Every index vector handed out, in order. */
    ghost var returned: seq<Vector>

    ghost predicate Valid()
      reads this
    {
      Counted(layers, live, dead, done) && Swept(layers, dead, seen, done, index, returned)
    }

    constructor (gates: seq<Order>, exits: seq<Order>)
      ensures Valid() && seen == {} && dead == {} && returned == [] && steps == 0
      ensures |layers| == |gates| + 1 && index == Zeros(|layers|)
      ensures forall k :: 0 <= k < |gates| ==> layers[k] == FirstOccurrences(HopsOf(gates[k]))
      ensures layers[|gates|] == FirstOccurrences(AllHops(exits))
      ensures forall k :: 0 <= k < |gates| ==> Chosen(layers[k], [gates[k]])
      ensures Chosen(layers[|gates|], exits)
      ensures done <==> exists k :: 0 <= k < |layers| && layers[k] == []
    {
      var ls: Layers := [];
      for g := 0 to |gates|
        invariant |ls| == g
        invariant forall k :: 0 <= k < g ==> ls[k] == FirstOccurrences(HopsOf(gates[k]))
      {
        var candidates := Deduplicate(HopsOf(gates[g]));
        ls := ls + [candidates];
      }
      var candidates := ExitCandidates(exits);
      ls := ls + [candidates];
      forall k | 0 <= k < |ls| ensures DistinctKeys(ls[k]) && Keyed(ls[k]) {
        FirstOccurrencesCover(if k < |gates| then HopsOf(gates[k]) else AllHops(exits));
      }
      forall k | 0 <= k < |gates| ensures Chosen(ls[k], [gates[k]]) { GateChosen(gates[k]); }
      FreshPlan(ls);
      layers, live, index := ls, Sizes(ls), Zeros(|ls|);
      seen, dead, steps, returned := {}, {}, 0, [];
      done := exists k :: 0 <= k < |ls| && ls[k] == [];
    }

    /** The first layer whose current candidate is dead. */
    method DeadLayer() returns (f: Option<nat>)
      requires InBox(index, Sizes(layers))
      ensures f.Some? ==> f.value < |layers| && FirstDead(layers, dead, index, f.value)
      ensures f.None? ==> !HasDead(layers, dead, index)
    {
      for i := 0 to |layers|
        invariant forall k :: 0 <= k < i ==> !DeadAt(layers, dead, index, k)
      {
        if layers[i][index[i]].key in dead { return Some(i); }
      }
      return None;
    }

    method CurrentPick() returns (pick: ChainPick)
      requires layers != [] && InBox(index, Sizes(layers))
      ensures pick == PickAt(layers, index)
    {
      var hops: seq<Hop> := [];
      for i := 0 to |layers|
        invariant hops == HopsAt(layers, index)[..i]
      {
        hops := hops + [layers[i][index[i]].hop];
      }
      var chain := Chain(Proxies(hops));
      NodesOfLinked(Proxies(hops));
      return ChainPick(hops, KeyOf(chain.value));
    }

    /** Step the last layer, carrying leftwards. */
    method Advance()
      requires layers != [] && |index| == |layers| && !done
      modifies this`index, this`done
      ensures CarriesTo(old(index), Sizes(layers), |layers| - 1, index, done)
    {
      ghost var sizes := Sizes(layers);
      WholeCarry(index, sizes);
      ghost var goal := Carry(index, sizes, |layers| - 1);
      var i := |layers|;
      while i > 0
        invariant 0 <= i <= |layers| == |index| && !done
        invariant goal == if i > 0 then Carry(index, sizes, i - 1) else (index, true)
      {
        i := i - 1;
        CarryStep(index, sizes, i);
        Overwritten(index, i, index[i] + 1);
        index := index[i := index[i] + 1];
        if index[i] < |layers[i]| { return; }
        index := index[i := 0];
      }
      done := true;
    }

    /** Reset every layer after `f`. */
    method ResetLayers(f: nat)
      requires f < |layers| == |index|
      modifies this`index
      ensures index == ResetAfter(old(index), f)
    {
      for k := f + 1 to |layers|
        invariant |index| == |layers|
        invariant forall i :: 0 <= i < |layers| ==> index[i] == if f < i < k then 0 else old(index)[i]
      {
        index := index[k := 0];
      }
      IsReset(old(index), f, index);
    }

    /** Step layer `f` instead, resetting everything after it. */
    method JumpSubtree(f: nat)
      requires f < |layers| == |index| && !done
      modifies this`index, this`done
      ensures CarriesTo(old(index), Sizes(layers), f, index, done)
    {
      ResetLayers(f);
      ghost var sizes := Sizes(layers);
      CarryAfterReset(old(index), sizes, f);
      ghost var goal := Carry(index, sizes, f);
      var i := f;
      while true
        invariant 0 <= i < |layers| == |index| && !done
        invariant goal == Carry(index, sizes, i)
        decreases i
      {
        CarryStep(index, sizes, i);
        Overwritten(index, i, index[i] + 1);
        index := index[i := index[i] + 1];
        if index[i] < |layers[i]| { return; }
        index := index[i := 0];
        if i == 0 {
          done := true;
          return;
        }
        i := i - 1;
      }
    }

    /** One turn of the loop on a vector with a dead node: jump over its subtree. */
    method TurnDead(f: nat, ghost walk: Walk) returns (ghost walk': Walk)
      requires !done && Underway(layers, live, dead, seen, done, index, returned, walk)
      requires f < |layers| && FirstDead(layers, dead, index, f)
      modifies this`index, this`done
      ensures Underway(layers, live, dead, seen, done, index, returned, walk')
      ensures Spent(walk, Each(layers)) + 1 <= Spent(walk', Each(layers))
      ensures Remaining(layers, done, index) < Remaining(layers, false, old(index))
    {
      JumpSubtree(f);
      walk' := Jumped(layers, live, dead, seen, old(index), returned, walk, f, index, done);
    }

    /** One turn of the loop on any other vector: move past it, and return it unless it was excluded. */
    method TurnAlive(ghost walk: Walk) returns (pick: Option<ChainPick>, ghost walk': Walk)
      requires !done && Underway(layers, live, dead, seen, done, index, returned, walk)
      requires !HasDead(layers, dead, index)
      modifies this`index, this`done, this`returned
      ensures TurnEnds(layers, live, dead, seen, old(index), old(returned), walk, pick, index, done, returned, walk')
    {
      var next := CurrentPick();
      Advance();
      walk' := Visited(layers, live, dead, seen, old(index), returned, walk, index, done);
      if next.key !in seen {
        returned := returned + [old(index)];
        return Some(next), walk';
      }
      return None, walk';
    }

    /**
     * The next chain that survives, or `None` at the end of the plan. One call
     * costs at most twice the sum of the layer sizes for each chain it looks at.
     */
    method NextPick() returns (pick: Option<ChainPick>)
      requires Valid()
      modifies this`index, this`done, this`steps, this`returned
      ensures Valid()
      ensures pick.None? ==> done && returned == old(returned)
      ensures pick.Some? ==> Delivers(layers, dead, seen, old(returned), returned, pick.value)
      ensures steps <= old(steps) + Budget(layers, seen)
      ensures pick.Some? ==> Remaining(layers, done, index) < Remaining(layers, old(done), old(index))
    {
      WalkBegins(layers, dead, seen, done, index, []);
      ghost var walk := Walk([], index, |layers|, 0);
      while !done
        invariant Underway(layers, live, dead, seen, done, index, returned, walk)
        invariant returned == old(returned) && steps <= old(steps) + Spent(walk, Each(layers))
        invariant Remaining(layers, done, index) <= Remaining(layers, old(done), old(index))
        decreases Remaining(layers, done, index)
      {
        steps := steps + 1;
        var deadLayer := DeadLayer();
        if deadLayer.Some? {
          walk := TurnDead(deadLayer.value, walk);
          continue;
        }
        pick, walk := TurnAlive(walk);
        if pick.Some? { return; }
      }
      WalkBounded(layers, live, dead, seen, done, index, returned, walk);
      return None;
    }

    /** Drain the plan: with every mark made up front, this is the filtered Cartesian product. */
    method Collect() returns (picks: seq<ChainPick>)
      requires Valid() && returned == []
      modifies this`index, this`done, this`steps, this`returned
      ensures Valid() && done
      ensures returned == Survivors(layers, dead, seen, Product(Sizes(layers)))
      ensures picks == PicksAt(layers, returned)
    {
      picks := [];
      while true
        invariant Valid()
        invariant forall v :: v in returned ==> InBox(v, Sizes(layers)) && Survives(layers, dead, seen, v)
        invariant picks == PicksAt(layers, returned)
        decreases Remaining(layers, done, index)
      {
        ghost var before := returned;
        var pick := NextPick();
        if pick.None? { break; }
        picks := picks + [pick.value];
        assert returned == before + [returned[|before|]];
      }
      FinishedPlan(layers, dead, seen, index, returned);
    }

    /** Exclude every combination containing this node, now and later. */
    method MarkDead(proxy: ProxyConfig)
      requires Valid()
      modifies this`dead, this`live, this`done
      ensures Valid() && dead == old(dead) + {[Id(proxy)]}
      ensures done <==> (old(done) || exists k :: 0 <= k < |layers| && live[k] == 0)
    {
      var key := SingletonKey(proxy);
      if key in dead {
        assert dead + {key} == dead;
        assert forall k :: 0 <= k < |live| ==> old(done) || live[k] > 0;
        return;
      }
      dead := dead + {key};
      ghost var dead' := dead;
      for k := 0 to |layers|
        invariant |live| == |layers| && dead == dead'
        invariant forall i :: k <= i < |layers| ==> live[i] == old(live)[i]
        invariant forall i :: 0 <= i < k ==> live[i] == CountLive(layers[i], dead')
        invariant done <==> (old(done) || exists i :: 0 <= i < k && live[i] == 0)
      {
        assert DistinctKeys(layers[k]);
        assert old(live)[k] == CountLive(layers[k], old(dead)) && (old(done) || old(live)[k] > 0);
        CountLiveAfterDeath(layers[k], old(dead), key);
        if key in KeysOf(layers[k]) {
          live := live[k := live[k] - 1];
          if live[k] == 0 {
            done := true;
          }
        }
      }
      GrowthKeeps(layers, old(dead), dead, seen, seen, old(done), done, index, returned);
    }

    /** Exclude one complete chain. */
    method Exclude(key: Key)
      requires Valid()
      modifies this`seen
      ensures Valid() && seen == old(seen) + {key}
    {
      seen := seen + {key};
      assert forall k :: 0 <= k < |live| ==> live[k] == CountLive(layers[k], dead) && (done || live[k] > 0);
      GrowthKeeps(layers, dead, dead, old(seen), seen, done, done, index, returned);
    }
  }

  lemma FreshPlan(layers: Layers)
    requires WellFormed(layers)
    ensures var done := exists k :: 0 <= k < |layers| && layers[k] == [];
      Counted(layers, Sizes(layers), {}, done) && Swept(layers, {}, {}, done, Zeros(|layers|), [])
  {
    forall k | 0 <= k < |layers| ensures |layers[k]| == CountLive(layers[k], {}) {
      CountLiveNone(layers[k]);
    }
    forall w, k | 0 <= k < |layers| && layers[k] == [] ensures !InBox(w, Sizes(layers)) {
      assert Sizes(layers)[k] == 0;
    }
    forall w, k: nat ensures !LessAt(w, Zeros(|layers|), k) {}
  }
}
