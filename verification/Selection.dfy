/** Drawing one index by weight, and ordering indices by random keys. */
module Selection {
  import Model = SandModel

  // ---- One index ----

  /** Sum of the positive weights before position `n`. */
  function Cumulative(weights: seq<real>, n: nat): (c: real)
    requires n <= |weights|
    ensures c >= 0.0
  {
    if n == 0 then 0.0
    else Cumulative(weights, n - 1) + if weights[n - 1] > 0.0 then weights[n - 1] else 0.0
  }

  lemma {:induction false} CumulativeGrows(weights: seq<real>, m: nat, n: nat)
    requires m <= n <= |weights|
    ensures Cumulative(weights, m) <= Cumulative(weights, n)
    ensures (exists i :: m <= i < n && weights[i] > 0.0) ==> Cumulative(weights, m) < Cumulative(weights, n)
    decreases n
  {
    if m < n { CumulativeGrows(weights, m, n - 1); }
  }

  /** `r` is the index whose cumulative interval the dart falls in; a dart at zero goes to the first one. */
  ghost predicate Hits(weights: seq<real>, dart: real, r: nat) {
    && r < |weights| && weights[r] > 0.0 && dart <= Cumulative(weights, r + 1)
    && if dart > 0.0 then Cumulative(weights, r) < dart else forall i :: 0 <= i < r ==> weights[i] <= 0.0
  }

  /** Where the draw `u` lands on the line of all weights. */
  ghost function Dart(weights: seq<real>, u: real): real {
    u * Cumulative(weights, |weights|)
  }

  /** The intervals do not overlap, so the index is determined. */
  lemma HitsIsUnique(weights: seq<real>, dart: real, r: nat, s: nat)
    requires Hits(weights, dart, r) && Hits(weights, dart, s)
    ensures r == s
  {
    if r < s { CumulativeGrows(weights, r + 1, s); }
    if s < r { CumulativeGrows(weights, s + 1, r); }
  }

  /** The darts that hit an index fill an interval as long as its weight. */
  lemma ShareIsWeight(weights: seq<real>, r: nat) returns (from: real)
    requires r < |weights| && weights[r] > 0.0
    ensures from >= 0.0
    ensures forall dart: real :: dart > 0.0 ==> (Hits(weights, dart, r) <==> from < dart <= from + weights[r])
  {
    from := Cumulative(weights, r);
  }

  /** And the intervals leave no gap. */
  lemma {:induction false} EveryDartHits(weights: seq<real>, n: nat, dart: real) returns (r: nat)
    requires n <= |weights| && 0.0 < dart <= Cumulative(weights, n)
    ensures Hits(weights, dart, r)
  {
    r := n - 1;
    if dart <= Cumulative(weights, r) { r := EveryDartHits(weights, r, dart); }
  }

  method Largest(weights: seq<real>) returns (max: real)
    ensures max >= 0.0 && forall i :: 0 <= i < |weights| ==> weights[i] <= max
    ensures max > 0.0 ==> exists i :: 0 <= i < |weights| && weights[i] == max
  {
    max := 0.0;
    for i := 0 to |weights|
      invariant max >= 0.0 && forall k :: 0 <= k < i ==> weights[k] <= max
      invariant max > 0.0 ==> exists k :: 0 <= k < i && weights[k] == max
    {
      if weights[i] > max { max := weights[i]; }
    }
  }

  /** `total` counts `sum` in units of `max`. */
  ghost predicate CountsIn(total: real, max: real, sum: real) {
    total * max == sum
  }

  method NormalizedTotal(weights: seq<real>, max: real) returns (total: real)
    requires max > 0.0
    ensures CountsIn(total, max, Cumulative(weights, |weights|))
  {
    total := 0.0;
    ghost var sum := 0.0;
    for i := 0 to |weights|
      invariant CountsIn(total, max, sum) && sum == Cumulative(weights, i)
    {
      if weights[i] > 0.0 {
        AddShare(total, weights[i], max, sum);
        total := total + weights[i] / max;
        sum := sum + weights[i];
      }
    }
  }

  lemma AddShare(total: real, w: real, max: real, sum: real)
    requires max > 0.0 && CountsIn(total, max, sum)
    ensures CountsIn(total + w / max, max, sum + w)
  {
    assert (w / max) * max == w;
  }

  /**
   * The index drawn by `u`, 0 when nothing has weight. The loop always stops
   * inside: exact arithmetic never reaches the fallback after it.
   */
  method WeightedIndex(weights: seq<real>, u: real) returns (r: nat)
    requires 0.0 <= u < 1.0
    ensures (exists i :: 0 <= i < |weights| && weights[i] > 0.0) ==>
      Hits(weights, Dart(weights, u), r)
    ensures (forall i :: 0 <= i < |weights| ==> weights[i] <= 0.0) ==> r == 0
  {
    var max := Largest(weights);
    if max <= 0.0 { return 0; }
    var total := NormalizedTotal(weights, max);
    ghost var all := Cumulative(weights, |weights|);
    ghost var target := Dart(weights, u);
    CumulativeGrows(weights, 0, |weights|);
    Aim(u, total, max, all, target);
    r := Throw(weights, max, u * total, target);
  }

  /** Walk the intervals, taking each weight off the dart until it is used up. */
  method Throw(weights: seq<real>, max: real, start: real, ghost target: real) returns (r: nat)
    requires max > 0.0 && OnCourse(start, max, target) && 0.0 <= target < Cumulative(weights, |weights|)
    ensures Hits(weights, target, r)
  {
    var dart := start;
    ghost var left := target;
    for i := 0 to |weights|
      invariant left == target - Cumulative(weights, i) && OnCourse(dart, max, left)
      invariant left > 0.0 || (target == 0.0 && Cumulative(weights, i) == 0.0)
      invariant left > 0.0 || forall k :: 0 <= k < i ==> weights[k] <= 0.0
    {
      if weights[i] > 0.0 {
        var share := weights[i] / max;
        Advance(dart, share, weights[i], max, left);
        dart, left := dart - share, left - weights[i];
        if dart <= 0.0 { return i; }
      }
    }
    assert false;
  }

  /** The dart, in units of the largest weight, stands for `left`. */
  ghost predicate OnCourse(dart: real, max: real, left: real) {
    dart * max == left && (dart > 0.0 <==> left > 0.0) && (dart < 0.0 <==> left < 0.0)
  }

  /** The dart starts inside the total, at zero only when the draw is zero. */
  lemma Aim(u: real, total: real, max: real, all: real, target: real)
    requires 0.0 <= u < 1.0 && max > 0.0 && all > 0.0 && total * max == all && target == u * all
    ensures OnCourse(u * total, max, target)
    ensures 0.0 <= target < all
  {
    Model.Regroup(u, total, max);
    SignOf(u, all);
    SignOf(1.0 - u, all);
    assert (1.0 - u) * all == all - target;
    SignOf(u * total, max);
  }

  /** Taking one weight off the dart, in either unit. */
  lemma Advance(dart: real, share: real, w: real, max: real, left: real)
    requires OnCourse(dart, max, left) && max > 0.0 && w > 0.0 && share == w / max
    ensures OnCourse(dart - share, max, left - w)
  {
    assert share * max == w;
    SignOf(dart - share, max);
  }

  lemma SignOf(x: real, max: real)
    requires max > 0.0
    ensures x * max > 0.0 <==> x > 0.0
    ensures x * max == 0.0 <==> x == 0.0
  {
    if x > 0.0 { assert x * max > 0.0; }
    if x < 0.0 { assert (-x) * max > 0.0; }
  }

  // ---- A random order ----

  /** A sort key: a real, or infinity for weights that cannot be selected. */
  datatype SortKey = Finite(key: real) | Infinite

  datatype Keyed = Keyed(index: nat, key: SortKey)

  predicate KeyLess(a: SortKey, b: SortKey) {
    a.Finite? && (b.Infinite? || a.key < b.key)
  }

  /** By key, ties by index. */
  predicate InOrder(a: Keyed, b: Keyed) {
    KeyLess(a.key, b.key) || (a.key == b.key && a.index <= b.index)
  }

  ghost predicate Sorted(s: seq<Keyed>) {
    forall i, j :: 0 <= i < j < |s| ==> InOrder(s[i], s[j])
  }

  function Indices(s: seq<Keyed>): seq<nat> {
    seq(|s|, i requires 0 <= i < |s| => s[i].index)
  }

  /** The key of a weight and a draw below one. Zero draws and weights that are not positive sort last. */
  function SortKeyOf(m: Model.Calculus, w: real, u: real): SortKey {
    if w > 0.0 && u > 0.0 then Finite(m.ln(-m.ln(u)) - m.ln(w)) else Infinite
  }

  /** The keyed indices of weights and their draws. */
  function KeysOf(m: Model.Calculus, weights: seq<real>, draws: seq<real>): (keyed: seq<Keyed>)
    requires |draws| == |weights|
  {
    seq(|weights|, i requires 0 <= i < |weights| => Keyed(i, SortKeyOf(m, weights[i], draws[i])))
  }

  method WeightedKeys(m: Model.Calculus, weights: seq<real>, draws: seq<real>) returns (keyed: seq<Keyed>)
    requires |draws| == |weights|
    ensures keyed == KeysOf(m, weights, draws)
  {
    keyed := [];
    for i := 0 to |weights|
      invariant keyed == KeysOf(m, weights, draws)[..i]
    {
      keyed := keyed + [Keyed(i, SortKeyOf(m, weights[i], draws[i]))];
    }
  }

  // ---- What the keys stand for ----

  /** `u` to the power of `1 / w`, for a draw between zero and one. */
  function Power(m: Model.Calculus, u: real, w: real): real
    requires w > 0.0
  {
    m.exp(m.ln(u) / w)
  }

  lemma LogOfDraw(m: Model.Calculus, u: real)
    requires Model.Lawful(m) && 0.0 < u < 1.0
    ensures m.ln(u) < 0.0
  {
    Model.ExpOfLog(m, u);
    Model.ExpOrders(m, m.ln(u), 0.0);
  }

  lemma TimesInverse(a: real, w: real)
    requires w > 0.0
    ensures a * (1.0 / w) == a / w
  {
  }

  lemma NegatedQuotient(a: real, w: real)
    requires w > 0.0
    ensures (-a) / w == -(a / w)
  {
  }

  /** Undoing the logarithms: a key stands for a quotient. */
  lemma ExpOfDifference(m: Model.Calculus, a: real, w: real)
    requires Model.Lawful(m) && a > 0.0 && w > 0.0
    ensures m.exp(m.ln(a) - m.ln(w)) == a / w
  {
    Model.ExpOfLog(m, a);
    Model.ExpOfMinusLog(m, w);
    TimesInverse(a, w);
    assert Model.AddsAt(m, m.ln(a), -m.ln(w));
    assert m.ln(a) - m.ln(w) == m.ln(a) + -m.ln(w);
  }

  /** Sorting the keys ascending sorts `u^(1/w)` descending. */
  lemma KeysOrderPowers(m: Model.Calculus, u: real, w: real, v: real, x: real)
    requires Model.Lawful(m) && 0.0 < u < 1.0 && 0.0 < v < 1.0 && w > 0.0 && x > 0.0
    ensures KeyLess(SortKeyOf(m, w, u), SortKeyOf(m, x, v)) <==> Power(m, u, w) > Power(m, v, x)
  {
    LogOfDraw(m, u);
    LogOfDraw(m, v);
    var a, b := -m.ln(u), -m.ln(v);
    ExpOfDifference(m, a, w);
    ExpOfDifference(m, b, x);
    Model.ExpOrders(m, m.ln(a) - m.ln(w), m.ln(b) - m.ln(x));
    NegatedQuotient(m.ln(u), w);
    NegatedQuotient(m.ln(v), x);
    Model.ExpOrders(m, m.ln(v) / x, m.ln(u) / w);
  }

  lemma LogOfProduct(m: Model.Calculus, c: real, w: real)
    requires Model.Lawful(m) && c > 0.0 && w > 0.0 && c * w > 0.0
    ensures m.ln(c * w) == m.ln(c) + m.ln(w)
  {
    var x, y := m.ln(c * w), m.ln(c) + m.ln(w);
    Model.ExpOfLog(m, c);
    Model.ExpOfLog(m, w);
    Model.ExpOfLog(m, c * w);
    assert Model.AddsAt(m, m.ln(c), m.ln(w));
    Model.ExpOrders(m, x, y);
    Model.ExpOrders(m, y, x);
  }

  /** A key moved by a constant; infinity stays. */
  function Lowered(k: SortKey, d: real): SortKey {
    if k.Finite? then Finite(k.key - d) else k
  }

  /** A factor in a weight moves its key by a constant. */
  lemma ScaledKey(m: Model.Calculus, c: real, w: real, product: real, u: real)
    requires Model.Lawful(m) && c > 0.0 && product == c * w
    ensures SortKeyOf(m, product, u) == Lowered(SortKeyOf(m, w, u), m.ln(c))
  {
    SignOf(w, c);
    assert product == w * c;
    if w > 0.0 { LogOfProduct(m, c, w); }
  }

  // ---- Sorting by key ----

  lemma InOrderTransitive(a: Keyed, b: Keyed, c: Keyed)
    requires InOrder(a, b) && InOrder(b, c)
    ensures InOrder(a, c)
  {
  }

  lemma InOrderTotal(a: Keyed, b: Keyed)
    ensures InOrder(a, b) || InOrder(b, a)
  {
  }

  function InsertedAt(s: seq<Keyed>, i: nat, x: Keyed): seq<Keyed>
    requires i <= |s|
  {
    s[..i] + [x] + s[i..]
  }

  lemma InsertKeepsAll(s: seq<Keyed>, i: nat, x: Keyed)
    requires i <= |s|
    ensures multiset(InsertedAt(s, i, x)) == multiset(s) + multiset{x}
  {
    assert s == s[..i] + s[i..];
  }

  lemma InsertedElement(s: seq<Keyed>, i: nat, x: Keyed, j: nat)
    requires i <= |s| && j <= |s|
    ensures InsertedAt(s, i, x)[j] == if j < i then s[j] else if j == i then x else s[j - 1]
  {
  }

  lemma InsertKeepsOrder(s: seq<Keyed>, i: nat, x: Keyed)
    requires Sorted(s) && i <= |s|
    requires forall k :: 0 <= k < i ==> InOrder(s[k], x)
    requires forall k :: i <= k < |s| ==> InOrder(x, s[k])
    ensures Sorted(InsertedAt(s, i, x))
  {
    var r := InsertedAt(s, i, x);
    forall j, k | 0 <= j < k < |r| ensures InOrder(r[j], r[k]) {
      InsertedElement(s, i, x, j);
      InsertedElement(s, i, x, k);
    }
  }

  method InsertSorted(sorted: seq<Keyed>, x: Keyed) returns (r: seq<Keyed>)
    requires Sorted(sorted)
    ensures Sorted(r) && multiset(r) == multiset(sorted) + multiset{x}
  {
    var i := 0;
    while i < |sorted| && InOrder(sorted[i], x)
      invariant 0 <= i <= |sorted|
      invariant forall k :: 0 <= k < i ==> InOrder(sorted[k], x)
    {
      i := i + 1;
    }
    forall k | i <= k < |sorted| ensures InOrder(x, sorted[k]) {
      InOrderTotal(x, sorted[i]);
      if i < k { InOrderTransitive(x, sorted[i], sorted[k]); }
    }
    InsertKeepsOrder(sorted, i, x);
    InsertKeepsAll(sorted, i, x);
    r := InsertedAt(sorted, i, x);
  }

  ghost predicate SortedFrom(sorted: seq<Keyed>, keyed: seq<Keyed>) {
    Sorted(sorted) && multiset(sorted) == multiset(keyed)
  }

  /** The indices, ordered by their keys and then by themselves. */
  ghost predicate OrderOf(order: seq<nat>, keyed: seq<Keyed>) {
    exists sorted :: SortedFrom(sorted, keyed) && order == Indices(sorted)
  }

  method OrderKeys(keyed: seq<Keyed>) returns (order: seq<nat>)
    ensures OrderOf(order, keyed)
  {
    var s: seq<Keyed> := [];
    for i := 0 to |keyed|
      invariant Sorted(s) && multiset(s) == multiset(keyed[..i])
    {
      s := InsertSorted(s, keyed[i]);
      assert keyed[..i + 1] == keyed[..i] + [keyed[i]];
    }
    assert keyed[..|keyed|] == keyed;
    assert SortedFrom(s, keyed);
    return Indices(s);
  }

  method WeightedOrder(m: Model.Calculus, weights: seq<real>, draws: seq<real>) returns (order: seq<nat>)
    requires |draws| == |weights|
    ensures OrderOf(order, KeysOf(m, weights, draws))
  {
    var keyed := WeightedKeys(m, weights, draws);
    order := OrderKeys(keyed);
  }

  // ---- What the order promises ----

  /** Every element carries its own position. */
  ghost predicate Numbered(keyed: seq<Keyed>) {
    forall i :: 0 <= i < |keyed| ==> keyed[i].index == i
  }

  lemma SortedElement(sorted: seq<Keyed>, keyed: seq<Keyed>, a: nat)
    requires Numbered(keyed) && multiset(sorted) == multiset(keyed) && a < |sorted|
    ensures sorted[a].index < |keyed| && keyed[sorted[a].index] == sorted[a]
  {
    assert sorted[a] in multiset(sorted);
  }

  lemma AtMostOnce(keyed: seq<Keyed>, j: nat)
    requires Numbered(keyed) && j < |keyed|
    ensures multiset(keyed)[keyed[j]] == 1
  {
    var x := keyed[j];
    assert keyed == keyed[..j] + [x] + keyed[j + 1..];
    assert x !in keyed[..j] && x !in keyed[j + 1..];
  }

  lemma TwiceInSequence(s: seq<Keyed>, a: nat, b: nat)
    requires a < b < |s| && s[a] == s[b]
    ensures multiset(s)[s[a]] >= 2
  {
    assert s == s[..b] + [s[b]] + s[b + 1..];
    assert s[a] in s[..b];
  }

  lemma DifferentIndices(sorted: seq<Keyed>, keyed: seq<Keyed>, a: nat, b: nat)
    requires Numbered(keyed) && multiset(sorted) == multiset(keyed) && a < b < |sorted|
    ensures sorted[a].index != sorted[b].index
  {
    SortedElement(sorted, keyed, a);
    SortedElement(sorted, keyed, b);
    if sorted[a].index == sorted[b].index {
      AtMostOnce(keyed, sorted[a].index);
      TwiceInSequence(sorted, a, b);
    }
  }

  /** Two places of an order: different indices, by their keys. */
  lemma OrderedByKey(order: seq<nat>, keyed: seq<Keyed>, a: nat, b: nat)
    requires OrderOf(order, keyed) && Numbered(keyed) && a < b < |order|
    ensures order[a] < |keyed| && order[b] < |keyed| && order[a] != order[b]
    ensures InOrder(keyed[order[a]], keyed[order[b]])
  {
    var s :| SortedFrom(s, keyed) && order == Indices(s);
    SortedElement(s, keyed, a);
    SortedElement(s, keyed, b);
    DifferentIndices(s, keyed, a, b);
  }

  /** An order has every index in it. */
  lemma OrderHasAll(order: seq<nat>, keyed: seq<Keyed>)
    requires OrderOf(order, keyed) && Numbered(keyed)
    ensures |order| == |keyed| && forall i: nat :: i in order <==> i < |keyed|
  {
    var s :| SortedFrom(s, keyed) && order == Indices(s);
    assert |s| == |multiset(s)| == |multiset(keyed)| == |keyed|;
    forall i: nat | i < |keyed| ensures i in order {
      assert keyed[i] in multiset(keyed);
      var a :| 0 <= a < |s| && s[a] == keyed[i];
      assert order[a] == i;
    }
    forall i: nat | i in order ensures i < |keyed| {
      var a :| 0 <= a < |order| && order[a] == i;
      SortedElement(s, keyed, a);
    }
  }

  /** Keys and indices leave nothing open. */
  lemma OrderIsDetermined(a: seq<nat>, b: seq<nat>, keyed: seq<Keyed>)
    requires OrderOf(a, keyed) && OrderOf(b, keyed)
    ensures a == b
  {
    var s :| SortedFrom(s, keyed) && a == Indices(s);
    var t :| SortedFrom(t, keyed) && b == Indices(t);
    SortedIsUnique(s, t);
  }

  lemma LeastIsFirst(s: seq<Keyed>, t: seq<Keyed>)
    requires Sorted(s) && s != [] && t != [] && multiset(s) == multiset(t)
    ensures InOrder(s[0], t[0])
  {
    assert t[0] in multiset(s);
    var i :| 0 <= i < |s| && s[i] == t[0];
  }

  lemma CancelOne(a: multiset<Keyed>, b: multiset<Keyed>, x: Keyed)
    requires a + multiset{x} == b + multiset{x}
    ensures a == b
  {
    assert a == (a + multiset{x}) - multiset{x};
  }

  /** Equal bags, first elements equal: the rests are equal bags. */
  lemma SameRest(s: seq<Keyed>, t: seq<Keyed>, i: nat, x: Keyed)
    requires i <= |t| && s != [] && s[0] == x && multiset(s) == multiset(InsertedAt(t, i, x))
    ensures multiset(s[1..]) == multiset(t)
  {
    assert s == InsertedAt(s[1..], 0, x);
    InsertKeepsAll(s[1..], 0, x);
    InsertKeepsAll(t, i, x);
    CancelOne(multiset(s[1..]), multiset(t), x);
  }

  lemma {:induction false} SortedIsUnique(s: seq<Keyed>, t: seq<Keyed>)
    requires Sorted(s) && Sorted(t) && multiset(s) == multiset(t)
    ensures s == t
  {
    assert |s| == |multiset(s)| == |multiset(t)| == |t|;
    if s != [] {
      LeastIsFirst(s, t);
      LeastIsFirst(t, s);
      assert t == InsertedAt(t[1..], 0, s[0]);
      SameRest(s, t[1..], 0, s[0]);
      SortedIsUnique(s[1..], t[1..]);
    }
  }

  function LoweredOne(x: Keyed, d: real): Keyed {
    Keyed(x.index, Lowered(x.key, d))
  }

  function LoweredAll(s: seq<Keyed>, d: real): seq<Keyed> {
    seq(|s|, i requires 0 <= i < |s| => LoweredOne(s[i], d))
  }

  lemma LoweredInsert(s: seq<Keyed>, i: nat, x: Keyed, d: real)
    requires i <= |s|
    ensures LoweredAll(InsertedAt(s, i, x), d) == InsertedAt(LoweredAll(s, d), i, LoweredOne(x, d))
  {
  }

  lemma TakenOut(t: seq<Keyed>, x: Keyed) returns (rest: seq<Keyed>, i: nat)
    requires x in multiset(t)
    ensures i <= |rest| && t == InsertedAt(rest, i, x)
  {
    i :| 0 <= i < |t| && t[i] == x;
    rest := t[..i] + t[i + 1..];
  }

  lemma {:induction false} LoweringKeepsAll(s: seq<Keyed>, t: seq<Keyed>, d: real)
    requires multiset(s) == multiset(t)
    ensures multiset(LoweredAll(s, d)) == multiset(LoweredAll(t, d))
  {
    if s == [] {
      assert |multiset(t)| == |t|;
    } else {
      var x := s[0];
      assert x in multiset(t);
      var rest, i := TakenOut(t, x);
      SameRest(s, rest, i, x);
      LoweringKeepsAll(s[1..], rest, d);
      assert s == InsertedAt(s[1..], 0, x);
      LoweredInsert(s[1..], 0, x, d);
      LoweredInsert(rest, i, x, d);
      InsertKeepsAll(LoweredAll(s[1..], d), 0, LoweredOne(x, d));
      InsertKeepsAll(LoweredAll(rest, d), i, LoweredOne(x, d));
    }
  }

  lemma LoweringKeepsOrder(order: seq<nat>, keyed: seq<Keyed>, d: real)
    requires OrderOf(order, keyed)
    ensures OrderOf(order, LoweredAll(keyed, d))
  {
    var s :| SortedFrom(s, keyed) && order == Indices(s);
    LoweringKeepsAll(s, keyed, d);
    assert SortedFrom(LoweredAll(s, d), LoweredAll(keyed, d));
    assert order == Indices(LoweredAll(s, d));
  }

  function ScaledBy(c: real, weights: seq<real>): seq<real> {
    seq(|weights|, i requires 0 <= i < |weights| => c * weights[i])
  }

  lemma ScaledKeys(m: Model.Calculus, c: real, weights: seq<real>, draws: seq<real>)
    requires Model.Lawful(m) && c > 0.0 && |draws| == |weights|
    ensures KeysOf(m, ScaledBy(c, weights), draws) == LoweredAll(KeysOf(m, weights, draws), m.ln(c))
  {
    forall i | 0 <= i < |weights|
      ensures SortKeyOf(m, ScaledBy(c, weights)[i], draws[i]) == Lowered(SortKeyOf(m, weights[i], draws[i]), m.ln(c))
    {
      ScaledKey(m, c, weights[i], ScaledBy(c, weights)[i], draws[i]);
    }
  }

  /** A common factor in all weights changes no order. */
  lemma ScaleKeepsOrder(m: Model.Calculus, c: real, weights: seq<real>, draws: seq<real>, order: seq<nat>)
    requires Model.Lawful(m) && c > 0.0 && |draws| == |weights|
    ensures OrderOf(order, KeysOf(m, weights, draws)) <==> OrderOf(order, KeysOf(m, ScaledBy(c, weights), draws))
  {
    var keyed, scaled := KeysOf(m, weights, draws), KeysOf(m, ScaledBy(c, weights), draws);
    ScaledKeys(m, c, weights, draws);
    assert keyed == LoweredAll(scaled, -m.ln(c));
    if OrderOf(order, keyed) { LoweringKeepsOrder(order, keyed, m.ln(c)); }
    if OrderOf(order, scaled) { LoweringKeepsOrder(order, scaled, -m.ln(c)); }
  }

  /** Before in the order: by a higher power, or by index at the same power. */
  ghost predicate Outranks(p: real, i: nat, q: real, j: nat) {
    p > q || (p == q && i < j)
  }

  lemma KeyedPowers(m: Model.Calculus, i: nat, u: real, w: real, j: nat, v: real, x: real)
    requires Model.Lawful(m) && 0.0 < u < 1.0 && 0.0 < v < 1.0 && w > 0.0 && x > 0.0 && i != j
    requires InOrder(Keyed(i, SortKeyOf(m, w, u)), Keyed(j, SortKeyOf(m, x, v)))
    ensures Outranks(Power(m, u, w), i, Power(m, v, x), j)
  {
    KeysOrderPowers(m, u, w, v, x);
    KeysOrderPowers(m, v, x, u, w);
  }

  /** Among positive weights with draws between zero and one, the highest `u^(1/w)` comes first. */
  lemma HighestPowerFirst(m: Model.Calculus, weights: seq<real>, draws: seq<real>, order: seq<nat>, a: nat, b: nat)
    requires Model.Lawful(m) && |draws| == |weights|
    requires forall i :: 0 <= i < |weights| ==> weights[i] > 0.0 && 0.0 < draws[i] < 1.0
    requires OrderOf(order, KeysOf(m, weights, draws)) && a < b < |order|
    ensures order[a] < |weights| && order[b] < |weights|
    ensures Outranks(Power(m, draws[order[a]], weights[order[a]]), order[a],
                     Power(m, draws[order[b]], weights[order[b]]), order[b])
  {
    OrderedByKey(order, KeysOf(m, weights, draws), a, b);
    var i, j := order[a], order[b];
    KeyedPowers(m, i, draws[i], weights[i], j, draws[j], weights[j]);
  }
}
