/**
 * Index vectors of a mixed-radix odometer: lexicographic order, the carry
 * step that skips a whole subtree, rank, and the full product in order.
 */
module Odometer {
  import opened Wrappers

  type Vector = seq<nat>

  ghost predicate InBox(v: Vector, sizes: Vector) {
    |v| == |sizes| && forall k :: 0 <= k < |v| ==> v[k] < sizes[k]
  }

  /** `v` and `w` agree on their first `m` places. */
  ghost predicate SharesPrefix(w: Vector, v: Vector, m: nat) {
    m <= |w| && m <= |v| && forall k :: 0 <= k < m ==> w[k] == v[k]
  }

  /** `k` is the first place where `u` and `v` differ, and `u` is smaller there. */
  ghost predicate LessAt(u: Vector, v: Vector, k: nat) {
    |u| == |v| && k < |u| && SharesPrefix(u, v, k) && u[k] < v[k]
  }

  ghost predicate LexLess(u: Vector, v: Vector) {
    exists k: nat :: LessAt(u, v, k)
  }

  lemma LexTransitive(u: Vector, v: Vector, w: Vector)
    requires LexLess(u, v) && LexLess(v, w)
    ensures LexLess(u, w)
  {
    var j: nat :| LessAt(u, v, j);
    var k: nat :| LessAt(v, w, k);
    assert LessAt(u, w, if j < k then j else k);
  }

  lemma LexAsymmetric(u: Vector, v: Vector)
    requires LexLess(u, v)
    ensures u != v && !LexLess(v, u)
  {
    var j: nat :| LessAt(u, v, j);
    forall k: nat ensures !LessAt(v, u, k) {}
  }

  /** From place `m` on, two vectors that agree before it are equal or ordered. */
  lemma {:induction false} LexTrichotomy(u: Vector, v: Vector, m: nat)
    requires |u| == |v| && m <= |u| && SharesPrefix(u, v, m)
    ensures u == v || LexLess(u, v) || LexLess(v, u)
    decreases |u| - m
  {
    if m < |u| {
      if u[m] == v[m] {
        LexTrichotomy(u, v, m + 1);
      } else {
        assert LessAt(u, v, m) || LessAt(v, u, m);
      }
    }
  }

  // ---- The carry step ----

  /** The place that moves when place `f` is advanced: the last one, up to `f`, with room left. */
  function Pivot(v: Vector, sizes: Vector, f: nat): (p: Option<nat>)
    requires |v| == |sizes| && f < |v|
    ensures p.Some? ==> p.value <= f && v[p.value] + 1 < sizes[p.value]
    ensures forall k :: (if p.Some? then p.value else -1) < k <= f ==> v[k] + 1 >= sizes[k]
  {
    if v[f] + 1 < sizes[f] then Some(f)
    else if f == 0 then None
    else Pivot(v, sizes, f - 1)
  }

  /** Advance place `j` by one and reset every later place. */
  function Bump(v: Vector, j: nat): Vector
    requires j < |v|
  {
    seq(|v|, k requires 0 <= k < |v| => if k < j then v[k] else if k == j then v[k] + 1 else 0)
  }

  lemma BumpMovesForward(v: Vector, sizes: Vector, j: nat)
    requires InBox(v, sizes) && j < |v| && v[j] + 1 < sizes[j]
    ensures InBox(Bump(v, j), sizes) && LexLess(v, Bump(v, j))
  {
    assert LessAt(v, Bump(v, j), j);
  }

  /**
   * The carry out of place `f` skips nothing but the subtree it was asked to
   * skip: what lies before the new position lies before the old one or agrees
   * with it up to and including place `f`.
   */
  lemma CarryGap(v: Vector, sizes: Vector, f: nat, w: Vector)
    requires InBox(v, sizes) && InBox(w, sizes) && f < |v|
    requires var p := Pivot(v, sizes, f); p.Some? ==> LexLess(w, Bump(v, p.value))
    ensures LexLess(w, v) || SharesPrefix(w, v, f + 1)
  {
    var p := Pivot(v, sizes, f);
    if p.Some? {
      var b := Bump(v, p.value);
      var k: nat :| LessAt(w, b, k);
      assert k <= p.value;
      assert forall i :: 0 <= i < k ==> w[i] == b[i] == v[i];
      if k < p.value || w[k] < v[k] {
        assert LessAt(w, v, k);
      } else {
        LastPlaces(v, sizes, p.value + 1, f, w);
      }
    } else {
      LastPlaces(v, sizes, 0, f, w);
    }
  }

  /** Where `v` holds its last digit in every place from `m` to `f`, nothing can exceed it there. */
  lemma {:induction false} LastPlaces(v: Vector, sizes: Vector, m: nat, f: nat, w: Vector)
    requires InBox(v, sizes) && InBox(w, sizes) && m <= f + 1 <= |v| && SharesPrefix(w, v, m)
    requires forall k :: m <= k <= f ==> v[k] + 1 >= sizes[k]
    ensures LexLess(w, v) || SharesPrefix(w, v, f + 1)
    decreases f + 1 - m
  {
    if m <= f {
      if w[m] == v[m] {
        LastPlaces(v, sizes, m + 1, f, w);
      } else {
        assert LessAt(w, v, m);
      }
    }
  }

  /** Step wheel `i`; past its last digit it starts over. */
  function Ticked(v: Vector, sizes: Vector, i: nat): Vector
    requires |v| == |sizes| && i < |v|
  {
    v[i := if v[i] + 1 < sizes[i] then v[i] + 1 else 0]
  }

  /** Step wheel `f` and let the carry run leftwards; true when it runs off the front. */
  function Carry(v: Vector, sizes: Vector, f: nat): (Vector, bool)
    requires |v| == |sizes| && f < |v|
    decreases f
  {
    var w := Ticked(v, sizes, f);
    if v[f] + 1 < sizes[f] then (w, false)
    else if f == 0 then (w, true)
    else Carry(w, sizes, f - 1)
  }

  /** One turn of a wheel, seen from the loop that turns it. */
  lemma CarryStep(v: Vector, sizes: Vector, i: nat)
    requires |v| == |sizes| && i < |v|
    ensures Carry(v, sizes, i) ==
            if v[i] + 1 < sizes[i] then (v[i := v[i] + 1], false)
            else if i == 0 then (v[i := 0], true)
            else Carry(v[i := 0], sizes, i - 1)
  {
  }

  function Zeros(n: nat): Vector {
    seq(n, _ => 0)
  }

  /** `v` with everything after place `f` reset. */
  function ResetAfter(v: Vector, f: nat): Vector
    requires f < |v|
  {
    v[..f + 1] + Zeros(|v| - f - 1)
  }

  lemma IsReset(v: Vector, f: nat, w: Vector)
    requires f < |v| == |w|
    requires forall k :: 0 <= k < |v| ==> w[k] == if k <= f then v[k] else 0
    ensures w == ResetAfter(v, f)
  {
  }

  lemma {:induction false} PivotByPrefix(v: Vector, w: Vector, sizes: Vector, f: nat)
    requires |v| == |w| == |sizes| && f < |v| && SharesPrefix(v, w, f + 1)
    ensures Pivot(v, sizes, f) == Pivot(w, sizes, f)
  {
    if f > 0 { PivotByPrefix(v, w, sizes, f - 1); }
  }

  /** The wheel-by-wheel carry moves the pivot and zeroes everything behind it. */
  lemma {:induction false} CarryIsBump(v: Vector, sizes: Vector, f: nat)
    requires |v| == |sizes| && f < |v| && forall k :: f < k < |v| ==> v[k] == 0
    ensures var p := Pivot(v, sizes, f);
      Carry(v, sizes, f) == if p.Some? then (Bump(v, p.value), false) else (Zeros(|v|), true)
    decreases f
  {
    var w := Ticked(v, sizes, f);
    if v[f] + 1 < sizes[f] {
      assert w == Bump(v, f);
    } else if f == 0 {
      assert w == Zeros(|v|);
    } else {
      CarryIsBump(w, sizes, f - 1);
      PivotByPrefix(v, w, sizes, f - 1);
      var p := Pivot(v, sizes, f - 1);
      assert p.Some? ==> Bump(w, p.value) == Bump(v, p.value);
    }
  }

  /** Where the odometer goes when place `f` is advanced: past every vector sharing the prefix up to `f`. */
  ghost predicate CarriesTo(v: Vector, sizes: Vector, f: nat, v': Vector, over: bool)
    requires |v| == |sizes| && f < |v|
  {
    var p := Pivot(v, sizes, f);
    if p.Some? then v' == Bump(v, p.value) && !over else v' == Zeros(|v|) && over
  }

  lemma CarryAfterReset(v: Vector, sizes: Vector, f: nat)
    requires |v| == |sizes| && f < |v|
    ensures var c := Carry(ResetAfter(v, f), sizes, f); CarriesTo(v, sizes, f, c.0, c.1)
  {
    var w := ResetAfter(v, f);
    CarryIsBump(w, sizes, f);
    PivotByPrefix(v, w, sizes, f);
    var p := Pivot(v, sizes, f);
    assert p.Some? ==> Bump(w, p.value) == Bump(v, p.value);
  }

  lemma WholeCarry(v: Vector, sizes: Vector)
    requires |v| == |sizes| && v != []
    ensures var c := Carry(v, sizes, |v| - 1); CarriesTo(v, sizes, |v| - 1, c.0, c.1)
  {
    CarryIsBump(v, sizes, |v| - 1);
  }

  lemma Overwritten(v: Vector, i: nat, x: nat)
    requires i < |v|
    ensures v[i := x][i := 0] == v[i := 0]
  {
  }

  /** A carry that does not end the count moves up. */
  lemma CarryMoves(v: Vector, sizes: Vector, f: nat, v': Vector)
    requires InBox(v, sizes) && f < |v| && CarriesTo(v, sizes, f, v', false)
    ensures InBox(v', sizes) && LexLess(v, v')
    ensures Rank(v, sizes) < Rank(v', sizes) < Volume(sizes)
  {
    BumpMovesForward(v, sizes, Pivot(v, sizes, f).value);
    RankGrows(v, v', sizes);
    RankBelowVolume(v', sizes);
  }

  // ---- Rank, for termination ----

  function Volume(sizes: Vector): nat {
    if sizes == [] then 1 else sizes[0] * Volume(sizes[1..])
  }

  function Rank(v: Vector, sizes: Vector): nat
    requires |v| == |sizes|
  {
    if v == [] then 0 else v[0] * Volume(sizes[1..]) + Rank(v[1..], sizes[1..])
  }

  lemma Scale(a: nat, b: nat, c: nat)
    requires a <= b
    ensures a * c <= b * c
  {
  }

  lemma DigitGap(a: nat, b: nat, c: nat, r: nat)
    requires a < b && r < c
    ensures a * c + r < b * c
  {
    Scale(a + 1, b, c);
    assert (a + 1) * c == a * c + c;
  }

  lemma {:induction false} RankBelowVolume(v: Vector, sizes: Vector)
    requires InBox(v, sizes)
    ensures Rank(v, sizes) < Volume(sizes)
  {
    if v != [] {
      RankBelowVolume(v[1..], sizes[1..]);
      DigitGap(v[0], sizes[0], Volume(sizes[1..]), Rank(v[1..], sizes[1..]));
    }
  }

  /** Lexicographic order is rank order. */
  lemma {:induction false} RankGrows(u: Vector, v: Vector, sizes: Vector)
    requires InBox(u, sizes) && InBox(v, sizes) && LexLess(u, v)
    ensures Rank(u, sizes) < Rank(v, sizes)
  {
    var k: nat :| LessAt(u, v, k);
    if k == 0 {
      DigitGap(u[0], v[0], Volume(sizes[1..]), Rank(u[1..], sizes[1..])) by {
        RankBelowVolume(u[1..], sizes[1..]);
      }
    } else {
      assert LessAt(u[1..], v[1..], k - 1);
      RankGrows(u[1..], v[1..], sizes[1..]);
    }
  }

  // ---- Sorted lists of vectors, and the full product ----

  ghost predicate Ascending(s: seq<Vector>) {
    forall i, j {:trigger LexLess(s[i], s[j])} :: 0 <= i < j < |s| ==> LexLess(s[i], s[j])
  }

  lemma AscendingSnoc(s: seq<Vector>, v: Vector)
    requires Ascending(s) && forall w :: w in s ==> LexLess(w, v)
    ensures Ascending(s + [v])
  {
  }

  /** Two ascending lists with the same members are the same list. */
  lemma {:induction false} AscendingUnique(s: seq<Vector>, t: seq<Vector>)
    requires Ascending(s) && Ascending(t)
    requires forall v :: v in s <==> v in t
    ensures s == t
  {
    assert t != [] ==> t[0] in t;
    if s != [] {
      assert s[0] in t;
      var i :| 0 <= i < |t| && t[i] == s[0];
      assert t[0] in s;
      var j :| 0 <= j < |s| && s[j] == t[0];
      if i > 0 {
        assert LexLess(t[0], t[i]);
        if j > 0 { assert LexLess(s[0], s[j]); }
        LexAsymmetric(t[0], t[i]);
      }
      forall v ensures v in s[1..] <==> v in t[1..] { TailMembers(s, v); TailMembers(t, v); }
      AscendingUnique(s[1..], t[1..]);
    }
  }

  lemma TailMembers(s: seq<Vector>, v: Vector)
    requires Ascending(s) && s != []
    ensures v in s[1..] <==> v in s && v != s[0]
  {
    if v in s[1..] {
      var i :| 0 <= i < |s[1..]| && s[1..][i] == v;
      assert LexLess(s[0], s[i + 1]);
      LexAsymmetric(s[0], v);
    }
  }

  function Prefixed(d: nat, s: seq<Vector>): seq<Vector> {
    seq(|s|, i requires 0 <= i < |s| => [d] + s[i])
  }

  /** All vectors whose first digit is below `d`, followed by a member of `tails`. */
  function Spread(d: nat, tails: seq<Vector>): seq<Vector> {
    if d == 0 then [] else Spread(d - 1, tails) + Prefixed(d - 1, tails)
  }

  /** Every vector of the box, in lexicographic order: the Cartesian product. */
  function Product(sizes: Vector): seq<Vector> {
    if sizes == [] then [[]] else Spread(sizes[0], Product(sizes[1..]))
  }

  lemma {:induction false} SpreadMembers(d: nat, tails: seq<Vector>, v: Vector)
    ensures v in Spread(d, tails) <==> v != [] && v[0] < d && v[1..] in tails
  {
    if d > 0 {
      SpreadMembers(d - 1, tails, v);
      var block := Prefixed(d - 1, tails);
      if v in block {
        var i :| 0 <= i < |block| && block[i] == v;
        assert v[1..] == tails[i];
      }
      if v != [] && v[0] == d - 1 && v[1..] in tails {
        var i :| 0 <= i < |tails| && tails[i] == v[1..];
        assert block[i] == [v[0]] + v[1..] == v;
      }
    }
  }

  lemma {:induction false} SpreadAscending(d: nat, tails: seq<Vector>, n: nat)
    requires Ascending(tails) && forall t :: t in tails ==> |t| == n
    ensures Ascending(Spread(d, tails))
  {
    if d > 0 {
      SpreadAscending(d - 1, tails, n);
      var front, block := Spread(d - 1, tails), Prefixed(d - 1, tails);
      forall i, j | 0 <= i < j < |front + block| ensures LexLess((front + block)[i], (front + block)[j]) {
        if j >= |front| {
          var y := block[j - |front|];
          var t := tails[j - |front|];
          if i < |front| {
            SpreadMembers(d - 1, tails, front[i]);
            assert LessAt(front[i], y, 0);
          } else {
            var s := tails[i - |front|];
            assert LexLess(tails[i - |front|], tails[j - |front|]);
            var k: nat :| LessAt(s, t, k);
            assert LessAt([d - 1] + s, [d - 1] + t, k + 1);
          }
        }
      }
    }
  }

  lemma BoxByFirst(v: Vector, sizes: Vector)
    requires sizes != []
    ensures InBox(v, sizes) <==> v != [] && v[0] < sizes[0] && InBox(v[1..], sizes[1..])
  {
    if v != [] && v[0] < sizes[0] && InBox(v[1..], sizes[1..]) {
      forall k | 0 <= k < |v| ensures v[k] < sizes[k] {
        if k > 0 { assert v[1..][k - 1] < sizes[1..][k - 1]; }
      }
    }
  }

  lemma {:induction false} ProductMembers(sizes: Vector, v: Vector)
    ensures v in Product(sizes) <==> InBox(v, sizes)
  {
    if sizes != [] {
      SpreadMembers(sizes[0], Product(sizes[1..]), v);
      BoxByFirst(v, sizes);
      if v != [] { ProductMembers(sizes[1..], v[1..]); }
    }
  }

  lemma {:induction false} ProductAscends(sizes: Vector)
    ensures Ascending(Product(sizes))
  {
    if sizes != [] {
      var tails := Product(sizes[1..]);
      ProductAscends(sizes[1..]);
      forall t | t in tails ensures |t| == |sizes| - 1 { ProductMembers(sizes[1..], t); }
      SpreadAscending(sizes[0], tails, |sizes| - 1);
    }
  }

  /** The product lists exactly the box, each vector once, in order. */
  lemma {:induction false} ProductIsBox(sizes: Vector)
    ensures Ascending(Product(sizes))
    ensures forall v :: v in Product(sizes) <==> InBox(v, sizes)
  {
    ProductAscends(sizes);
    forall v ensures v in Product(sizes) <==> InBox(v, sizes) { ProductMembers(sizes, v); }
  }
}
