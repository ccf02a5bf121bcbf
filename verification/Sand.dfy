/**
 * The sand model over exact reals: sand piles up on failure, decays with
 * time, and sets an upstream's selection weight. The exponential and the
 * logarithm are any pair of functions with the laws below.
 */
module SandModel {
  datatype Calculus = Calculus(exp: real -> real, ln: real -> real)

  ghost predicate GrowsAt(m: Calculus, x: real, y: real) {
    x < y ==> m.exp(x) < m.exp(y)
  }

  ghost predicate AddsAt(m: Calculus, x: real, y: real) {
    m.exp(x + y) == m.exp(x) * m.exp(y)
  }

  ghost predicate UndoesAt(m: Calculus, y: real) {
    y > 0.0 ==> m.exp(m.ln(y)) == y
  }

  ghost predicate Lawful(m: Calculus) {
    && m.exp(0.0) == 1.0
    && (forall x: real :: m.exp(x) > 0.0)
    && (forall x, y :: GrowsAt(m, x, y))
    && (forall x, y :: AddsAt(m, x, y))
    && (forall y :: UndoesAt(m, y))
  }

  datatype Policy = Policy(halfLife: real, failPenalty: real, sandMax: real, minWeight: real, successFactor: real)

  /** The ranges `validate` accepts. */
  predicate Validates(p: Policy) {
    && p.halfLife > 0.0 && p.failPenalty >= 0.0 && p.sandMax > 0.0
    && 0.0 < p.minWeight <= 1.0 && 0.0 <= p.successFactor <= 1.0
  }

  function Tau(m: Calculus, p: Policy): real
    requires m.ln(2.0) != 0.0
  {
    p.halfLife / m.ln(2.0)
  }

  function K(m: Calculus, p: Policy): real
    requires p.sandMax != 0.0 && p.minWeight != 0.0
  {
    m.ln(1.0 / p.minWeight) / p.sandMax
  }

  /** The factor by which sand decays over a stretch of time. */
  function DecayBy(m: Calculus, tau: real): nat -> real
    requires tau != 0.0
  {
    dt => m.exp(-(dt as real / tau))
  }

  /** A pile of sand: its level when last touched, and when that was. */
  datatype Pile = Pile(level: real, last: nat)

  function Elapsed(s: Pile, now: nat): nat {
    if now > s.last then now - s.last else 0
  }

  /** Residues below a millionth of the ceiling count as none. */
  function Residue(level: real, sandMax: real): real {
    if level < sandMax * 0.000001 then 0.0 else level
  }

  function LevelAt(p: Policy, decay: nat -> real, s: Pile, now: nat): real {
    Residue(s.level * decay(Elapsed(s, now)), p.sandMax)
  }

  function MinReal(a: real, b: real): real {
    if a <= b then a else b
  }

  function Failed(p: Policy, decay: nat -> real, s: Pile, now: nat): Pile {
    Pile(MinReal(LevelAt(p, decay, s, now) + p.failPenalty, p.sandMax), now)
  }

  function Succeeded(p: Policy, decay: nat -> real, s: Pile, now: nat): Pile {
    Pile(LevelAt(p, decay, s, now) * p.successFactor, now)
  }

  function Weight(m: Calculus, k: real, level: real): real {
    m.exp(-(k * level))
  }

  class Sand {
    var level: real
    var last: nat

    function View(): Pile
      reads this
    {
      Pile(level, last)
    }

    constructor (now: nat)
      ensures View() == Pile(0.0, now)
    {
      level, last := 0.0, now;
    }

    method ObserveFailure(m: Calculus, p: Policy, now: nat)
      requires m.ln(2.0) != 0.0 && Tau(m, p) != 0.0
      modifies this
      ensures View() == Failed(p, DecayBy(m, Tau(m, p)), old(View()), now)
    {
      var raised := LevelAt(p, DecayBy(m, Tau(m, p)), View(), now) + p.failPenalty;
      level := MinReal(raised, p.sandMax);
      last := now;
    }

    method ObserveSuccess(m: Calculus, p: Policy, now: nat)
      requires m.ln(2.0) != 0.0 && Tau(m, p) != 0.0
      modifies this
      ensures View() == Succeeded(p, DecayBy(m, Tau(m, p)), old(View()), now)
    {
      level := LevelAt(p, DecayBy(m, Tau(m, p)), View(), now) * p.successFactor;
      last := now;
    }
  }

  // ---- Facts of real arithmetic ----

  lemma Shrink(a: real, f: real)
    requires 0.0 <= a && 0.0 <= f <= 1.0
    ensures 0.0 <= a * f <= a
  {
    assert a * (1.0 - f) >= 0.0;
  }

  lemma Quotient(a: real, b: real)
    requires a >= 0.0 && b > 0.0
    ensures a / b >= 0.0 && (a / b) * b == a && (a > 0.0 ==> a / b > 0.0)
  {
  }

  lemma Inverse(w: real)
    requires 0.0 < w <= 1.0
    ensures 1.0 / w >= 1.0 && 1.0 / (1.0 / w) == w
  {
    var y := 1.0 / w;
    assert y * w == 1.0;
    assert y < 1.0 ==> (1.0 - y) * w > 0.0;
  }

  lemma ScaleCompare(c: real, a: real, b: real)
    requires c > 0.0
    ensures c * a < c * b <==> a < b
  {
    assert a < b ==> c * (b - a) > 0.0;
    assert a > b ==> c * (a - b) > 0.0;
  }

  lemma ExpOrders(m: Calculus, x: real, y: real)
    requires Lawful(m)
    ensures m.exp(x) < m.exp(y) <==> x < y
  {
    assert GrowsAt(m, x, y) && GrowsAt(m, y, x);
  }

  lemma ExpOfLog(m: Calculus, y: real)
    requires Lawful(m) && y > 0.0
    ensures m.exp(m.ln(y)) == y
  {
    assert UndoesAt(m, y);
  }

  lemma ExpOfMinusLog(m: Calculus, y: real)
    requires Lawful(m) && y > 0.0
    ensures m.exp(-m.ln(y)) == 1.0 / y
  {
    var x := m.ln(y);
    ExpOfLog(m, y);
    assert AddsAt(m, -x, x);
    assert -x + x == 0.0;
    Divided(m.exp(-x), y, 1.0);
  }

  lemma Divided(q: real, y: real, a: real)
    requires y > 0.0 && q * y == a
    ensures q == a / y
  {
  }

  lemma LogSigns(m: Calculus, y: real)
    requires Lawful(m) && y >= 1.0
    ensures m.ln(y) >= 0.0 && (y > 1.0 ==> m.ln(y) > 0.0)
  {
    ExpOfLog(m, y);
    ExpOrders(m, m.ln(y), 0.0);
    ExpOrders(m, 0.0, m.ln(y));
  }

  // ---- The amounts ----

  function TwoTo(n: nat): (x: real)
    ensures x > 0.0
  {
    if n == 0 then 1.0 else 2.0 * TwoTo(n - 1)
  }

  lemma HalvedOnce(e: real, half: real, two: real)
    requires e * two == 1.0 && half == 1.0 / 2.0
    ensures (e * half) * (2.0 * two) == 1.0
  {
    assert (e * half) * (2.0 * two) == (e * two) * (half * 2.0);
  }

  /** `x`, `n` times. */
  function Multiple(n: nat, x: real): real {
    if n == 0 then 0.0 else Multiple(n - 1, x) + x
  }

  lemma {:induction false} MultipleIsProduct(n: nat, x: real)
    ensures Multiple(n, x) == n as real * x
  {
    if n > 0 {
      MultipleIsProduct(n - 1, x);
      assert n as real == (n - 1) as real + 1.0;
      OneMore((n - 1) as real, n as real, x);
    }
  }

  lemma OneMore(a: real, b: real, x: real)
    requires b == a + 1.0
    ensures b * x == a * x + x
  {
  }

  lemma Distributes(a: real, x: real, tau: real)
    ensures (a + x) * tau == a * tau + x * tau
  {
  }

  lemma {:induction false} MultipleScales(n: nat, whole: real, tau: real, x: real)
    requires whole == x * tau
    ensures Multiple(n, whole) == Multiple(n, x) * tau
  {
    if n > 0 {
      MultipleScales(n - 1, whole, tau, x);
      Distributes(Multiple(n - 1, x), x, tau);
    }
  }

  lemma {:induction false} HalfLives(m: Calculus, n: nat)
    requires Lawful(m)
    ensures m.exp(-Multiple(n, m.ln(2.0))) * TwoTo(n) == 1.0
  {
    var l := m.ln(2.0);
    if n == 0 {
      assert -Multiple(0, l) == 0.0;
    } else {
      var x := Multiple(n - 1, l);
      HalfLives(m, n - 1);
      ExpOfMinusLog(m, 2.0);
      assert AddsAt(m, -x, -l);
      assert -Multiple(n, l) == -x + -l;
      HalvedOnce(m.exp(-x), m.exp(-l), TwoTo(n - 1));
    }
  }

  lemma TimeInHalfLives(dt: real, n: nat, halfLife: real, l: real)
    requires dt == n as real * halfLife && halfLife > 0.0 && l > 0.0
    ensures halfLife / l > 0.0 && dt / (halfLife / l) == Multiple(n, l)
  {
    Quotient(halfLife, l);
    var tau := halfLife / l;
    MultipleIsProduct(n, halfLife);
    assert l * tau == halfLife;
    MultipleScales(n, halfLife, tau, l);
    Divided(Multiple(n, l), tau, dt);
  }

  /** After `n` half-lives the level is that of a `2^n`-th part, or nothing below a millionth of the ceiling. */
  lemma LevelHalves(m: Calculus, p: Policy, s: Pile, now: nat, n: nat)
    requires Lawful(m) && Validates(p) && s.last <= now && (now - s.last) as real == n as real * p.halfLife
    ensures m.ln(2.0) > 0.0 && Tau(m, p) > 0.0
    ensures var d := s.level / TwoTo(n);
      LevelAt(p, DecayBy(m, Tau(m, p)), s, now) == if d < p.sandMax * 0.000001 then 0.0 else d
  {
    DecayIsFraction(m, p);
    DecayInHalfLives(m, p, now - s.last, n);
    Shared(s.level, DecayBy(m, Tau(m, p))(now - s.last), TwoTo(n));
  }

  lemma DecayInHalfLives(m: Calculus, p: Policy, dt: nat, n: nat)
    requires Lawful(m) && Validates(p) && dt as real == n as real * p.halfLife
    requires m.ln(2.0) > 0.0 && Tau(m, p) > 0.0
    ensures DecayBy(m, Tau(m, p))(dt) * TwoTo(n) == 1.0
  {
    HalfLives(m, n);
    TimeInHalfLives(dt as real, n, p.halfLife, m.ln(2.0));
  }

  lemma Shared(level: real, e: real, two: real)
    requires two > 0.0 && e * two == 1.0
    ensures level * e == level / two
  {
    assert (level * e) * two == level * (e * two);
    Divided(level * e, two, level);
  }

  /** A failure then adds the penalty, up to the ceiling; a success multiplies by its factor. */
  lemma AmountsObserved(m: Calculus, p: Policy, s: Pile, now: nat, n: nat)
    requires Lawful(m) && Validates(p) && s.last <= now && (now - s.last) as real == n as real * p.halfLife
    requires s.level / TwoTo(n) >= p.sandMax * 0.000001
    ensures m.ln(2.0) > 0.0 && Tau(m, p) > 0.0
    ensures var d, decay := s.level / TwoTo(n), DecayBy(m, Tau(m, p));
      && Failed(p, decay, s, now) == Pile(if d + p.failPenalty <= p.sandMax then d + p.failPenalty else p.sandMax, now)
      && Succeeded(p, decay, s, now) == Pile(d * p.successFactor, now)
  {
    LevelHalves(m, p, s, now, n);
  }

  /** Decay over two stretches of time is that over both. */
  lemma DecayAdds(m: Calculus, tau: real, a: nat, b: nat)
    requires Lawful(m) && tau > 0.0
    ensures DecayBy(m, tau)(a + b) == DecayBy(m, tau)(a) * DecayBy(m, tau)(b)
  {
    var x, y := a as real / tau, b as real / tau;
    assert (x + y) * tau == (a + b) as real;
    Divided(x + y, tau, (a + b) as real);
    assert AddsAt(m, -x, -y);
    assert -(x + y) == -x + -y;
  }

  /** No sand, full weight; and the weight of two amounts together is the product of theirs. */
  lemma WeightsMultiply(m: Calculus, k: real, a: real, b: real)
    requires Lawful(m)
    ensures Weight(m, k, 0.0) == 1.0
    ensures Weight(m, k, a + b) == Weight(m, k, a) * Weight(m, k, b)
  {
    assert k * 0.0 == 0.0;
    assert AddsAt(m, -(k * a), -(k * b));
    assert -(k * (a + b)) == -(k * a) + -(k * b);
  }

  // ---- Every run ----

  datatype Event = Event(failure: bool, now: nat)

  function Run(p: Policy, decay: nat -> real, start: nat, events: seq<Event>): Pile {
    if events == [] then Pile(0.0, start)
    else Observed(p, decay, Run(p, decay, start, events[..|events| - 1]), events[|events| - 1])
  }

  function Observed(p: Policy, decay: nat -> real, s: Pile, e: Event): Pile {
    if e.failure then Failed(p, decay, s, e.now) else Succeeded(p, decay, s, e.now)
  }

  ghost predicate Fraction(decay: nat -> real) {
    forall dt: nat :: 0.0 <= decay(dt) <= 1.0
  }

  /** Time only ever takes sand away. */
  lemma DecayIsFraction(m: Calculus, p: Policy)
    requires Lawful(m) && Validates(p)
    ensures m.ln(2.0) > 0.0 && Tau(m, p) > 0.0 && Fraction(DecayBy(m, Tau(m, p)))
  {
    LogSigns(m, 2.0);
    Quotient(p.halfLife, m.ln(2.0));
    var tau := Tau(m, p);
    forall dt: nat ensures 0.0 <= DecayBy(m, tau)(dt) <= 1.0 {
      Quotient(dt as real, tau);
      ExpOrders(m, 0.0, -(dt as real / tau));
    }
  }

  lemma LevelInRange(p: Policy, decay: nat -> real, s: Pile, now: nat)
    requires p.sandMax > 0.0 && Fraction(decay) && 0.0 <= s.level <= p.sandMax
    ensures 0.0 <= LevelAt(p, decay, s, now) <= p.sandMax
  {
    DecayedInRange(s.level, decay(Elapsed(s, now)), p.sandMax);
  }

  lemma DecayedInRange(level: real, f: real, max: real)
    requires 0.0 <= level <= max && max > 0.0 && 0.0 <= f <= 1.0
    ensures 0.0 <= Residue(level * f, max) <= max
  {
    ShrinkBelow(level, f, max);
    ResidueInRange(level * f, max);
  }

  lemma ResidueInRange(level: real, max: real)
    requires 0.0 <= level <= max
    ensures 0.0 <= Residue(level, max) <= max
  {
  }

  lemma StepInRange(p: Policy, decay: nat -> real, s: Pile, e: Event)
    requires Validates(p) && Fraction(decay) && 0.0 <= s.level <= p.sandMax
    ensures 0.0 <= Observed(p, decay, s, e).level <= p.sandMax
  {
    LevelInRange(p, decay, s, e.now);
    if !e.failure { ShrinkBelow(LevelAt(p, decay, s, e.now), p.successFactor, p.sandMax); }
  }

  lemma ShrinkBelow(a: real, f: real, max: real)
    requires 0.0 <= a <= max && 0.0 <= f <= 1.0
    ensures 0.0 <= a * f <= max
  {
    Shrink(a, f);
  }

  lemma {:induction false} LevelStaysInRange(p: Policy, decay: nat -> real, start: nat, events: seq<Event>)
    requires Validates(p) && Fraction(decay)
    ensures 0.0 <= Run(p, decay, start, events).level <= p.sandMax
  {
    if events != [] {
      var n := |events| - 1;
      LevelStaysInRange(p, decay, start, events[..n]);
      StepInRange(p, decay, Run(p, decay, start, events[..n]), events[n]);
    }
  }

  lemma LogOfInverse(m: Calculus, w: real) returns (g: real)
    requires Lawful(m) && 0.0 < w <= 1.0
    ensures g == m.ln(1.0 / w) && g >= 0.0 && m.exp(-g) == w
  {
    Inverse(w);
    LogSigns(m, 1.0 / w);
    ExpOfMinusLog(m, 1.0 / w);
    g := m.ln(1.0 / w);
  }

  lemma KAtCeiling(m: Calculus, p: Policy, g: real)
    requires p.sandMax > 0.0 && p.minWeight > 0.0 && g == m.ln(1.0 / p.minWeight) && g >= 0.0
    ensures K(m, p) >= 0.0 && K(m, p) * p.sandMax == g
  {
    Quotient(g, p.sandMax);
  }

  /** A weight depends only on the product of `k` and the level. */
  lemma WeightByProduct(m: Calculus, k: real, level: real, product: real)
    requires k * level == product
    ensures Weight(m, k, level) == m.exp(-product)
  {
  }

  /** `k` is chosen so that the weight at the ceiling is exactly `minWeight`. */
  lemma {:induction false} WeightAtCeiling(m: Calculus, p: Policy)
    requires Lawful(m) && Validates(p)
    ensures Weight(m, K(m, p), p.sandMax) == p.minWeight && K(m, p) >= 0.0
  {
    var g := LogOfInverse(m, p.minWeight);
    KAtCeiling(m, p, g);
    WeightByProduct(m, K(m, p), p.sandMax, g);
  }

  lemma WeightInRange(m: Calculus, k: real, level: real, sandMax: real)
    requires Lawful(m) && k >= 0.0 && 0.0 <= level <= sandMax
    ensures Weight(m, k, sandMax) <= Weight(m, k, level) <= 1.0
  {
    assert k * level >= 0.0;
    assert k * (sandMax - level) >= 0.0;
    ExpOrders(m, -(k * level), -(k * sandMax));
    ExpOrders(m, 0.0, -(k * level));
  }

  /** On every run, at every instant, the level is within the ceiling and the weight between `minWeight` and 1. */
  lemma {:induction false} WeightStaysInRange(m: Calculus, p: Policy, start: nat, events: seq<Event>, now: nat)
    requires Lawful(m) && Validates(p)
    ensures m.ln(2.0) > 0.0 && Tau(m, p) > 0.0
    ensures var decay := DecayBy(m, Tau(m, p));
      var level := LevelAt(p, decay, Run(p, decay, start, events), now);
      0.0 <= level <= p.sandMax && p.minWeight <= Weight(m, K(m, p), level) <= 1.0
  {
    DecayIsFraction(m, p);
    var decay := DecayBy(m, Tau(m, p));
    LevelStaysInRange(p, decay, start, events);
    LevelInRange(p, decay, Run(p, decay, start, events), now);
    WeightAtCeiling(m, p);
    WeightInRange(m, K(m, p), LevelAt(p, decay, Run(p, decay, start, events), now), p.sandMax);
  }

  // ---- Sand has no unit ----

  function Scaled(p: Policy, c: real): Policy {
    p.(failPenalty := c * p.failPenalty, sandMax := c * p.sandMax)
  }

  /** A pile measured in units of `1 / c`. */
  function InUnits(c: real, s: Pile): Pile {
    Pile(c * s.level, s.last)
  }

  lemma ScaledResidue(c: real, level: real, sandMax: real)
    requires c > 0.0
    ensures Residue(c * level, c * sandMax) == c * Residue(level, sandMax)
  {
    ScaleCompare(c, level, sandMax * 0.000001);
    assert (c * sandMax) * 0.000001 == c * (sandMax * 0.000001);
  }

  lemma ScaledMin(c: real, a: real, b: real)
    requires c > 0.0
    ensures MinReal(c * a, c * b) == c * MinReal(a, b)
  {
    ScaleCompare(c, b, a);
  }

  lemma ScaledLevel(p: Policy, c: real, decay: nat -> real, s: Pile, now: nat)
    requires c > 0.0
    ensures LevelAt(Scaled(p, c), decay, InUnits(c, s), now) == c * LevelAt(p, decay, s, now)
  {
    var f := decay(Elapsed(s, now));
    Regroup(c, s.level, f);
    ScaledResidue(c, s.level * f, p.sandMax);
  }

  lemma Regroup(a: real, b: real, c: real)
    ensures (a * b) * c == a * (b * c)
  {
  }

  lemma Distribute(c: real, a: real, b: real)
    ensures c * a + c * b == c * (a + b)
  {
  }

  lemma ScaledFailure(p: Policy, c: real, decay: nat -> real, s: Pile, now: nat)
    requires c > 0.0
    ensures Failed(Scaled(p, c), decay, InUnits(c, s), now) == InUnits(c, Failed(p, decay, s, now))
  {
    var level := LevelAt(p, decay, s, now);
    ScaledLevel(p, c, decay, s, now);
    Distribute(c, level, p.failPenalty);
    ScaledMin(c, level + p.failPenalty, p.sandMax);
  }

  lemma ScaledSuccess(p: Policy, c: real, decay: nat -> real, s: Pile, now: nat)
    requires c > 0.0
    ensures Succeeded(Scaled(p, c), decay, InUnits(c, s), now) == InUnits(c, Succeeded(p, decay, s, now))
  {
    ScaledLevel(p, c, decay, s, now);
    Regroup(c, LevelAt(p, decay, s, now), p.successFactor);
  }

  lemma ScaledObservation(p: Policy, c: real, decay: nat -> real, s: Pile, e: Event)
    requires c > 0.0
    ensures Observed(Scaled(p, c), decay, InUnits(c, s), e) == InUnits(c, Observed(p, decay, s, e))
  {
    if e.failure { ScaledFailure(p, c, decay, s, e.now); } else { ScaledSuccess(p, c, decay, s, e.now); }
  }

  lemma {:induction false} ScaledRun(p: Policy, c: real, decay: nat -> real, start: nat, events: seq<Event>)
    requires c > 0.0
    ensures Run(Scaled(p, c), decay, start, events) == InUnits(c, Run(p, decay, start, events))
  {
    if events != [] {
      var n := |events| - 1;
      ScaledRun(p, c, decay, start, events[..n]);
      ScaledObservation(p, c, decay, Run(p, decay, start, events[..n]), events[n]);
    }
  }

  lemma ScaledQuotient(g: real, s: real, c: real, l: real)
    requires s > 0.0 && c > 0.0
    ensures c * s > 0.0 && (g / (c * s)) * (c * l) == (g / s) * l
  {
    assert c * s > 0.0;
    var q := g / (c * s);
    assert q * (c * s) == g;
    Regroup(q, c, s);
    assert q * c == g / s;
    Regroup(q, c, l);
  }

  lemma ScaledK(m: Calculus, p: Policy, c: real, level: real)
    requires p.sandMax > 0.0 && p.minWeight > 0.0 && c > 0.0
    ensures Scaled(p, c).sandMax > 0.0
    ensures K(m, Scaled(p, c)) * (c * level) == K(m, p) * level
  {
    ScaledQuotient(m.ln(1.0 / p.minWeight), p.sandMax, c, level);
  }

  lemma ScaledWeight(m: Calculus, p: Policy, c: real, level: real, level': real)
    requires Validates(p) && c > 0.0 && level' == c * level
    ensures Scaled(p, c).sandMax > 0.0
    ensures Weight(m, K(m, Scaled(p, c)), level') == Weight(m, K(m, p), level)
  {
    ScaledK(m, p, c, level);
    var product := K(m, p) * level;
    WeightByProduct(m, K(m, p), level, product);
    WeightByProduct(m, K(m, Scaled(p, c)), level', product);
  }

  /** Measuring sand in another unit changes no weight on any run. */
  lemma {:induction false} WeightsAreUnitFree(m: Calculus, p: Policy, c: real, start: nat, events: seq<Event>, now: nat)
    requires Lawful(m) && Validates(p) && c > 0.0
    ensures Scaled(p, c).sandMax > 0.0 && m.ln(2.0) > 0.0
    ensures Tau(m, Scaled(p, c)) == Tau(m, p) > 0.0
    ensures var p', decay := Scaled(p, c), DecayBy(m, Tau(m, p));
      Weight(m, K(m, p'), LevelAt(p', decay, Run(p', decay, start, events), now))
        == Weight(m, K(m, p), LevelAt(p, decay, Run(p, decay, start, events), now))
  {
    DecayIsFraction(m, p);
    var decay := DecayBy(m, Tau(m, p));
    ScaledRun(p, c, decay, start, events);
    SamePileSameWeight(m, p, c, decay, Run(p, decay, start, events), now);
  }

  lemma SamePileSameWeight(m: Calculus, p: Policy, c: real, decay: nat -> real, s: Pile, now: nat)
    requires Validates(p) && c > 0.0
    ensures Scaled(p, c).sandMax > 0.0
    ensures Weight(m, K(m, Scaled(p, c)), LevelAt(Scaled(p, c), decay, InUnits(c, s), now))
      == Weight(m, K(m, p), LevelAt(p, decay, s, now))
  {
    ScaledLevel(p, c, decay, s, now);
    ScaledWeight(m, p, c, LevelAt(p, decay, s, now), LevelAt(Scaled(p, c), decay, InUnits(c, s), now));
  }
}
