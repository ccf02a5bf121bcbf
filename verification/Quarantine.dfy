/**
 * One upstream's quarantine: consecutive hard failures trip it, the backoff
 * doubles with every trip up to a cap, then it is on probation and handed out
 * to one prober at a time until a success clears it.
 */
module Quarantine {
  import opened Wrappers
  import opened Clock

  const U32_MAX: nat := 0xFFFF_FFFF

  type U32 = x: nat | x <= U32_MAX

  /** The longest duration, in nanoseconds. */
  const DURATION_MAX: nat := 18446744073709551615_999999999
  /** A hundred years: the stand-in for a deadline the clock cannot represent. */
  const FAR: nat := 3153600000_000000000

  datatype Policy = Policy(threshold: U32, initial: nat, max: nat, probeLease: nat)

  /** The range of a duration. */
  ghost predicate Representable(p: Policy) {
    p.initial <= DURATION_MAX && p.max <= DURATION_MAX && p.probeLease <= DURATION_MAX
  }

  predicate Enabled(p: Policy) {
    p.threshold > 0
  }

  predicate Validates(p: Policy) {
    Enabled(p) ==> p.initial > 0 && p.max >= p.initial && p.probeLease > 0
  }

  /** An enabled policy that passed validation. */
  ghost predicate Sound(p: Policy) {
    Representable(p) && Enabled(p) && Validates(p)
  }

  // ---- Backoff length ----

  function Pow2(n: nat): nat {
    if n == 0 then 1 else 2 * Pow2(n - 1)
  }

  /** `x` doubled `n` times. */
  function Doubled(x: nat, n: nat): nat {
    if n == 0 then x else 2 * Doubled(x, n - 1)
  }

  lemma {:induction false} DoubledIsPower(x: nat, n: nat)
    ensures Doubled(x, n) == x * Pow2(n)
  {
    if n > 0 { DoubledIsPower(x, n - 1); }
  }

  lemma {:induction false} DoubledGrows(x: nat, m: nat, n: nat)
    requires m <= n
    ensures Doubled(x, m) <= Doubled(x, n)
    decreases n
  {
    if m < n { DoubledGrows(x, m, n - 1); }
  }

  lemma {:induction false} DoubledAdds(x: nat, m: nat, n: nat)
    ensures Doubled(x, m + n) == Doubled(Doubled(x, m), n)
  {
    if n > 0 { DoubledAdds(x, m, n - 1); }
  }

  lemma {:induction false} DoubledMonotone(x: nat, y: nat, n: nat)
    requires x <= y
    ensures Doubled(x, n) <= Doubled(y, n)
  {
    if n > 0 { DoubledMonotone(x, y, n - 1); }
  }

  /** Length of the `trips`-th quarantine: min(max, initial * 2^(trips - 1)). */
  function Backoff(p: Policy, trips: nat): nat {
    Min(p.max, Doubled(p.initial, if trips > 0 then trips - 1 else 0))
  }

  /** A hundred doublings exceed every representable duration. */
  lemma ManyDoublings(x: nat, n: nat)
    requires x > 0 && n >= 100
    ensures Doubled(x, n) > DURATION_MAX
  {
    DoubledMonotone(1, x, n);
    DoubledGrows(1, 100, n);
    assert Doubled(1, 10) == 1024 by {
      assert Doubled(1, 2) == 4;
      assert Doubled(1, 4) == 16;
      assert Doubled(1, 6) == 64;
      assert Doubled(1, 8) == 256;
    }
    Tenfold(10); Tenfold(20); Tenfold(30); Tenfold(40); Tenfold(50);
    Tenfold(60); Tenfold(70); Tenfold(80); Tenfold(90);
  }

  lemma Tenfold(m: nat)
    ensures Doubled(1, m + 10) == 1024 * Doubled(1, m)
  {
    var x := Doubled(1, m);
    assert Doubled(1, m + 2) == 4 * x;
    assert Doubled(1, m + 4) == 16 * x;
    assert Doubled(1, m + 6) == 64 * x;
    assert Doubled(1, m + 8) == 256 * x;
  }

  /** The saturating trip counter never shows: past the cap every backoff is the same. */
  lemma BackoffSaturates(p: Policy, trips: nat)
    requires Sound(p)
    ensures Backoff(p, Min(U32_MAX, trips)) == Backoff(p, trips)
  {
    if trips > U32_MAX {
      ManyDoublings(p.initial, U32_MAX - 1);
      ManyDoublings(p.initial, trips - 1);
    }
  }

  /** Doubling stops early, at the cap or where the duration type saturates, without changing the answer. */
  method DurationFor(p: Policy, trips: nat) returns (length: nat)
    requires Sound(p)
    ensures length == Backoff(p, trips)
  {
    length := p.initial;
    var n := if trips > 0 then trips - 1 else 0;
    for i := 0 to n
      invariant length == Doubled(p.initial, i) && (i > 0 ==> length < p.max)
    {
      var doubled := Min(2 * length, DURATION_MAX);
      var stuck := doubled == length;
      length := doubled;
      if stuck || length >= p.max {
        DoubledGrows(p.initial, i + 1, n);
        DoubledGrows(p.initial, 0, i);
        break;
      }
    }
    length := Min(length, p.max);
  }

  /** End of a period: `now + length`, a far-future stand-in, or `now` when neither is representable. */
  function Deadline(now: nat, length: nat, horizon: nat): nat {
    var sum := CheckedAdd(now, length, horizon);
    if sum.Some? then sum.value
    else
      var far := CheckedAdd(now, FAR, horizon);
      if far.Some? then far.value else now
  }

  // ---- The cell ----

  datatype State = Healthy | Quarantined | Probation

  /** The fields of a cell. */
  datatype Fields = Fields(consecutive: U32, trips: U32, until: Option<nat>, leaseUntil: Option<nat>)

  const FRESH := Fields(0, 0, None, None)

  function StateOf(c: Fields, now: nat): State {
    if c.until.None? then Healthy else if now < c.until.value then Quarantined else Probation
  }

  function Saturated(n: nat): U32 {
    Min(U32_MAX, n)
  }

  /** The next trip, whoever called for it. */
  function Trip(c: Fields, consecutive: U32, now: nat, p: Policy, horizon: nat): (Fields, nat) {
    var trips := Saturated(c.trips + 1);
    var length := Backoff(p, trips);
    (Fields(consecutive, trips, Some(Deadline(now, length, horizon)), None), length)
  }

  function HardFailure(c: Fields, now: nat, p: Policy, horizon: nat): (Fields, Option<nat>) {
    var consecutive := Saturated(c.consecutive + 1);
    if StateOf(c, now) == Quarantined then (c, None)
    else if consecutive < p.threshold then (c.(consecutive := consecutive, leaseUntil := None), None)
    else
      var t := Trip(c, consecutive, now, p, horizon);
      (t.0, Some(t.1))
  }

  function TripNow(c: Fields, now: nat, p: Policy, horizon: nat): (Fields, nat) {
    Trip(c, Max(c.consecutive, p.threshold), now, p, horizon)
  }

  function TryLease(c: Fields, now: nat, p: Policy, horizon: nat): (Fields, bool) {
    if StateOf(c, now) != Probation || (c.leaseUntil.Some? && now < c.leaseUntil.value) then (c, false)
    else
      var end := CheckedAdd(now, p.probeLease, horizon);
      (c.(leaseUntil := Some(if end.Some? then end.value else now)), true)
  }

  datatype Snapshot = Snapshot(state: State, left: nat, trips: U32, consecutive: U32)

  function TakeSnapshot(c: Fields, now: nat): Snapshot {
    var state := StateOf(c, now);
    Snapshot(state, if state == Quarantined then c.until.value - now else 0, c.trips, c.consecutive)
  }

  function Restored(quarantined: bool, left: nat, trips: U32, consecutive: U32, now: nat, p: Policy, horizon: nat)
    : Fields
  {
    Fields(Max(consecutive, p.threshold), Max(trips, 1),
           Some(Deadline(now, if quarantined then Min(left, p.max) else 0, horizon)), None)
  }

  class Cell {
    var consecutive: U32
    var trips: U32
    var until: Option<nat>
    var leaseUntil: Option<nat>

    function Now(): Fields
      reads this
    {
      Fields(consecutive, trips, until, leaseUntil)
    }

    constructor ()
      ensures Now() == FRESH
    {
      consecutive, trips, until, leaseUntil := 0, 0, None, None;
    }

    /** Count a hard failure; one that lands inside an active quarantine is ignored. */
    method OnHardFailure(now: nat, p: Policy, horizon: nat) returns (length: Option<nat>)
      requires Sound(p)
      modifies this
      ensures (Now(), length) == HardFailure(old(Now()), now, p, horizon)
    {
      if StateOf(Now(), now) == Quarantined { return None; }
      leaseUntil := None;
      consecutive := Saturated(consecutive + 1);
      if consecutive < p.threshold { return None; }
      trips := Saturated(trips + 1);
      var l := DurationFor(p, trips);
      until := Some(Deadline(now, l, horizon));
      return Some(l);
    }

    /** Quarantine right away. */
    method OnTripNow(now: nat, p: Policy, horizon: nat) returns (length: nat)
      requires Sound(p)
      modifies this
      ensures (Now(), length) == TripNow(old(Now()), now, p, horizon)
    {
      leaseUntil := None;
      consecutive := Max(consecutive, p.threshold);
      trips := Saturated(trips + 1);
      length := DurationFor(p, trips);
      until := Some(Deadline(now, length, horizon));
    }

    /** A success forgets everything. */
    method OnSuccess()
      modifies this
      ensures Now() == FRESH
    {
      consecutive, trips, until, leaseUntil := 0, 0, None, None;
    }

    /** Claim the probation slot. */
    method OnTryLease(now: nat, p: Policy, horizon: nat) returns (granted: bool)
      modifies this
      ensures (Now(), granted) == TryLease(old(Now()), now, p, horizon)
    {
      if StateOf(Now(), now) != Probation { return false; }
      if leaseUntil.Some? && now < leaseUntil.value { return false; }
      var end := CheckedAdd(now, p.probeLease, horizon);
      leaseUntil := Some(if end.Some? then end.value else now);
      return true;
    }

    /** Re-create a saved quarantine. */
    method OnRestore(quarantined: bool, left: nat, trips: U32, consecutive: U32, now: nat, p: Policy, horizon: nat)
      modifies this
      ensures Now() == Restored(quarantined, left, trips, consecutive, now, p, horizon)
    {
      var capped := if quarantined then Min(left, p.max) else 0;
      leaseUntil := None;
      this.trips := Max(trips, 1);
      this.consecutive := Max(consecutive, p.threshold);
      until := Some(Deadline(now, capped, horizon));
    }
  }
}
