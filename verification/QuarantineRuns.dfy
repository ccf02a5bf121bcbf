/** What holds of a cell over every run: backoff lengths, re-tripping, leases, and save and restore. */
module QuarantineRuns {
  import opened Wrappers
  import opened Clock
  import opened Quarantine

  /**
   * What can happen to a cell. A record of any origin may be restored into it
   * at any time; `Elsewhere` is an event of another upstream.
   */
  datatype Kind =
    | HardFailed | TrippedNow | Succeeded | LeaseTried | Elsewhere
    | RecordRestored(quarantined: bool, left: nat, trips: U32, consecutive: U32)

  datatype Event = Event(kind: Kind, now: nat)

  function Step(c: Fields, e: Event, p: Policy, horizon: nat): Fields {
    match e.kind
    case HardFailed => HardFailure(c, e.now, p, horizon).0
    case TrippedNow => TripNow(c, e.now, p, horizon).0
    case Succeeded => FRESH
    case LeaseTried => TryLease(c, e.now, p, horizon).0
    case Elsewhere => c
    case RecordRestored(quarantined, left, trips, consecutive) =>
      Restored(quarantined, left, trips, consecutive, e.now, p, horizon)
  }

  /** The quarantine length an event reports, if it trips. */
  function Reported(c: Fields, e: Event, p: Policy, horizon: nat): Option<nat> {
    match e.kind
    case HardFailed => HardFailure(c, e.now, p, horizon).1
    case TrippedNow => Some(TripNow(c, e.now, p, horizon).1)
    case _ => None
  }

  function Run(start: Fields, events: seq<Event>, p: Policy, horizon: nat): Fields {
    if events == [] then start
    else Step(Run(start, events[..|events| - 1], p, horizon), events[|events| - 1], p, horizon)
  }

  ghost predicate InTime(events: seq<Event>) {
    forall i, j :: 0 <= i < j < |events| ==> events[i].now <= events[j].now
  }

  /** Event `i` of a run from a fresh cell trips the quarantine. */
  predicate Trips(events: seq<Event>, i: nat, p: Policy, horizon: nat)
    requires i < |events|
  {
    Reported(Run(FRESH, events[..i], p, horizon), events[i], p, horizon).Some?
  }

  /** Trips since the last success, those of a restored record included. */
  function TripCount(events: seq<Event>, p: Policy, horizon: nat): nat {
    if events == [] then 0
    else
      var n := |events| - 1;
      if events[n].kind == Succeeded then 0
      else if events[n].kind.RecordRestored? then Max(events[n].kind.trips, 1)
      else TripCount(events[..n], p, horizon) + if Trips(events, n, p, horizon) then 1 else 0
  }

  /** The instant of the last trip or restore, if not forgotten by a success since. */
  function LastTrip(events: seq<Event>, p: Policy, horizon: nat): Option<nat> {
    if events == [] then None
    else
      var n := |events| - 1;
      if events[n].kind == Succeeded then None
      else if events[n].kind.RecordRestored? then Some(events[n].now)
      else if Trips(events, n, p, horizon) then Some(events[n].now)
      else LastTrip(events[..n], p, horizon)
  }

  /** What every reachable cell satisfies. */
  ghost predicate Reachable(c: Fields, p: Policy, count: nat, last: Option<nat>) {
    && c.trips == Saturated(count)
    && (c.until.Some? <==> last.Some?) && (last.Some? <==> count > 0)
    && (c.until.None? ==> c.consecutive < p.threshold && c.leaseUntil.None?)
    && (c.until.Some? ==> c.consecutive >= p.threshold && last.value <= c.until.value <= last.value + p.max)
  }

  lemma DeadlineBounds(now: nat, length: nat, horizon: nat, max: nat)
    requires length <= max
    ensures now <= Deadline(now, length, horizon) <= now + max
  {
  }

  /** How an event moves the count and the last trip. */
  function NextCount(c: Fields, e: Event, count: nat, p: Policy, horizon: nat): nat {
    if e.kind == Succeeded then 0
    else if e.kind.RecordRestored? then Max(e.kind.trips, 1)
    else count + if Reported(c, e, p, horizon).Some? then 1 else 0
  }

  function NextTrip(c: Fields, e: Event, last: Option<nat>, p: Policy, horizon: nat): Option<nat> {
    if e.kind == Succeeded then None
    else if e.kind.RecordRestored? || Reported(c, e, p, horizon).Some? then Some(e.now)
    else last
  }

  lemma StepReachable(c: Fields, e: Event, count: nat, last: Option<nat>, p: Policy, horizon: nat)
    requires Sound(p) && Reachable(c, p, count, last)
    ensures Reachable(Step(c, e, p, horizon), p, NextCount(c, e, count, p, horizon), NextTrip(c, e, last, p, horizon))
  {
    match e.kind
    case RecordRestored(quarantined, left, _, _) =>
      DeadlineBounds(e.now, if quarantined then Min(left, p.max) else 0, horizon, p.max);
    case _ =>
      DeadlineBounds(e.now, Backoff(p, Saturated(c.trips + 1)), horizon, p.max);
  }

  lemma {:induction false} RunReachable(events: seq<Event>, p: Policy, horizon: nat)
    requires Sound(p)
    ensures Reachable(Run(FRESH, events, p, horizon), p, TripCount(events, p, horizon), LastTrip(events, p, horizon))
  {
    if events != [] {
      var n := |events| - 1;
      RunReachable(events[..n], p, horizon);
      StepReachable(Run(FRESH, events[..n], p, horizon), events[n],
                    TripCount(events[..n], p, horizon), LastTrip(events[..n], p, horizon), p, horizon);
    }
  }

  /** The k-th trip since the last success lasts min(max, initial * 2^(k - 1)), however large k grows. */
  lemma BackoffOfEachTrip(events: seq<Event>, p: Policy, horizon: nat)
    requires Sound(p) && events != [] && Trips(events, |events| - 1, p, horizon)
    ensures var n := |events| - 1; var k := TripCount(events, p, horizon);
      k > 0 && Reported(Run(FRESH, events[..n], p, horizon), events[n], p, horizon)
        == Some(Min(p.max, p.initial * Pow2(k - 1)))
  {
    var n := |events| - 1;
    RunReachable(events[..n], p, horizon);
    var k := TripCount(events, p, horizon);
    BackoffSaturates(p, k);
    DoubledIsPower(p.initial, k - 1);
  }

  /**
   * Whatever happened before: a hard failure inside a quarantine changes
   * nothing, one on probation trips again at once, and the backoff is over
   * within `max` of the last trip.
   */
  lemma {:induction false} TrippedCell(events: seq<Event>, now: nat, p: Policy, horizon: nat)
    requires Sound(p)
    ensures var c, last := Run(FRESH, events, p, horizon), LastTrip(events, p, horizon);
      && (StateOf(c, now) == Quarantined ==> HardFailure(c, now, p, horizon) == (c, None))
      && (StateOf(c, now) == Probation ==> HardFailure(c, now, p, horizon).1.Some?)
      && (StateOf(c, now) == Healthy <==> last.None?)
      && (last.Some? && last.value + p.max <= now ==> StateOf(c, now) == Probation)
      && (last.Some? && last.value <= now ==> TakeSnapshot(c, now).left <= p.max)
  {
    RunReachable(events, p, horizon);
  }

  // ---- When a cell trips, and for how long, told from the events ----

  /** Hard failures since the last success. */
  function FailuresSince(events: seq<Event>): nat {
    if events == [] then 0
    else
      var n := |events| - 1;
      if events[n].kind == Succeeded then 0
      else FailuresSince(events[..n]) + if events[n].kind == HardFailed then 1 else 0
  }

  /** Tripped by an explicit call, or restored from a record, since the last success. */
  predicate ForcedSince(events: seq<Event>) {
    events != [] &&
    var n := |events| - 1;
    events[n].kind != Succeeded &&
    (events[n].kind == TrippedNow || events[n].kind.RecordRestored? || ForcedSince(events[..n]))
  }

  lemma {:induction false} StreakIsCounted(events: seq<Event>, p: Policy, horizon: nat)
    requires Sound(p)
    ensures var c := Run(FRESH, events, p, horizon);
      && (c.until.None? <==> !ForcedSince(events) && FailuresSince(events) < p.threshold)
      && (c.until.None? ==> c.consecutive == FailuresSince(events))
  {
    if events != [] { StreakIsCounted(events[..|events| - 1], p, horizon); }
  }

  /**
   * A cell is healthy until it is tripped by a call, restored, or has failed
   * hard `threshold` times since the last success; and again from the next
   * success on.
   */
  lemma HealthyExactly(events: seq<Event>, now: nat, p: Policy, horizon: nat)
    requires Sound(p)
    ensures StateOf(Run(FRESH, events, p, horizon), now) == Healthy
       <==> !ForcedSince(events) && FailuresSince(events) < p.threshold
  {
    StreakIsCounted(events, p, horizon);
  }

  /** An explicit call always trips; a hard failure on probation, or as the `threshold`-th of a healthy cell. */
  lemma TripsExactly(events: seq<Event>, i: nat, p: Policy, horizon: nat)
    requires Sound(p) && i < |events|
    ensures var before := StateOf(Run(FRESH, events[..i], p, horizon), events[i].now);
      Trips(events, i, p, horizon) <==>
        || events[i].kind == TrippedNow
        || (events[i].kind == HardFailed && before == Probation)
        || (events[i].kind == HardFailed && before == Healthy && FailuresSince(events[..i]) + 1 >= p.threshold)
  {
    RunReachable(events[..i], p, horizon);
    StreakIsCounted(events[..i], p, horizon);
  }

  /** Event `i` was the last to trip the cell, restore a record or forget. */
  predicate LastOutcome(events: seq<Event>, i: nat, p: Policy, horizon: nat)
    requires i < |events|
  {
    forall m :: i < m < |events| ==>
      !Trips(events, m, p, horizon) && events[m].kind != Succeeded && !events[m].kind.RecordRestored?
  }

  lemma {:induction false} UntilStays(events: seq<Event>, i: nat, n: nat, p: Policy, horizon: nat)
    requires i < n <= |events| && LastOutcome(events, i, p, horizon)
    ensures Run(FRESH, events[..n], p, horizon).until == Run(FRESH, events[..i + 1], p, horizon).until
  {
    if i + 1 < n {
      UntilStays(events, i, n - 1, p, horizon);
      assert events[..n][..n - 1] == events[..n - 1];
      assert !Trips(events, n - 1, p, horizon);
    }
  }

  /** The end of a cell's quarantine is the state it shows. */
  lemma EndShows(events: seq<Event>, i: nat, now: nat, end: nat, p: Policy, horizon: nat)
    requires i < |events| && LastOutcome(events, i, p, horizon)
    requires Run(FRESH, events[..i + 1], p, horizon).until == Some(end)
    ensures StateOf(Run(FRESH, events, p, horizon), now) == if now < end then Quarantined else Probation
  {
    UntilStays(events, i, |events|, p, horizon);
    assert events[..|events|] == events;
  }

  /**
   * From the k-th trip since the last success on, the cell is quarantined for
   * min(max, initial * 2^(k - 1)), and on probation from then on until the next
   * outcome. An end the clock cannot represent is a hundred years away, or now.
   */
  lemma QuarantineLasts(events: seq<Event>, i: nat, now: nat, p: Policy, horizon: nat)
    requires Sound(p) && i < |events| && Trips(events, i, p, horizon) && LastOutcome(events, i, p, horizon)
    ensures var t, k := events[i].now, TripCount(events[..i + 1], p, horizon);
      k > 0 &&
      var length := Min(p.max, p.initial * Pow2(k - 1));
      var end := if t + length <= horizon then t + length
                 else if t + 3153600000_000000000 <= horizon then t + 3153600000_000000000 else t;
      StateOf(Run(FRESH, events, p, horizon), now) == if now < end then Quarantined else Probation
  {
    var upTo := events[..i + 1];
    assert upTo[..i] == events[..i];
    BackoffOfEachTrip(upTo, p, horizon);
    var length := Min(p.max, p.initial * Pow2(TripCount(upTo, p, horizon) - 1));
    EndShows(events, i, now, Deadline(events[i].now, length, horizon), p, horizon);
  }

  /** A restored record is quarantined for what it had left, up to `max`, or on probation at once. */
  lemma RestoredLasts(events: seq<Event>, i: nat, now: nat, p: Policy, horizon: nat)
    requires i < |events| && events[i].kind.RecordRestored? && LastOutcome(events, i, p, horizon)
    ensures var t := events[i].now;
      var length := if events[i].kind.quarantined then Min(events[i].kind.left, p.max) else 0;
      var end := if t + length <= horizon then t + length
                 else if t + 3153600000_000000000 <= horizon then t + 3153600000_000000000 else t;
      StateOf(Run(FRESH, events, p, horizon), now) == if now < end then Quarantined else Probation
  {
    assert events[..i + 1][..i] == events[..i];
    var length := if events[i].kind.quarantined then Min(events[i].kind.left, p.max) else 0;
    EndShows(events, i, now, Deadline(events[i].now, length, horizon), p, horizon);
  }

  lemma {:induction false} CountStays(events: seq<Event>, i: nat, n: nat, p: Policy, horizon: nat)
    requires i < n <= |events| && LastOutcome(events, i, p, horizon)
    ensures TripCount(events[..n], p, horizon) == TripCount(events[..i + 1], p, horizon)
  {
    if i + 1 < n {
      CountStays(events, i, n - 1, p, horizon);
      assert events[..n][..n - 1] == events[..n - 1];
      assert !Trips(events, n - 1, p, horizon);
    }
  }

  /** The trips of a record, at least one, count on in a restored cell. */
  lemma RestoredCounts(events: seq<Event>, i: nat, n: nat, p: Policy, horizon: nat)
    requires i < n < |events| && events[i].kind.RecordRestored?
    requires LastOutcome(events[..n], i, p, horizon) && Trips(events, n, p, horizon)
    ensures TripCount(events[..n + 1], p, horizon) == 1 + if events[i].kind.trips == 0 then 1 else events[i].kind.trips
  {
    CountStays(events[..n], i, n, p, horizon);
    assert events[..n][..n] == events[..n] && events[..n][..i + 1] == events[..i + 1];
    assert events[..i + 1][..i] == events[..i] && events[..n + 1][..n] == events[..n];
  }

  // ---- Leases ----

  /** Event `i` hands the cell out to a prober. */
  predicate Grants(events: seq<Event>, i: nat, p: Policy, horizon: nat)
    requires i < |events|
  {
    events[i].kind == LeaseTried && TryLease(Run(FRESH, events[..i], p, horizon), events[i].now, p, horizon).1
  }

  predicate NoOutcome(e: Event) {
    e.kind == LeaseTried || e.kind == Elsewhere
  }

  /** When a lease granted at `now` ends; one whose end is not representable ends at once. */
  function LeaseEnd(now: nat, p: Policy, horizon: nat): nat {
    var end := CheckedAdd(now, p.probeLease, horizon);
    if end.Some? then end.value else now
  }

  /** With no outcome in between, a lease is still standing or was followed by a later one. */
  lemma {:induction false} LeaseLasts(events: seq<Event>, i: nat, j: nat, p: Policy, horizon: nat)
    requires InTime(events) && i < j <= |events| && Grants(events, i, p, horizon)
    requires forall m :: i < m < j ==> NoOutcome(events[m])
    ensures var c := Run(FRESH, events[..j], p, horizon);
      && c.leaseUntil.Some? && c.leaseUntil.value >= LeaseEnd(events[i].now, p, horizon)
      && c.until.Some? && c.until.value <= events[i].now
  {
    assert events[..j][..j - 1] == events[..j - 1];
    if j > i + 1 { LeaseLasts(events, i, j - 1, p, horizon); }
  }

  lemma {:induction false} LeaseStands(events: seq<Event>, i: nat, j: nat, p: Policy, horizon: nat)
    requires i < j <= |events| && Grants(events, i, p, horizon)
    requires forall m :: i < m < j ==> NoOutcome(events[m]) && !Grants(events, m, p, horizon)
    ensures Run(FRESH, events[..j], p, horizon).leaseUntil == Some(LeaseEnd(events[i].now, p, horizon))
  {
    assert events[..j][..j - 1] == events[..j - 1];
    if j > i + 1 { LeaseStands(events, i, j - 1, p, horizon); }
  }

  /** A cell is handed out again only after its lease ended, unless an outcome was reported in between. */
  lemma {:induction false} LeasesDoNotOverlap(events: seq<Event>, i: nat, j: nat, p: Policy, horizon: nat)
    requires InTime(events) && i < j < |events|
    requires Grants(events, i, p, horizon) && Grants(events, j, p, horizon)
    requires forall m :: i < m < j ==> NoOutcome(events[m])
    ensures events[i].now + p.probeLease <= horizon ==> events[j].now >= events[i].now + p.probeLease
    ensures events[j].now >= LeaseEnd(events[i].now, p, horizon)
  {
    LeaseLasts(events, i, j, p, horizon);
  }

  /** And the next request after that does get it: the lease is all that stands in the way. */
  lemma {:induction false} LeaseIsExact(events: seq<Event>, i: nat, j: nat, p: Policy, horizon: nat)
    requires InTime(events) && i < j < |events| && events[j].kind == LeaseTried
    requires Grants(events, i, p, horizon)
    requires forall m :: i < m < j ==> NoOutcome(events[m]) && !Grants(events, m, p, horizon)
    ensures Grants(events, j, p, horizon)
       <==> (events[i].now + p.probeLease <= horizon ==> events[j].now >= events[i].now + p.probeLease)
  {
    LeaseLasts(events, i, j, p, horizon);
    LeaseStands(events, i, j, p, horizon);
  }

  /** The last grant, if no outcome was reported since. */
  function LastGrant(events: seq<Event>, p: Policy, horizon: nat): (g: Option<nat>)
    ensures g.Some? ==> g.value < |events|
  {
    if events == [] then None
    else
      var n := |events| - 1;
      if Grants(events, n, p, horizon) then Some(n)
      else if NoOutcome(events[n]) then LastGrant(events[..n], p, horizon)
      else None
  }

  /** A lease is that of a grant at this instant, made on probation. */
  ghost predicate Leased(c: Fields, granted: Option<nat>, p: Policy, horizon: nat) {
    && (c.leaseUntil.Some? <==> granted.Some?)
    && (granted.Some? ==>
          c.leaseUntil.value == LeaseEnd(granted.value, p, horizon) && c.until.Some? && c.until.value <= granted.value)
  }

  lemma StepLeased(c: Fields, e: Event, granted: Option<nat>, p: Policy, horizon: nat)
    requires Leased(c, granted, p, horizon) && (granted.Some? ==> granted.value <= e.now)
    ensures var grants := e.kind == LeaseTried && TryLease(c, e.now, p, horizon).1;
      Leased(Step(c, e, p, horizon), if grants then Some(e.now) else if NoOutcome(e) then granted else None, p, horizon)
  {
  }

  function InstantOf(events: seq<Event>, g: Option<nat>): Option<nat>
    requires g.Some? ==> g.value < |events|
  {
    if g.Some? then Some(events[g.value].now) else None
  }

  lemma {:induction false} LeaseIsOfLastGrant(events: seq<Event>, p: Policy, horizon: nat)
    requires InTime(events)
    ensures Leased(Run(FRESH, events, p, horizon), InstantOf(events, LastGrant(events, p, horizon)), p, horizon)
  {
    if events != [] {
      var n := |events| - 1;
      LeaseIsOfLastGrant(events[..n], p, horizon);
      var granted := InstantOf(events[..n], LastGrant(events[..n], p, horizon));
      StepLeased(Run(FRESH, events[..n], p, horizon), events[n], granted, p, horizon);
    }
  }

  /**
   * A request for a probe is granted exactly on probation, and not within the
   * lease of the last grant unless an outcome was reported since.
   */
  lemma GrantsExactly(events: seq<Event>, j: nat, p: Policy, horizon: nat)
    requires InTime(events) && j < |events|
    ensures var g := LastGrant(events[..j], p, horizon);
      Grants(events, j, p, horizon) <==>
        && events[j].kind == LeaseTried
        && StateOf(Run(FRESH, events[..j], p, horizon), events[j].now) == Probation
        && (g.Some? && events[g.value].now + p.probeLease <= horizon ==>
              events[j].now >= events[g.value].now + p.probeLease)
  {
    LeaseIsOfLastGrant(events[..j], p, horizon);
    var g := LastGrant(events[..j], p, horizon);
    assert InstantOf(events[..j], g) == InstantOf(events, g);
  }

  // ---- Save and restore ----

  /** Two cells that differ only by a shift of the clock: `a` seen from `t`, `b` from `s`. */
  ghost predicate Shifted(a: Fields, t: nat, b: Fields, s: nat) {
    && a.trips == b.trips && a.consecutive == b.consecutive && (a.until.Some? <==> b.until.Some?)
    && (a.until.Some? ==>
          || (a.until.value <= t && b.until.value <= s)
          || a.until.value as int - t as int == b.until.value as int - s as int)
  }

  /**
   * Saving a tripped cell at `t` and restoring it at `s` gives the same cell
   * shifted: the caps on the way never bite, because a reachable cell never
   * has more than `max` left.
   */
  lemma {:induction false} RestoredIsShifted(events: seq<Event>, t: nat, s: nat, p: Policy, horizon: nat)
    requires Sound(p) && s + p.max <= horizon
    requires LastTrip(events, p, horizon).Some? && LastTrip(events, p, horizon).value <= t
    ensures var c := Run(FRESH, events, p, horizon); var h := TakeSnapshot(c, t);
      Shifted(c, t, Restored(h.state == Quarantined, h.left, h.trips, h.consecutive, s, p, horizon), s)
  {
    RunReachable(events, p, horizon);
  }

  /** Later instants keep the shift, so both cells are in the same state at all of them. */
  lemma ShiftedStates(a: Fields, t: nat, b: Fields, s: nat, d: nat)
    requires Shifted(a, t, b, s)
    ensures StateOf(a, t + d) == StateOf(b, s + d)
    ensures Shifted(a, t + d, b, s + d)
  {
  }

  /** An event seen by both clocks. */
  lemma ShiftedStep(a: Fields, t: nat, b: Fields, s: nat, kind: Kind, p: Policy, horizon: nat)
    requires Sound(p) && Shifted(a, t, b, s) && t + p.max <= horizon && s + p.max <= horizon
    ensures Shifted(Step(a, Event(kind, t), p, horizon), t, Step(b, Event(kind, s), p, horizon), s)
    ensures Reported(a, Event(kind, t), p, horizon) == Reported(b, Event(kind, s), p, horizon)
  {
    ShiftedStates(a, t, b, s, 0);
  }

  /** The same events on two clocks, `xs` on one that reads `t` when the other, of `ys`, reads `s`. */
  ghost predicate Parallel(xs: seq<Event>, t: nat, ys: seq<Event>, s: nat) {
    && |xs| == |ys|
    && forall i :: 0 <= i < |xs| ==>
         xs[i].kind == ys[i].kind && xs[i].now >= t && xs[i].now as int - t as int == ys[i].now as int - s as int
  }

  /** Every event leaves room for a full quarantine before the clock ends. */
  ghost predicate Fits(xs: seq<Event>, p: Policy, horizon: nat) {
    forall i :: 0 <= i < |xs| ==> xs[i].now + p.max <= horizon
  }

  function LastNow(xs: seq<Event>, start: nat): nat {
    if xs == [] then start else xs[|xs| - 1].now
  }

  lemma {:induction false} ShiftedRuns(a: Fields, t: nat, b: Fields, s: nat, xs: seq<Event>, ys: seq<Event>,
                                       p: Policy, horizon: nat)
    requires Sound(p) && Shifted(a, t, b, s) && Parallel(xs, t, ys, s) && InTime(xs)
    requires Fits(xs, p, horizon) && Fits(ys, p, horizon)
    ensures Shifted(Run(a, xs, p, horizon), LastNow(xs, t), Run(b, ys, p, horizon), LastNow(ys, s))
  {
    if xs != [] {
      var n := |xs| - 1;
      ShiftedRuns(a, t, b, s, xs[..n], ys[..n], p, horizon);
      var before, after := LastNow(xs[..n], t), xs[n].now;
      var c, d := Run(a, xs[..n], p, horizon), Run(b, ys[..n], p, horizon);
      ShiftedStates(c, before, d, LastNow(ys[..n], s), after - before);
      ShiftedStep(c, xs[n].now, d, ys[n].now, xs[n].kind, p, horizon);
    }
  }

  /**
   * From then on the restored cell answers every further run of events exactly
   * as the original would have, shifted: after the same events, the same state
   * and for any next event the same length reported. Only a lease held at the
   * time of saving is not carried over.
   */
  lemma {:induction false} RestoredBehavesAlike(a: Fields, t: nat, b: Fields, s: nat, xs: seq<Event>, ys: seq<Event>,
                                              kind: Kind, d: nat, p: Policy, horizon: nat)
    requires Sound(p) && Shifted(a, t, b, s) && Parallel(xs, t, ys, s) && InTime(xs)
    requires Fits(xs, p, horizon) && Fits(ys, p, horizon)
    requires LastNow(xs, t) + d + p.max <= horizon && LastNow(ys, s) + d + p.max <= horizon
    ensures var a', b' := Run(a, xs, p, horizon), Run(b, ys, p, horizon);
      var t', s' := LastNow(xs, t) + d, LastNow(ys, s) + d;
      && StateOf(a', t') == StateOf(b', s')
      && a'.trips == b'.trips && a'.consecutive == b'.consecutive
      && Reported(a', Event(kind, t'), p, horizon) == Reported(b', Event(kind, s'), p, horizon)
  {
    ShiftedRuns(a, t, b, s, xs, ys, p, horizon);
    var a', b' := Run(a, xs, p, horizon), Run(b, ys, p, horizon);
    ShiftedStates(a', LastNow(xs, t), b', LastNow(ys, s), d);
    ShiftedStep(a', LastNow(xs, t) + d, b', LastNow(ys, s) + d, kind, p, horizon);
  }
}
