/** The ratings of a set of upstreams: events reported about them, selection among them, probes, and saved health. */
module Ratings {
  import opened Wrappers
  import opened Quarantine
  import Runs = QuarantineRuns
  import Model = SandModel
  import Selection

  // ---- The set as a value ----

  ghost predicate AnyHealthy(cs: seq<Fields>, now: nat) {
    exists i :: 0 <= i < |cs| && StateOf(cs[i], now) == Healthy
  }

  /** Selectable: healthy, unless nobody is or there is no quarantine. */
  ghost predicate Eligible(cs: seq<Fields>, i: int, now: nat, p: Policy) {
    0 <= i < |cs| && (Enabled(p) && AnyHealthy(cs, now) ==> StateOf(cs[i], now) == Healthy)
  }

  /** Handed out by a request for probes. */
  ghost predicate Due(cs: seq<Fields>, i: int, now: nat, p: Policy, horizon: nat) {
    0 <= i < |cs| && Enabled(p) && TryLease(cs[i], now, p, horizon).1
  }

  datatype Op =
    | HardFailed(slot: nat, now: nat) | TrippedNow(slot: nat, now: nat) | Succeeded(slot: nat, now: nat)
    | HealthRestored(slot: nat, record: Snapshot, now: nat)
    | Probed(now: nat)

  /** An operation on the set, as one slot sees it. */
  function Seen(op: Op, slot: nat): Runs.Event {
    match op
    case HardFailed(i, now) => Runs.Event(if i == slot then Runs.HardFailed else Runs.Elsewhere, now)
    case TrippedNow(i, now) => Runs.Event(if i == slot then Runs.TrippedNow else Runs.Elsewhere, now)
    case Succeeded(i, now) => Runs.Event(if i == slot then Runs.Succeeded else Runs.Elsewhere, now)
    case HealthRestored(i, h, now) =>
      Runs.Event(if i == slot && h.state != Healthy
                 then Runs.RecordRestored(h.state == Quarantined, h.left, h.trips, h.consecutive)
                 else Runs.Elsewhere, now)
    case Probed(now) => Runs.Event(Runs.LeaseTried, now)
  }

  function Applied(cs: seq<Fields>, op: Op, p: Policy, horizon: nat): seq<Fields> {
    seq(|cs|, i requires 0 <= i < |cs| => Runs.Step(cs[i], Seen(op, i), p, horizon))
  }

  function Run(n: nat, ops: seq<Op>, p: Policy, horizon: nat): (cs: seq<Fields>)
    ensures |cs| == n
  {
    if ops == [] then seq(n, _ => FRESH)
    else Applied(Run(n, ops[..|ops| - 1], p, horizon), ops[|ops| - 1], p, horizon)
  }

  function AllSeen(ops: seq<Op>, slot: nat): seq<Runs.Event> {
    seq(|ops|, m requires 0 <= m < |ops| => Seen(ops[m], slot))
  }

  /** Slots do not interfere: each one goes through its own run. */
  lemma {:induction false} SlotRuns(n: nat, ops: seq<Op>, slot: nat, p: Policy, horizon: nat)
    requires slot < n
    ensures Run(n, ops, p, horizon)[slot] == Runs.Run(FRESH, AllSeen(ops, slot), p, horizon)
  {
    if ops != [] {
      var m := |ops| - 1;
      SlotRuns(n, ops[..m], slot, p, horizon);
      assert AllSeen(ops, slot)[..m] == AllSeen(ops[..m], slot);
    }
  }

  /** Hard failures of a slot since its last success. */
  function FailuresOf(ops: seq<Op>, slot: nat): nat {
    if ops == [] then 0
    else
      var n := |ops| - 1;
      match ops[n]
      case Succeeded(i, _) => if i == slot then 0 else FailuresOf(ops[..n], slot)
      case HardFailed(i, _) => FailuresOf(ops[..n], slot) + if i == slot then 1 else 0
      case _ => FailuresOf(ops[..n], slot)
  }

  /** Tripped by a call, or restored from the record of a tripped upstream, since the last success of the slot. */
  predicate ForcedOn(ops: seq<Op>, slot: nat) {
    ops != [] &&
    var n := |ops| - 1;
    match ops[n]
    case Succeeded(i, _) => i != slot && ForcedOn(ops[..n], slot)
    case TrippedNow(i, _) => i == slot || ForcedOn(ops[..n], slot)
    case HealthRestored(i, h, _) => (i == slot && h.state != Healthy) || ForcedOn(ops[..n], slot)
    case _ => ForcedOn(ops[..n], slot)
  }

  lemma {:induction false} SeenOutcomes(ops: seq<Op>, slot: nat)
    ensures Runs.FailuresSince(AllSeen(ops, slot)) == FailuresOf(ops, slot)
    ensures Runs.ForcedSince(AllSeen(ops, slot)) == ForcedOn(ops, slot)
  {
    if ops != [] {
      var n := |ops| - 1;
      SeenOutcomes(ops[..n], slot);
      assert AllSeen(ops, slot)[..n] == AllSeen(ops[..n], slot);
    }
  }

  /** A slot is healthy exactly until its own failures since its last success reach the threshold, or it is forced. */
  lemma SlotHealthyExactly(n: nat, ops: seq<Op>, slot: nat, now: nat, p: Policy, horizon: nat)
    requires Sound(p) && slot < n
    ensures StateOf(Run(n, ops, p, horizon)[slot], now) == Healthy
       <==> !ForcedOn(ops, slot) && FailuresOf(ops, slot) < p.threshold
  {
    SlotRuns(n, ops, slot, p, horizon);
    SeenOutcomes(ops, slot);
    Runs.HealthyExactly(AllSeen(ops, slot), now, p, horizon);
  }

  /**
   * The selection never runs dry: with no upstream healthy, all of them are
   * eligible. With one, no request waits on an upstream that is being probed.
   */
  lemma SelectionNeverRunsDry(cs: seq<Fields>, now: nat, p: Policy, horizon: nat)
    ensures (exists i :: Eligible(cs, i, now, p)) <==> cs != []
    ensures p.threshold == 0 ==> forall i :: 0 <= i < |cs| ==> Eligible(cs, i, now, p)
    ensures AnyHealthy(cs, now) ==> forall i :: Due(cs, i, now, p, horizon) ==> !Eligible(cs, i, now, p)
  {
    if AnyHealthy(cs, now) {
      var i :| 0 <= i < |cs| && StateOf(cs[i], now) == Healthy;
      assert Eligible(cs, i, now, p);
    } else if cs != [] {
      assert Eligible(cs, 0, now, p);
    }
  }

  ghost predicate InTime(ops: seq<Op>) {
    forall i, j :: 0 <= i < j < |ops| ==> ops[i].now <= ops[j].now
  }

  /** A slot is handed out twice only after its lease ended, or after an outcome reported about that slot. */
  lemma ProbesDoNotOverlap(n: nat, ops: seq<Op>, i: nat, j: nat, slot: nat, p: Policy, horizon: nat)
    requires InTime(ops) && i < j < |ops| && slot < n && Enabled(p)
    requires ops[i].Probed? && Due(Run(n, ops[..i], p, horizon), slot, ops[i].now, p, horizon)
    requires ops[j].Probed? && Due(Run(n, ops[..j], p, horizon), slot, ops[j].now, p, horizon)
    requires forall m :: i < m < j ==> ops[m].Probed? || ops[m].slot != slot
    ensures ops[i].now + p.probeLease <= horizon ==> ops[j].now >= ops[i].now + p.probeLease
    ensures ops[j].now >= Runs.LeaseEnd(ops[i].now, p, horizon)
  {
    var seen := AllSeen(ops, slot);
    SlotRuns(n, ops[..i], slot, p, horizon);
    SlotRuns(n, ops[..j], slot, p, horizon);
    assert seen[..i] == AllSeen(ops[..i], slot);
    assert seen[..j] == AllSeen(ops[..j], slot);
    Runs.LeasesDoNotOverlap(seen, i, j, p, horizon);
  }

  /** What restoring a record leaves in a slot. */
  function RestoredSlot(c: Fields, h: Snapshot, now: nat, p: Policy, horizon: nat): Fields {
    if h.state == Healthy then c
    else Runs.Step(c, Seen(HealthRestored(0, h, now), 0), p, horizon)
  }

  /**
   * Saving a set after any run and restoring it into a fresh one: every slot
   * that was tripped is the same slot shifted in time, every other one starts
   * over healthy.
   */
  lemma {:induction false} SavedAndRestored(n: nat, ops: seq<Op>, slot: nat, t: nat, s: nat, p: Policy, horizon: nat)
    requires Sound(p) && slot < n && s + p.max <= horizon
    requires forall m :: 0 <= m < |ops| ==> ops[m].now <= t
    ensures var c := Run(n, ops, p, horizon)[slot];
      var r := RestoredSlot(FRESH, TakeSnapshot(c, t), s, p, horizon);
      if StateOf(c, t) == Healthy then r == FRESH else Runs.Shifted(c, t, r, s)
  {
    SlotRuns(n, ops, slot, p, horizon);
    var seen := AllSeen(ops, slot);
    Runs.RunReachable(seen, p, horizon);
    if Runs.LastTrip(seen, p, horizon).Some? {
      LastTripInPast(seen, t, p, horizon);
      Runs.RestoredIsShifted(seen, t, s, p, horizon);
    }
  }

  lemma {:induction false} LastTripInPast(events: seq<Runs.Event>, t: nat, p: Policy, horizon: nat)
    requires forall m :: 0 <= m < |events| ==> events[m].now <= t
    ensures var last := Runs.LastTrip(events, p, horizon); last.Some? ==> last.value <= t
  {
    if events != [] { LastTripInPast(events[..|events| - 1], t, p, horizon); }
  }

  // ---- The set as an object ----

  ghost predicate Distinct<T>(s: seq<T>) {
    forall i, j :: 0 <= i < j < |s| ==> s[i] != s[j]
  }

  ghost predicate Increasing(s: seq<nat>) {
    forall i, j :: 0 <= i < j < |s| ==> s[i] < s[j]
  }

  method FreshCells(n: nat) returns (cells: seq<Cell>)
    ensures |cells| == n && Distinct(cells) && fresh(cells)
    ensures forall i :: 0 <= i < n ==> cells[i].Now() == FRESH
  {
    cells := [];
    for k := 0 to n
      invariant |cells| == k && Distinct(cells) && fresh(cells)
      invariant forall i :: 0 <= i < k ==> cells[i].Now() == FRESH
    {
      var c := new Cell();
      cells := cells + [c];
    }
  }

  method FreshPiles(n: nat, now: nat) returns (piles: seq<Model.Sand>)
    ensures |piles| == n && Distinct(piles) && fresh(piles)
    ensures forall i :: 0 <= i < n ==> piles[i].View() == Model.Pile(0.0, now)
  {
    piles := [];
    for k := 0 to n
      invariant |piles| == k && Distinct(piles) && fresh(piles)
      invariant forall i :: 0 <= i < k ==> piles[i].View() == Model.Pile(0.0, now)
    {
      var s := new Model.Sand(now);
      piles := piles + [s];
    }
  }

  /** A draw among weights of which at least one, at `i`, is positive. */
  method Draw(weights: seq<real>, u: real, ghost i: nat) returns (r: nat)
    requires 0.0 <= u < 1.0 && i < |weights| && weights[i] > 0.0
    ensures Selection.Hits(weights, Selection.Dart(weights, u), r) && r < |weights| && weights[r] > 0.0
  {
    r := Selection.WeightedIndex(weights, u);
  }

  class Ratings {
    const calculus: Model.Calculus
    const rating: Model.Policy
    const policy: Policy
    const horizon: nat
    const piles: seq<Model.Sand>
    const cells: seq<Cell>

    ghost predicate Valid() {
      && Model.Lawful(calculus) && Model.Validates(rating)
      && Representable(policy) && Validates(policy)
      && |piles| == |cells| && Distinct(piles) && Distinct(cells)
    }

    ghost function States(): (cs: seq<Fields>)
      reads cells
      ensures |cs| == |cells|
    {
      seq(|cells|, i requires 0 <= i < |cells| reads cells => cells[i].Now())
    }

    ghost function Sands(): (s: seq<Model.Pile>)
      reads piles
      ensures |s| == |piles|
    {
      seq(|piles|, i requires 0 <= i < |piles| reads piles => piles[i].View())
    }

    constructor (n: nat, calculus: Model.Calculus, rating: Model.Policy, policy: Policy, horizon: nat, now: nat)
      requires Model.Lawful(calculus) && Model.Validates(rating) && Representable(policy) && Validates(policy)
      ensures Valid() && fresh(cells) && fresh(piles)
      ensures this.calculus == calculus && this.rating == rating && this.policy == policy && this.horizon == horizon
      ensures States() == Run(n, [], policy, horizon)
      ensures Sands() == seq(n, _ => Model.Pile(0.0, now))
    {
      this.calculus, this.rating, this.policy, this.horizon := calculus, rating, policy, horizon;
      var cs := FreshCells(n);
      var ps := FreshPiles(n, now);
      cells, piles := cs, ps;
    }

    /** The factor sand decays by, for this policy. */
    ghost function Decay(): nat -> real
      requires Valid()
    {
      Model.DecayIsFraction(calculus, rating);
      Model.DecayBy(calculus, Model.Tau(calculus, rating))
    }

    ghost function SandAfter(s: seq<Model.Pile>, i: nat, failure: bool, now: nat): seq<Model.Pile>
      requires Valid()
    {
      if i < |s| && rating.failPenalty > 0.0
      then s[i := Model.Observed(rating, Decay(), s[i], Model.Event(failure, now))] else s
    }

    /** Record a failure that says little about the upstream's health. */
    method OnFailure(i: nat, now: nat)
      requires Valid()
      modifies piles
      ensures Sands() == SandAfter(old(Sands()), i, true, now)
    {
      if i < |piles| && rating.failPenalty > 0.0 {
        Model.DecayIsFraction(calculus, rating);
        piles[i].ObserveFailure(calculus, rating, now);
      }
    }

    /** Record that an upstream itself looks down. */
    method OnHardFailureAt(i: nat, now: nat) returns (length: Option<nat>)
      requires Valid()
      modifies piles, cells
      ensures Sands() == SandAfter(old(Sands()), i, true, now)
      ensures States() ==
              if Enabled(policy) then Applied(old(States()), HardFailed(i, now), policy, horizon) else old(States())
      ensures length == if i < |cells| && Enabled(policy)
                        then Runs.Reported(old(States())[i], Runs.Event(Runs.HardFailed, now), policy, horizon)
                        else None
    {
      if i >= |cells| { return None; }
      if rating.failPenalty > 0.0 {
        Model.DecayIsFraction(calculus, rating);
        piles[i].ObserveFailure(calculus, rating, now);
      }
      if !Enabled(policy) { return None; }
      length := cells[i].OnHardFailure(now, policy, horizon);
    }

    /** Quarantine an upstream right away. */
    method QuarantineNow(i: nat, now: nat) returns (length: Option<nat>)
      requires Valid()
      modifies cells
      ensures States() ==
              if Enabled(policy) then Applied(old(States()), TrippedNow(i, now), policy, horizon) else old(States())
      ensures length == if i < |cells| && Enabled(policy)
                        then Runs.Reported(old(States())[i], Runs.Event(Runs.TrippedNow, now), policy, horizon)
                        else None
    {
      if !Enabled(policy) { return None; }
      if i >= |cells| { return None; }
      var l := cells[i].OnTripNow(now, policy, horizon);
      return Some(l);
    }

    /** Record a success; it lifts any quarantine. */
    method OnSuccess(i: nat, now: nat)
      requires Valid()
      modifies piles, cells
      ensures Sands() == SandAfter(old(Sands()), i, false, now)
      ensures States() == Applied(old(States()), Succeeded(i, now), policy, horizon)
    {
      if i >= |cells| { return; }
      if rating.failPenalty > 0.0 {
        Model.DecayIsFraction(calculus, rating);
        piles[i].ObserveSuccess(calculus, rating, now);
      }
      cells[i].OnSuccess();
    }

    /** Claim every upstream that is due for a probe. */
    method TakeProbesAt(now: nat) returns (probes: seq<nat>)
      requires Valid()
      modifies cells
      ensures States() ==
              if Enabled(policy) then Applied(old(States()), Probed(now), policy, horizon) else old(States())
      ensures Increasing(probes)
      ensures forall i: nat :: i in probes <==> Due(old(States()), i, now, policy, horizon)
    {
      probes := [];
      if !Enabled(policy) { return; }
      for k := 0 to |cells|
        invariant forall i :: 0 <= i < k ==> cells[i].Now() == TryLease(old(cells[i].Now()), now, policy, horizon).0
        invariant forall i :: k <= i < |cells| ==> cells[i].Now() == old(cells[i].Now())
        invariant Increasing(probes)
        invariant forall i: nat :: i in probes <==> i < k && TryLease(old(cells[i].Now()), now, policy, horizon).1
      {
        var granted := cells[k].OnTryLease(now, policy, horizon);
        assert forall j :: 0 <= j < |probes| ==> probes[j] in probes;
        if granted { probes := probes + [k]; }
      }
    }

    method IsAnyHealthy(now: nat) returns (b: bool)
      ensures b == AnyHealthy(States(), now)
    {
      for k := 0 to |cells|
        invariant forall i :: 0 <= i < k ==> StateOf(cells[i].Now(), now) != Healthy
      {
        if StateOf(cells[k].Now(), now) == Healthy {
          assert StateOf(States()[k], now) == Healthy;
          return true;
        }
      }
      return false;
    }

    /** The selectable slots, in order. */
    method EligibleSlots(now: nat) returns (slots: seq<nat>)
      ensures Increasing(slots)
      ensures forall i: nat :: i in slots <==> Eligible(States(), i, now, policy)
    {
      var any := IsAnyHealthy(now);
      var restrict := Enabled(policy) && any;
      slots := [];
      for k := 0 to |cells|
        invariant Increasing(slots)
        invariant forall i: nat :: i in slots <==> i < k && (restrict ==> StateOf(cells[i].Now(), now) == Healthy)
      {
        assert forall j :: 0 <= j < |slots| ==> slots[j] in slots;
        if !restrict || StateOf(cells[k].Now(), now) == Healthy { slots := slots + [k]; }
      }
    }

    ghost function WeightOf(i: nat, now: nat): real
      requires Valid() && i < |piles|
      reads piles
    {
      Model.Weight(calculus, Model.K(calculus, rating), Model.LevelAt(rating, Decay(), piles[i].View(), now))
    }

    /** The weights a single draw uses: nothing for a slot that is not eligible. */
    ghost function DrawWeights(now: nat): (ws: seq<real>)
      requires Valid()
      reads piles, cells
      ensures |ws| == |piles|
    {
      seq(|piles|, i requires 0 <= i < |piles| reads piles, cells =>
        if Eligible(States(), i, now, policy) then WeightOf(i, now) else 0.0)
    }

    method WeightsAt(now: nat) returns (ws: seq<real>)
      requires Valid()
      ensures |ws| == |piles| && forall i :: 0 <= i < |ws| ==> ws[i] == WeightOf(i, now)
    {
      Model.DecayIsFraction(calculus, rating);
      ws := [];
      for k := 0 to |piles|
        invariant |ws| == k && forall i :: 0 <= i < k ==> ws[i] == WeightOf(i, now)
      {
        var level := Model.LevelAt(rating, Model.DecayBy(calculus, Model.Tau(calculus, rating)), piles[k].View(), now);
        ws := ws + [Model.Weight(calculus, Model.K(calculus, rating), level)];
      }
    }

    /** Every slot that is not healthy loses its weight. */
    method WithoutUnhealthy(weights: seq<real>, now: nat) returns (ws: seq<real>)
      requires |weights| == |cells|
      ensures |ws| == |weights|
      ensures forall i :: 0 <= i < |ws| ==> ws[i] == if StateOf(States()[i], now) == Healthy then weights[i] else 0.0
    {
      ws := weights;
      for k := 0 to |ws|
        invariant |ws| == |weights|
        invariant forall i :: 0 <= i < k ==>
          ws[i] == if StateOf(cells[i].Now(), now) == Healthy then weights[i] else 0.0
        invariant forall i :: k <= i < |ws| ==> ws[i] == weights[i]
      {
        if StateOf(cells[k].Now(), now) != Healthy { ws := ws[k := 0.0]; }
      }
    }

    /** The weights for a draw; slots that are not healthy lose theirs while a healthy one exists. */
    method DrawWeightsAt(now: nat) returns (ws: seq<real>)
      requires Valid()
      ensures ws == DrawWeights(now)
    {
      ws := WeightsAt(now);
      if Enabled(policy) {
        var any := IsAnyHealthy(now);
        if any { ws := WithoutUnhealthy(ws, now); }
      }
    }

    /** Only eligible slots have weight. */
    lemma WeightMeansEligible(now: nat, i: nat)
      requires Valid() && i < |piles|
      ensures DrawWeights(now)[i] > 0.0 <==> Eligible(States(), i, now, policy)
    {
      assert WeightOf(i, now) > 0.0;
    }

    lemma SomeSlotHasWeight(now: nat) returns (i: nat)
      requires Valid() && cells != []
      ensures i < |piles| && DrawWeights(now)[i] > 0.0
    {
      SelectionNeverRunsDry(States(), now, policy, horizon);
      i :| Eligible(States(), i, now, policy);
      WeightMeansEligible(now, i);
    }

    /**
     * One upstream by weight: an eligible one, and the one whose share of the
     * eligible weight the draw falls in. There must be an upstream to pick.
     */
    method PickAt(now: nat, u: real) returns (r: nat)
      requires Valid() && cells != [] && 0.0 <= u < 1.0
      ensures Eligible(States(), r, now, policy)
      ensures Selection.Hits(DrawWeights(now), Selection.Dart(DrawWeights(now), u), r)
    {
      var weights := DrawWeightsAt(now);
      ghost var i := SomeSlotHasWeight(now);
      r := Draw(weights, u, i);
      WeightMeansEligible(now, r);
    }

    /** The sort key of a slot, from its weight and the number drawn for it. */
    ghost function KeyOf(i: nat, now: nat, draw: nat -> real): Selection.SortKey
      requires Valid() && i < |piles|
      reads piles
    {
      Selection.SortKeyOf(calculus, WeightOf(i, now), draw(i))
    }

    /** Slot `i` comes before slot `j`. */
    ghost predicate Precedes(i: nat, j: nat, now: nat, draw: nat -> real)
      requires Valid() && i < |piles| && j < |piles|
      reads piles
    {
      Selection.InOrder(Selection.Keyed(i, KeyOf(i, now, draw)), Selection.Keyed(j, KeyOf(j, now, draw)))
    }

    /**
     * All eligible slots, each once, by the keys of their weights and of the
     * numbers drawn for them, ties by slot.
     */
    method PickOrderAt(now: nat, draw: nat -> real) returns (order: seq<nat>)
      requires Valid()
      ensures Distinct(order)
      ensures forall i: nat :: i in order <==> Eligible(States(), i, now, policy)
      ensures forall a :: 0 <= a < |order| ==> order[a] < |piles|
      ensures forall a, b :: 0 <= a < b < |order| ==> Precedes(order[a], order[b], now, draw)
    {
      var slots := EligibleSlots(now);
      assert forall j :: 0 <= j < |slots| ==> slots[j] in slots;
      var keyed := KeyedSlots(slots, now, draw);
      ghost var positions: seq<nat>;
      order, positions := OrderSlots(slots, keyed);
      forall a, b | 0 <= a < b < |order| ensures Precedes(order[a], order[b], now, draw) {
        assert Precede(order, positions, keyed, a, b);
      }
    }

    /** Keys drawn for some slots, by position. */
    method KeyedSlots(slots: seq<nat>, now: nat, draw: nat -> real) returns (keyed: seq<Selection.Keyed>)
      requires Valid() && forall j :: 0 <= j < |slots| ==> slots[j] < |piles|
      ensures |keyed| == |slots|
      ensures forall j :: 0 <= j < |slots| ==> keyed[j] == Selection.Keyed(j, KeyOf(slots[j], now, draw))
    {
      var all := WeightsAt(now);
      var weights := seq(|slots|, j requires 0 <= j < |slots| => all[slots[j]]);
      var draws := seq(|slots|, j requires 0 <= j < |slots| => draw(slots[j]));
      keyed := Selection.WeightedKeys(calculus, weights, draws);
    }

    /** The quarantine records of all slots. */
    method HealthAt(now: nat) returns (records: seq<Snapshot>)
      ensures |records| == |cells|
      ensures forall i :: 0 <= i < |cells| ==> records[i] == TakeSnapshot(States()[i], now)
    {
      records := [];
      for k := 0 to |cells|
        invariant |records| == k
        invariant forall i :: 0 <= i < k ==> records[i] == TakeSnapshot(cells[i].Now(), now)
      {
        records := records + [TakeSnapshot(cells[k].Now(), now)];
      }
    }

    /** Re-create a saved quarantine; a record of a healthy upstream changes nothing. */
    method RestoreHealthAt(i: nat, h: Snapshot, now: nat) returns (applied: bool)
      requires Valid()
      modifies cells
      ensures applied <==> Enabled(policy) && h.state != Healthy && i < |cells|
      ensures States() ==
              if applied then Applied(old(States()), HealthRestored(i, h, now), policy, horizon) else old(States())
    {
      if !Enabled(policy) || h.state == Healthy { return false; }
      if i >= |cells| { return false; }
      cells[i].OnRestore(h.state == Quarantined, h.left, h.trips, h.consecutive, now, policy, horizon);
      return true;
    }
  }

  lemma SameMembers(slots: seq<nat>, positions: seq<nat>, order: seq<nat>)
    requires forall j: nat :: j in positions <==> j < |slots|
    requires |order| == |positions| && forall a :: 0 <= a < |order| ==> positions[a] < |slots|
    requires forall a :: 0 <= a < |order| ==> order[a] == slots[positions[a]]
    ensures forall x: nat :: x in order <==> x in slots
  {
    forall x: nat | x in slots ensures x in order {
      var j :| 0 <= j < |slots| && slots[j] == x;
      assert j in positions;
      var a :| 0 <= a < |positions| && positions[a] == j;
      assert order[a] == x;
    }
  }

  /** Two slots of an order, by the keys of their positions and then by themselves. */
  ghost predicate Precede(order: seq<nat>, positions: seq<nat>, keyed: seq<Selection.Keyed>, a: nat, b: nat)
    requires |positions| == |order| && a < |order| && b < |order|
    requires positions[a] < |keyed| && positions[b] < |keyed|
  {
    Selection.InOrder(Selection.Keyed(order[a], keyed[positions[a]].key),
                      Selection.Keyed(order[b], keyed[positions[b]].key))
  }

  /** Order ascending slots by the keys of their positions. */
  method OrderSlots(slots: seq<nat>, keyed: seq<Selection.Keyed>) returns (order: seq<nat>, ghost positions: seq<nat>)
    requires |keyed| == |slots| && Increasing(slots) && Selection.Numbered(keyed)
    ensures Distinct(order) && forall x: nat :: x in order <==> x in slots
    ensures |positions| == |order|
    ensures forall a :: 0 <= a < |order| ==> positions[a] < |slots| && order[a] == slots[positions[a]]
    ensures forall a, b :: 0 <= a < b < |order| ==> Precede(order, positions, keyed, a, b)
  {
    var places := Selection.OrderKeys(keyed);
    Selection.OrderHasAll(places, keyed);
    assert forall a :: 0 <= a < |places| ==> places[a] in places;
    order := seq(|places|, a requires 0 <= a < |places| => slots[places[a]]);
    positions := places;
    forall a, b | 0 <= a < b < |order|
      ensures order[a] != order[b] && Precede(order, positions, keyed, a, b)
    {
      Selection.OrderedByKey(positions, keyed, a, b);
    }
    SameMembers(slots, positions, order);
  }
}
