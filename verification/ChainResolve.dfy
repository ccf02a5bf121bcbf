/**
 * From a plan back to the rotators: what a plan delivers is a chain that the
 * configuration it was drawn from resolves.
 */
module ChainResolving {
  import opened Wrappers
  import opened ChainIdentity
  import opened ChainPlanning
  import Odometer

  /** An order drawn from a rotator picks among the proxies it holds. */
  ghost predicate Drawn(order: Order, rotator: Rotator) {
    order.rotator == rotator && forall i :: 0 <= i < |order.picks| ==> order.picks[i] in rotator.proxies
  }

  /** One order for each gate level, and orders of exit rotators. */
  ghost predicate DrawnFrom(levels: seq<Level>, exits: seq<Rotator>, gates: seq<Order>, outs: seq<Order>) {
    && |gates| == |levels|
    && (forall k :: 0 <= k < |gates| ==> Drawn(gates[k], levels[k].rotator))
    && (forall e :: 0 <= e < |outs| ==> outs[e].rotator in exits && Drawn(outs[e], outs[e].rotator))
  }

  /** The layers a plan makes of the orders. */
  ghost predicate LayersOf(layers: Layers, gates: seq<Order>, outs: seq<Order>) {
    && |layers| == |gates| + 1
    && (forall k :: 0 <= k < |gates| ==> layers[k] == FirstOccurrences(HopsOf(gates[k])))
    && layers[|gates|] == FirstOccurrences(AllHops(outs))
  }

  /** A hop of a rotator that holds its proxy. */
  ghost predicate Sourced(hop: Hop) {
    hop.proxy in hop.rotator.proxies
  }

  lemma {:induction false} ExitHopsSourced(levels: seq<Level>, exits: seq<Rotator>, gates: seq<Order>,
                                           outs: seq<Order>, n: nat, hop: Hop)
    requires DrawnFrom(levels, exits, gates, outs) && n <= |outs| && hop in AllHops(outs[..n])
    ensures Sourced(hop) && hop.rotator in exits
  {
    if n > 0 {
      assert outs[..n][..n - 1] == outs[..n - 1] && outs[..n][n - 1] == outs[n - 1];
      if hop in AllHops(outs[..n - 1]) {
        ExitHopsSourced(levels, exits, gates, outs, n - 1, hop);
      } else {
        assert hop in HopsOf(outs[n - 1]);
      }
    }
  }

  lemma GateHop(levels: seq<Level>, exits: seq<Rotator>, gates: seq<Order>, outs: seq<Order>, layers: Layers,
                k: nat, i: nat)
    requires DrawnFrom(levels, exits, gates, outs) && LayersOf(layers, gates, outs)
    requires k < |levels| && i < |layers[k]|
    ensures Sourced(layers[k][i].hop) && layers[k][i].hop.rotator == levels[k].rotator
  {
    FirstOccurrencesCover(HopsOf(gates[k]));
    assert layers[k][i].hop in HopsOf(gates[k]);
  }

  lemma ExitHop(levels: seq<Level>, exits: seq<Rotator>, gates: seq<Order>, outs: seq<Order>, layers: Layers, i: nat)
    requires DrawnFrom(levels, exits, gates, outs) && LayersOf(layers, gates, outs)
    requires i < |layers[|levels|]|
    ensures Sourced(layers[|levels|][i].hop) && layers[|levels|][i].hop.rotator in exits
  {
    FirstOccurrencesCover(AllHops(outs));
    assert outs[..|outs|] == outs;
    ExitHopsSourced(levels, exits, gates, outs, |outs|, layers[|levels|][i].hop);
  }

  /** The gate hops of a pick have the ranks of their levels. */
  ghost predicate RanksAgree(levels: seq<Level>, pick: ChainPick) {
    |pick.hops| == |levels| + 1 && forall k :: 0 <= k < |levels| ==> pick.hops[k].proxy.gateLevel == levels[k].rank
  }

  /** Every hop comes from the rotator of its level, or from an exit rotator. */
  ghost predicate FromLevels(levels: seq<Level>, exits: seq<Rotator>, hops: seq<Hop>) {
    && |hops| == |levels| + 1 && (forall k :: 0 <= k < |hops| ==> Sourced(hops[k]))
    && (forall k :: 0 <= k < |levels| ==> hops[k].rotator == levels[k].rotator)
    && hops[|levels|].rotator in exits
  }

  lemma HopsFromLevels(levels: seq<Level>, exits: seq<Rotator>, gates: seq<Order>, outs: seq<Order>,
                       layers: Layers, v: Odometer.Vector)
    requires DrawnFrom(levels, exits, gates, outs) && LayersOf(layers, gates, outs)
    requires Odometer.InBox(v, Sizes(layers))
    ensures FromLevels(levels, exits, HopsAt(layers, v))
  {
    forall k | 0 <= k < |levels|
      ensures Sourced(layers[k][v[k]].hop) && layers[k][v[k]].hop.rotator == levels[k].rotator
    {
      GateHop(levels, exits, gates, outs, layers, k, v[k]);
    }
    ExitHop(levels, exits, gates, outs, layers, v[|levels|]);
  }

  lemma ResolvesBack(levels: seq<Level>, exits: seq<Rotator>, pick: ChainPick)
    requires FromLevels(levels, exits, pick.hops) && pick.key == Ids(Proxies(pick.hops))
    ensures var chain := Linked(Proxies(pick.hops)); chain.Some? && KeyOf(chain.value) == pick.key
    ensures Resolvable(levels, exits, pick.key) <==> RanksAgree(levels, pick)
  {
    NodesOfLinked(Proxies(pick.hops));
    assert forall k :: 0 <= k < |pick.hops| ==> Sourced(pick.hops[k]);
    PickResolves(levels, exits, pick.hops);
  }

  /** The ranks agree if every gate rotator holds nodes of its level's rank only. */
  lemma RankedRotators(levels: seq<Level>, exits: seq<Rotator>, pick: ChainPick)
    requires FromLevels(levels, exits, pick.hops)
    requires forall k, p :: 0 <= k < |levels| && p in levels[k].rotator.proxies ==> p.gateLevel == levels[k].rank
    ensures RanksAgree(levels, pick)
  {
    forall k | 0 <= k < |levels| ensures pick.hops[k].proxy.gateLevel == levels[k].rank {
      assert Sourced(pick.hops[k]);
    }
  }

  /**
   * What a plan delivers is the key of the chain of its hops, and that chain
   * resolves against the configuration the plan was drawn from exactly when the
   * ranks of its gates agree.
   */
  lemma DeliveredResolves(levels: seq<Level>, exits: seq<Rotator>, gates: seq<Order>, outs: seq<Order>,
                          layers: Layers, dead: set<Key>, seen: set<Key>, before: seq<Odometer.Vector>,
                          returned: seq<Odometer.Vector>, pick: ChainPick)
    requires DrawnFrom(levels, exits, gates, outs) && LayersOf(layers, gates, outs)
    requires Delivers(layers, dead, seen, before, returned, pick)
    ensures var chain := Linked(Proxies(pick.hops)); chain.Some? && KeyOf(chain.value) == pick.key
    ensures Resolvable(levels, exits, pick.key) <==> RanksAgree(levels, pick)
    ensures FromLevels(levels, exits, pick.hops)
  {
    HopsFromLevels(levels, exits, gates, outs, layers, returned[|before|]);
    ResolvesBack(levels, exits, pick);
  }
}
