/**
 * Proxy descriptors, the gate-linked list that turns them into chains, and
 * the identity under which chains are compared and hashed.
 */
module ChainIdentity {
  import opened Wrappers

  datatype Protocol = Socks5 | Http | Https

  /** What makes a node that node: everything except the gate link and the derived `isGate`. */
  datatype Identity = Identity(
    protocol: Protocol, host: string, port: nat,
    user: Option<string>, password: Option<string>, gateLevel: nat)

  /** A proxy entry; `gate` links to the node dialled just before it. */
  datatype ProxyConfig = ProxyConfig(
    protocol: Protocol, host: string, port: nat,
    user: Option<string>, password: Option<string>,
    gateLevel: nat, isGate: bool, gate: Option<ProxyConfig>)

  /** A chain's identity: its nodes' identities, outermost first. */
  type Key = seq<Identity>

  function Id(c: ProxyConfig): Identity {
    Identity(c.protocol, c.host, c.port, c.user, c.password, c.gateLevel)
  }

  /** Two nodes are the same if and only if these six agree; the gate link and `isGate` do not matter. */
  lemma SameNode(a: ProxyConfig, b: ProxyConfig)
    ensures Id(a) == Id(b) <==>
      && a.protocol == b.protocol && a.host == b.host && a.port == b.port
      && a.user == b.user && a.password == b.password && a.gateLevel == b.gateLevel
  {
    var x, y := Id(a), Id(b);
    assert x == y <==>
      && x.protocol == y.protocol && x.host == y.host && x.port == y.port
      && x.user == y.user && x.password == y.password && x.gateLevel == y.gateLevel;
  }

  function Ids(nodes: seq<ProxyConfig>): Key {
    seq(|nodes|, i requires 0 <= i < |nodes| => Id(nodes[i]))
  }

  /** The nodes of a chain, outermost first and the exit last. */
  function NodesOf(c: ProxyConfig): (nodes: seq<ProxyConfig>)
    ensures nodes != [] && nodes[|nodes| - 1] == c
  {
    (if c.gate.Some? then NodesOf(c.gate.value) else []) + [c]
  }

  function NodesFrom(c: Option<ProxyConfig>): seq<ProxyConfig> {
    if c.Some? then NodesOf(c.value) else []
  }

  function KeyOf(c: ProxyConfig): Key {
    Ids(NodesOf(c))
  }

  /** The chain whose nodes are `nodes`, with their own gate links discarded. */
  function Linked(nodes: seq<ProxyConfig>): Option<ProxyConfig> {
    if nodes == [] then None
    else
      var last := |nodes| - 1;
      Some(nodes[last].(gate := Linked(nodes[..last])))
  }

  function Reversed<T>(s: seq<T>): seq<T> {
    seq(|s|, i requires 0 <= i < |s| => s[|s| - 1 - i])
  }

  lemma WalkOn(c: ProxyConfig, walked: seq<ProxyConfig>)
    ensures NodesFrom(Some(c)) + Reversed(walked) == NodesFrom(c.gate) + Reversed(walked + [c])
  {
    assert Reversed(walked + [c]) == [c] + Reversed(walked);
    var front := NodesFrom(c.gate);
    assert front + [c] + Reversed(walked) == front + ([c] + Reversed(walked));
  }

  // ---- The methods that walk the gate links ----

  /** Walk exit-first, then reverse. */
  method Nodes(c: ProxyConfig) returns (nodes: seq<ProxyConfig>)
    ensures nodes == NodesOf(c)
  {
    nodes := [];
    var current := Some(c);
    while current.Some?
      invariant NodesOf(c) == NodesFrom(current) + Reversed(nodes)
      decreases current
    {
      WalkOn(current.value, nodes);
      nodes := nodes + [current.value];
      current := current.value.gate;
    }
    nodes := Reversed(nodes);
  }

  method ChainLen(c: ProxyConfig) returns (len: nat)
    ensures len == |NodesOf(c)|
  {
    len := 0;
    var current := Some(c);
    while current.Some?
      invariant len + |NodesFrom(current)| == |NodesOf(c)|
      decreases current
    {
      len := len + 1;
      current := current.value.gate;
    }
  }

  method Outermost(c: ProxyConfig) returns (outer: ProxyConfig)
    ensures outer == NodesOf(c)[0]
  {
    outer := c;
    while outer.gate.Some?
      invariant NodesOf(outer)[0] == NodesOf(c)[0]
      decreases outer
    {
      outer := outer.gate.value;
    }
  }

  /** Fold the nodes into a linked configuration, each one gated by those before it. */
  method Chain(nodes: seq<ProxyConfig>) returns (chain: Option<ProxyConfig>)
    ensures chain == Linked(nodes)
  {
    chain := None;
    for i := 0 to |nodes|
      invariant chain == Linked(nodes[..i])
    {
      chain := Some(nodes[i].(gate := chain));
      assert nodes[..i + 1][..i] == nodes[..i];
    }
    assert nodes[..|nodes|] == nodes;
  }

  lemma NodesOfLast(node: ProxyConfig, gate: Option<ProxyConfig>)
    ensures NodesOf(node.(gate := gate)) == NodesFrom(gate) + [node.(gate := gate)]
  {
  }

  /** What listing the nodes of a built chain gives. */
  ghost predicate Relinked(listed: seq<ProxyConfig>, nodes: seq<ProxyConfig>) {
    |listed| == |nodes| && forall i :: 0 <= i < |nodes| ==> listed[i] == nodes[i].(gate := Linked(nodes[..i]))
  }

  lemma RelinkedSnoc(listed: seq<ProxyConfig>, front: seq<ProxyConfig>, node: ProxyConfig)
    requires Relinked(listed, front)
    ensures Relinked(listed + [node.(gate := Linked(front))], front + [node])
  {
    var nodes := front + [node];
    forall i | 0 <= i <= |front| ensures nodes[..i] == front[..i] {}
    assert front[..|front|] == front;
  }

  lemma {:induction false} LinkedNodes(nodes: seq<ProxyConfig>)
    ensures Relinked(NodesFrom(Linked(nodes)), nodes)
  {
    if nodes != [] {
      var last := |nodes| - 1;
      var front := nodes[..last];
      LinkedNodes(front);
      NodesOfLast(nodes[last], Linked(front));
      RelinkedSnoc(NodesFrom(Linked(front)), front, nodes[last]);
      assert nodes == front + [nodes[last]];
    }
  }

  /** Building a chain and listing its nodes undo each other, up to the gate links. */
  lemma {:induction false} NodesOfLinked(nodes: seq<ProxyConfig>)
    ensures nodes == [] <==> Linked(nodes).None?
    ensures nodes != [] ==> KeyOf(Linked(nodes).value) == Ids(nodes)
    ensures nodes != [] ==>
      forall i :: 0 <= i < |nodes| ==>
        NodesOf(Linked(nodes).value)[i] == nodes[i].(gate := Linked(nodes[..i]))
  {
    LinkedNodes(nodes);
  }

  /** In the other direction the round trip is exact: a chain's nodes already carry its links. */
  lemma {:induction false} LinkedNodesOf(c: ProxyConfig)
    ensures Linked(NodesOf(c)) == Some(c)
  {
    if c.gate.Some? {
      LinkedNodesOf(c.gate.value);
      assert NodesOf(c)[..|NodesOf(c)| - 1] == NodesOf(c.gate.value);
    } else {
      assert NodesOf(c)[..0] == [];
    }
  }

  // ---- Key equality and hashing ----

  lemma SnocEqual<T>(s: seq<T>, x: T, t: seq<T>, y: T)
    ensures s + [x] == t + [y] <==> s == t && x == y
  {
    if s + [x] == t + [y] {
      assert (s + [x])[|s|] == (t + [y])[|t|];
      assert s == (s + [x])[..|s|] == (t + [y])[..|t|] == t;
    }
  }

  lemma KeySnoc(c: ProxyConfig)
    ensures KeyOf(c) == Ids(NodesFrom(c.gate)) + [Id(c)]
  {
  }

  /** Chain keys are compared exit-first; the answer is equality of the identity sequences. */
  method KeyEq(a: ProxyConfig, b: ProxyConfig) returns (equal: bool)
    ensures equal <==> KeyOf(a) == KeyOf(b)
  {
    var left, right := Some(a), Some(b);
    while true
      invariant KeyOf(a) == KeyOf(b) <==> Ids(NodesFrom(left)) == Ids(NodesFrom(right))
      decreases left
    {
      if left.None? && right.None? { return true; }
      if left.None? || right.None? {
        assert |Ids(NodesFrom(left))| != |Ids(NodesFrom(right))|;
        return false;
      }
      var x, y := left.value, right.value;
      KeySnoc(x);
      KeySnoc(y);
      SnocEqual(Ids(NodesFrom(x.gate)), Id(x), Ids(NodesFrom(y.gate)), Id(y));
      if x.protocol != y.protocol || x.host != y.host || x.port != y.port
        || x.user != y.user || x.password != y.password || x.gateLevel != y.gateLevel
      {
        return false;
      }
      left, right := x.gate, y.gate;
    }
  }

  /** One value written to the hasher. */
  datatype Atom = Length(len: nat) | Tag(protocol: Protocol) | Text(text: string)
                | Number(number: nat) | MaybeText(maybe: Option<string>)

  function NodeFeed(id: Identity): seq<Atom> {
    [Tag(id.protocol), Text(id.host), Number(id.port),
     MaybeText(id.user), MaybeText(id.password), Number(id.gateLevel)]
  }

  function KeyFeed(key: Key): seq<Atom> {
    if key == [] then [] else KeyFeed(key[..|key| - 1]) + NodeFeed(key[|key| - 1])
  }

  /** Everything the hasher receives for one key: the node count, then six values a node. */
  method Hash(c: ProxyConfig) returns (feed: seq<Atom>)
    ensures feed == [Length(|KeyOf(c)|)] + KeyFeed(KeyOf(c))
  {
    var nodes := Nodes(c);
    feed := [Length(|nodes|)];
    for i := 0 to |nodes|
      invariant feed == [Length(|nodes|)] + KeyFeed(KeyOf(c)[..i])
    {
      var n := nodes[i];
      feed := feed + [Tag(n.protocol), Text(n.host), Number(n.port),
                      MaybeText(n.user), MaybeText(n.password), Number(n.gateLevel)];
      assert KeyOf(c)[..i + 1][..i] == KeyOf(c)[..i];
    }
    assert KeyOf(c)[..|nodes|] == KeyOf(c);
  }

  lemma {:induction false} KeyFeedLength(key: Key)
    ensures |KeyFeed(key)| == 6 * |key|
  {
    if key != [] { KeyFeedLength(key[..|key| - 1]); }
  }

  /** The values of the nodes follow each other, outermost first, each six in this order. */
  lemma {:induction false} FeedInOrder(nodes: seq<ProxyConfig>, i: nat)
    requires i < |nodes|
    ensures |KeyFeed(Ids(nodes))| == 6 * |nodes|
    ensures KeyFeed(Ids(nodes))[6 * i..6 * i + 6] ==
            [Tag(nodes[i].protocol), Text(nodes[i].host), Number(nodes[i].port),
             MaybeText(nodes[i].user), MaybeText(nodes[i].password), Number(nodes[i].gateLevel)]
  {
    var last := |nodes| - 1;
    assert Ids(nodes)[..last] == Ids(nodes[..last]);
    KeyFeedLength(Ids(nodes));
    KeyFeedLength(Ids(nodes[..last]));
    if i < last {
      FeedInOrder(nodes[..last], i);
      assert KeyFeed(Ids(nodes))[6 * i..6 * i + 6] == KeyFeed(Ids(nodes[..last]))[6 * i..6 * i + 6];
    }
  }

  /** Equal keys feed the hasher equal data, and only equal keys do. */
  lemma {:induction false} FeedDeterminesKey(a: Key, b: Key)
    ensures [Length(|a|)] + KeyFeed(a) == [Length(|b|)] + KeyFeed(b) <==> a == b
  {
    if [Length(|a|)] + KeyFeed(a) == [Length(|b|)] + KeyFeed(b) {
      assert ([Length(|a|)] + KeyFeed(a))[0] == ([Length(|b|)] + KeyFeed(b))[0];
      assert ([Length(|a|)] + KeyFeed(a))[1..] == KeyFeed(a);
      assert ([Length(|b|)] + KeyFeed(b))[1..] == KeyFeed(b);
      SameFeed(a, b);
    }
  }

  lemma NodeFeedInjective(a: Identity, b: Identity)
    requires NodeFeed(a) == NodeFeed(b)
    ensures a == b
  {
    forall k | 0 <= k < 6 ensures NodeFeed(a)[k] == NodeFeed(b)[k] {}
    assert NodeFeed(a)[0] == Tag(a.protocol) && NodeFeed(a)[1] == Text(a.host) && NodeFeed(a)[2] == Number(a.port);
    assert NodeFeed(a)[3] == MaybeText(a.user) && NodeFeed(a)[4] == MaybeText(a.password);
    assert NodeFeed(a)[5] == Number(a.gateLevel);
  }

  lemma SplitFeed(front: seq<Atom>, last: seq<Atom>, front': seq<Atom>, last': seq<Atom>)
    requires |front| == |front'| && front + last == front' + last'
    ensures front == front' && last == last'
  {
    assert front == (front + last)[..|front|] && last == (front + last)[|front|..];
    assert front' == (front' + last')[..|front'|] && last' == (front' + last')[|front'|..];
  }

  lemma {:induction false} SameFeed(a: Key, b: Key)
    requires |a| == |b| && KeyFeed(a) == KeyFeed(b)
    ensures a == b
  {
    if a != [] {
      var n := |a| - 1;
      KeyFeedLength(a[..n]);
      KeyFeedLength(b[..n]);
      SplitFeed(KeyFeed(a[..n]), NodeFeed(a[n]), KeyFeed(b[..n]), NodeFeed(b[n]));
      SameFeed(a[..n], b[..n]);
      NodeFeedInjective(a[n], b[n]);
      assert a == a[..n] + [a[n]] && b == b[..n] + [b[n]];
    }
  }

  // ---- Resolving a chain against the configured rotators ----

  /** A rotator seen from outside: a name and the proxies it holds. */
  datatype Rotator = Rotator(name: nat, proxies: seq<ProxyConfig>)

  datatype Level = Level(rank: nat, rotator: Rotator)

  datatype Hop = Hop(rotator: Rotator, proxy: ProxyConfig)

  datatype ChainPick = ChainPick(hops: seq<Hop>, key: Key)

  function Proxies(hops: seq<Hop>): seq<ProxyConfig> {
    seq(|hops|, i requires 0 <= i < |hops| => hops[i].proxy)
  }

  ghost predicate Holds(rotator: Rotator, id: Identity) {
    exists p :: p in rotator.proxies && Id(p) == id
  }

  ghost predicate Fits(level: Level, id: Identity) {
    id.gateLevel == level.rank && Holds(level.rotator, id)
  }

  ghost predicate GatesFit(levels: seq<Level>, key: Key)
    requires |levels| <= |key|
  {
    forall k :: 0 <= k < |levels| ==> Fits(levels[k], key[k])
  }

  /** Exactly the chains `Resolve` accepts. */
  ghost predicate Resolvable(levels: seq<Level>, exits: seq<Rotator>, key: Key) {
    && |key| == |levels| + 1
    && GatesFit(levels, key)
    && exists e :: e in exits && Holds(e, key[|levels|])
  }

  /** `hops[k]` is held by its rotator and is the same node as `key[k]`. */
  ghost predicate HopsMatch(hops: seq<Hop>, key: Key) {
    && |hops| <= |key|
    && forall k :: 0 <= k < |hops| ==>
         hops[k].proxy in hops[k].rotator.proxies && Id(hops[k].proxy) == key[k]
  }

  method Find(rotator: Rotator, node: ProxyConfig) returns (found: Option<ProxyConfig>)
    ensures found.Some? <==> Holds(rotator, Id(node))
    ensures found.Some? ==> found.value in rotator.proxies && Id(found.value) == Id(node)
  {
    for i := 0 to |rotator.proxies|
      invariant forall j :: 0 <= j < i ==> Id(rotator.proxies[j]) != Id(node)
    {
      if Id(rotator.proxies[i]) == Id(node) { return Some(rotator.proxies[i]); }
    }
    return None;
  }

  /** The gate levels' part: one hop a level, or a level that does not fit the chain. */
  method ResolveGates(levels: seq<Level>, nodes: seq<ProxyConfig>) returns (r: Option<seq<Hop>>)
    requires |nodes| == |levels| + 1
    ensures r.Some? <==> GatesFit(levels, Ids(nodes))
    ensures r.Some? ==> |r.value| == |levels| && HopsMatch(r.value, Ids(nodes))
    ensures r.Some? ==> forall k :: 0 <= k < |levels| ==> r.value[k].rotator == levels[k].rotator
  {
    var hops: seq<Hop> := [];
    for k := 0 to |levels|
      invariant |hops| == k && HopsMatch(hops, Ids(nodes))
      invariant forall j :: 0 <= j < k ==> hops[j].rotator == levels[j].rotator
      invariant forall j :: 0 <= j < k ==> Fits(levels[j], Id(nodes[j]))
    {
      if nodes[k].gateLevel != levels[k].rank {
        assert !Fits(levels[k], Ids(nodes)[k]);
        return None;
      }
      var proxy := Find(levels[k].rotator, nodes[k]);
      if proxy.None? {
        assert !Fits(levels[k], Ids(nodes)[k]);
        return None;
      }
      hops := hops + [Hop(levels[k].rotator, proxy.value)];
    }
    return Some(hops);
  }

  method Resolve(levels: seq<Level>, exits: seq<Rotator>, chain: ProxyConfig)
    returns (r: Option<ChainPick>)
    ensures r.Some? <==> Resolvable(levels, exits, KeyOf(chain))
    ensures r.Some? ==>
      && r.value.key == KeyOf(chain)
      && |r.value.hops| == |levels| + 1 && HopsMatch(r.value.hops, KeyOf(chain))
      && (forall k :: 0 <= k < |levels| ==> r.value.hops[k].rotator == levels[k].rotator)
      && r.value.hops[|levels|].rotator in exits
  {
    var nodes := Nodes(chain);
    if |nodes| != |levels| + 1 { return None; }
    var gates := ResolveGates(levels, nodes);
    if gates.None? { return None; }
    var exitNode := nodes[|levels|];
    for e := 0 to |exits|
      invariant forall j :: 0 <= j < e ==> !Holds(exits[j], Id(exitNode))
    {
      var proxy := Find(exits[e], exitNode);
      if proxy.Some? {
        var hops := gates.value + [Hop(exits[e], proxy.value)];
        NodesOfLinked(Proxies(hops));
        var linked := Chain(Proxies(hops));
        assert Ids(Proxies(hops)) == Ids(nodes);
        assert exits[e] in exits && Holds(exits[e], KeyOf(chain)[|levels|]);
        return Some(ChainPick(hops, KeyOf(linked.value)));
      }
    }
    return None;
  }

  /**
   * A pick taken from the configured rotators always resolves back, provided
   * every gate rotator holds only nodes of its own rank; the one obstacle is a
   * gate hop whose rank differs from its level's.
   */
  lemma PickResolves(levels: seq<Level>, exits: seq<Rotator>, hops: seq<Hop>)
    requires |hops| == |levels| + 1
    requires forall k :: 0 <= k < |hops| ==> hops[k].proxy in hops[k].rotator.proxies
    requires forall k :: 0 <= k < |levels| ==> hops[k].rotator == levels[k].rotator
    requires hops[|levels|].rotator in exits
    ensures Linked(Proxies(hops)).Some?
    ensures Resolvable(levels, exits, KeyOf(Linked(Proxies(hops)).value))
       <==> forall k :: 0 <= k < |levels| ==> hops[k].proxy.gateLevel == levels[k].rank
  {
    NodesOfLinked(Proxies(hops));
    var key := KeyOf(Linked(Proxies(hops)).value);
    assert forall k :: 0 <= k < |hops| ==> key[k] == Id(hops[k].proxy) && Holds(hops[k].rotator, key[k]);
    forall k | 0 <= k < |levels| ensures Fits(levels[k], key[k]) <==> hops[k].proxy.gateLevel == levels[k].rank {}
  }
}
