/** Peers that take turns: each reads an exact number of bytes, then speaks and moves on. */
module Machines {
  import opened Wrappers
  import opened Bytes

  /**
   * In each state the machine needs a number of bytes, or none because it
   * stopped. On reading exactly that many it moves to a state of lower rank
   * and says something.
   */
  datatype Machine<!S> = Machine(need: S -> Option<nat>, react: (S, Data) -> (S, Data), rank: S -> nat)

  ghost predicate Lawful<S(!new)>(m: Machine<S>) {
    forall s: S, chunk: Data {:trigger m.react(s, chunk)} ::
      m.need(s) == Some(|chunk|) ==> m.rank(m.react(s, chunk).0) < m.rank(s)
  }

  /** What was said, how much of the input was reacted to, and where that left it; `starved` when it waits for more. */
  datatype Turn<S> = Turn(sent: Data, used: nat, end: S, starved: bool)

  function Join<S>(sent: Data, used: nat, t: Turn<S>): Turn<S> {
    Turn(sent + t.sent, used + t.used, t.end, t.starved)
  }

  function Run<S(!new)>(m: Machine<S>, s: S, inbox: Data): (t: Turn<S>)
    requires Lawful(m)
    ensures t.used <= |inbox| && (m.need(t.end).Some? <==> t.starved)
    ensures t.starved ==> |inbox| - t.used < m.need(t.end).value
    decreases m.rank(s)
  {
    var need := m.need(s);
    if need.None? then Turn([], 0, s, false)
    else if |inbox| < need.value then Turn([], 0, s, true)
    else
      var r := m.react(s, inbox[..need.value]);
      Join(r.1, need.value, Run(m, r.0, inbox[need.value..]))
  }

  lemma JoinJoin<S>(a: Data, i: nat, b: Data, j: nat, t: Turn<S>)
    ensures Join(a, i, Join(b, j, t)) == Join(a + b, i + j, t)
  {
    Assoc(a, b, t.sent);
  }

  lemma Unroll<S(!new)>(m: Machine<S>, s: S, chunk: Data, rest: Data)
    requires Lawful(m) && m.need(s) == Some(|chunk|)
    ensures var r := m.react(s, chunk); Run(m, s, chunk + rest) == Join(r.1, |chunk|, Run(m, r.0, rest))
  {
    assert (chunk + rest)[..|chunk|] == chunk && (chunk + rest)[|chunk|..] == rest;
  }

  lemma ResumeStep<S(!new)>(m: Machine<S>, s: S, inbox: Data, chunk: Data, rest: Data, more: Data, t: Turn<S>,
                            later: Turn<S>)
    requires Lawful(m) && m.need(s) == Some(|chunk|) && inbox == chunk + rest
    requires var q := m.react(s, chunk).0; t == Run(m, q, rest) && Run(m, q, rest + more) == Join(t.sent, t.used, later)
    ensures var said := m.react(s, chunk).1;
      && Run(m, s, inbox) == Join(said, |chunk|, t)
      && Run(m, s, inbox + more) == Join(said + t.sent, |chunk| + t.used, later)
  {
    Assoc(chunk, rest, more);
    Unroll(m, s, chunk, rest);
    Unroll(m, s, chunk, rest + more);
    JoinJoin(m.react(s, chunk).1, |chunk|, t.sent, t.used, later);
  }

  lemma DropBoth(inbox: Data, chunk: Data, rest: Data, n: nat)
    requires inbox == chunk + rest && n <= |rest|
    ensures inbox[|chunk| + n..] == rest[n..]
  {
  }

  /** A run over more input is the run over less, resumed: nothing said is taken back, and segmentation is invisible. */
  lemma {:induction false} Resume<S(!new)>(m: Machine<S>, s: S, inbox: Data, more: Data)
    requires Lawful(m)
    ensures var t := Run(m, s, inbox);
      Run(m, s, inbox + more) == Join(t.sent, t.used, Run(m, t.end, inbox[t.used..] + more))
    decreases m.rank(s)
  {
    var need := m.need(s);
    if need.None? || |inbox| < need.value {
      assert inbox[0..] == inbox;
    } else {
      var chunk, rest := inbox[..need.value], inbox[need.value..];
      var q := m.react(s, chunk).0;
      Resume(m, q, rest, more);
      var t := Run(m, q, rest);
      var left := rest[t.used..];
      ResumeStep(m, s, inbox, chunk, rest, more, t, Run(m, t.end, left + more));
      DropBoth(inbox, chunk, rest, t.used);
      assert inbox[Run(m, s, inbox).used..] == left;
    }
  }

  /** More input never takes back what was said, nor wakes a machine that stopped. */
  lemma SaysMore<S(!new)>(m: Machine<S>, s: S, a: Data, b: Data)
    requires Lawful(m) && a <= b
    ensures Run(m, s, a).sent <= Run(m, s, b).sent
    ensures !Run(m, s, a).starved ==> Run(m, s, b) == Run(m, s, a)
  {
    var t := Run(m, s, a);
    Resume(m, s, a, b[|a|..]);
    assert a + b[|a|..] == b;
    assert t.sent + [] == t.sent;
  }
}
