/** Code that reads and writes streams, followed step by step by the machine it implements. */
module Following {
  import opened Wrappers
  import opened Bytes
  import opened Streams
  import opened Machines

  /**
   * A machine started in a state on `inbox`, when the input stood at `base`
   * and `before` had been written; `run` is its run from any state.
   */
  datatype Session<!S> =
    Session(machine: Machine<S>, run: (S, Data) -> Turn<S>, start: S, inbox: Data, base: nat, before: Data)

  /** `run` goes on from each reaction, and stops where the machine does. */
  ghost predicate Executes<S(!new)>(run: (S, Data) -> Turn<S>, m: Machine<S>) {
    && (forall s: S, chunk: Data, rest: Data {:trigger run(s, chunk + rest), m.react(s, chunk)} ::
          m.need(s) == Some(|chunk|) ==>
            run(s, chunk + rest) == Join(m.react(s, chunk).1, |chunk|, run(m.react(s, chunk).0, rest)))
    && (forall s: S, inbox: Data {:trigger run(s, inbox)} ::
          (m.need(s).None? || |inbox| < m.need(s).value) ==> run(s, inbox) == Turn([], 0, s, m.need(s).Some?))
  }

  lemma RunExecutes<S(!new)>(m: Machine<S>, run: (S, Data) -> Turn<S>)
    requires Lawful(m) && forall s: S, inbox: Data {:trigger run(s, inbox)} :: run(s, inbox) == Run(m, s, inbox)
    ensures Executes(run, m)
  {
    forall s: S, chunk: Data, rest: Data {:trigger run(s, chunk + rest), m.react(s, chunk)} | m.need(s) == Some(|chunk|)
      ensures run(s, chunk + rest) == Join(m.react(s, chunk).1, |chunk|, run(m.react(s, chunk).0, rest))
    {
      Unroll(m, s, chunk, rest);
    }
  }

  /** The machine has used this much and said this much, and goes on from `s`. */
  ghost predicate At<S(!new)>(g: Session<S>, said: Data, used: nat, s: S) {
    && Executes(g.run, g.machine) && used <= |g.inbox|
    && g.run(g.start, g.inbox) == Join(said, used, g.run(s, g.inbox[used..]))
  }

  /** The streams follow the machine: it is at `s`, with `unsaid` still to be written. */
  ghost predicate Follows<S(!new)>(inb: Inbound, out: Outbound, g: Session<S>, s: S, unsaid: Data)
    reads inb, out
  {
    && inb.Valid() && g.base <= inb.pos && g.base <= |inb.bytes| && g.inbox == inb.bytes[g.base..]
    && g.before <= out.sent
    && At(g, out.sent[|g.before|..] + unsaid, inb.pos - g.base, s)
  }

  /** The machine stopped in `end`, or the input ended while it waited there. */
  ghost predicate Ended<S(!new)>(inb: Inbound, out: Outbound, g: Session<S>, end: S, starved: bool)
    reads inb, out
  {
    && inb.Valid()
    && var t := g.run(g.start, g.inbox);
       && t.end == end && t.starved == starved && out.sent == g.before + t.sent
       && inb.pos == if starved then |inb.bytes| else g.base + t.used
  }

  lemma Advance<S(!new)>(g: Session<S>, said: Data, used: nat, s: S, n: nat)
    requires At(g, said, used, s) && g.machine.need(s) == Some(n) && used + n <= |g.inbox|
    ensures var r := g.machine.react(s, g.inbox[used..used + n]); At(g, said + r.1, used + n, r.0)
  {
    var chunk, rest := g.inbox[used..used + n], g.inbox[used + n..];
    assert g.inbox[used..] == chunk + rest;
    var r := g.machine.react(s, chunk);
    JoinJoin(said, used, r.1, n, g.run(r.0, rest));
  }

  lemma Stop<S(!new)>(g: Session<S>, said: Data, used: nat, s: S)
    requires At(g, said, used, s)
    requires g.machine.need(s).Some? ==> |g.inbox| - used < g.machine.need(s).value
    ensures g.run(g.start, g.inbox) == Turn(said, used, s, g.machine.need(s).Some?)
  {
    assert said + [] == said;
  }

  lemma Begin<S(!new)>(inb: Inbound, out: Outbound, g: Session<S>)
    requires inb.Valid() && Executes(g.run, g.machine)
    requires g.inbox == inb.Left() && g.base == inb.pos && g.before == out.sent
    ensures Follows(inb, out, g, g.start, [])
  {
    assert g.inbox[0..] == g.inbox;
    assert out.sent[|g.before|..] + [] == [];
    var t := g.run(g.start, g.inbox);
    assert [] + t.sent == t.sent;
  }

  /** Read exactly what the machine waits for. */
  method Hear<S(!new)>(inb: Inbound, out: Outbound, n: nat, ghost g: Session<S>, ghost s: S)
    returns (chunk: Option<Data>)
    requires Follows(inb, out, g, s, []) && g.machine.need(s) == Some(n)
    modifies inb`pos
    ensures chunk.Some? ==>
      && |chunk.value| == n
      && var r := g.machine.react(s, chunk.value); Follows(inb, out, g, r.0, r.1)
    ensures chunk.None? ==> Ended(inb, out, g, s, true)
  {
    ghost var used := inb.pos - g.base;
    ghost var said := out.sent[|g.before|..];
    assert said + [] == said;
    chunk := inb.ReadExact(n);
    if chunk.Some? {
      assert g.inbox[used..used + n] == chunk.value;
      Advance(g, said, used, s, n);
    } else {
      Stop(g, said, used, s);
    }
  }

  /** Write what the machine says. */
  method Say<S(!new)>(inb: Inbound, out: Outbound, data: Data, ghost g: Session<S>, ghost s: S)
    requires Follows(inb, out, g, s, data)
    modifies out
    ensures Follows(inb, out, g, s, [])
  {
    ghost var said := out.sent[|g.before|..];
    out.WriteAll(data);
    assert out.sent[|g.before|..] + [] == said + data;
  }

  /** The machine stopped. */
  lemma Finish<S(!new)>(inb: Inbound, out: Outbound, g: Session<S>, s: S)
    requires Follows(inb, out, g, s, []) && g.machine.need(s).None?
    ensures Ended(inb, out, g, s, false)
  {
    var said := out.sent[|g.before|..];
    assert said + [] == said;
    Stop(g, said, inb.pos - g.base, s);
  }
}
