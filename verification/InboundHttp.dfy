/**
 * The inbound HTTP side: reading a request head in chunks, splitting it into
 * lines, and serving the bytes read too far before the stream itself.
 */
module InboundHttp {
  import opened Wrappers
  import opened Bytes
  import opened Streams
  import opened HeaderEnd

  const MAX_HEADER_BYTES: nat := 16384

  // ---- Framing ----

  /** How the head of a whole client stream is framed. */
  datatype Framing = Head(end: nat) | HeaderTooLarge | Closed

  function Frame(whole: Data): Framing {
    var end := FirstEnd(whole);
    if end.Some? && end.value <= MAX_HEADER_BYTES then Head(end.value)
    else if |whole| > MAX_HEADER_BYTES then HeaderTooLarge
    else Closed
  }

  /**
   * Read until the head ends, grows too large, or the client closes. However
   * the bytes arrive, the framing is that of the whole stream, and `buf` holds
   * every byte taken from it.
   */
  method ReadHead(stream: Inbound, first: byte) returns (framing: Framing, buf: Data)
    requires stream.Valid()
    modifies stream`pos
    ensures stream.Valid() && stream.pos >= old(stream.pos)
    ensures framing == Frame([first] + old(stream.Left()))
    ensures buf == [first] + stream.bytes[old(stream.pos)..stream.pos]
    ensures framing.Head? ==> framing.end <= |buf|
  {
    buf := [first];
    ghost var start, whole := stream.pos, [first] + stream.Left();
    while true
      invariant stream.Valid() && stream.pos >= start
      invariant buf == [first] + stream.bytes[start..stream.pos]
      invariant |buf| <= MAX_HEADER_BYTES && forall j :: 0 <= j <= |buf| ==> !EndsAt(buf, j)
      decreases |stream.bytes| - stream.pos
    {
      ghost var sofar, before := buf, stream.pos;
      var chunk := stream.Read(1024);
      SliceJoin(stream.bytes, start, before, stream.pos);
      Assoc([first], stream.bytes[start..before], chunk);
      SliceJoin(stream.bytes, start, stream.pos, |stream.bytes|);
      Assoc([first], stream.bytes[start..stream.pos], stream.bytes[stream.pos..]);
      if chunk == [] {
        assert buf == whole;
        return Closed, buf;
      }
      var scanFrom := if |buf| < 3 then 0 else |buf| - 3;
      buf := buf + chunk;
      OverlapScan(sofar, chunk);
      EndSeen(buf, whole);
      var pos := FindHeaderEnd(buf[scanFrom..]);
      if pos.Some? {
        var end := scanFrom + pos.value + 4;
        return if end > MAX_HEADER_BYTES then HeaderTooLarge else Head(end), buf;
      }
      if |buf| > MAX_HEADER_BYTES { return HeaderTooLarge, buf; }
    }
  }

  /**
   * In bytes: a head of at most 16384 ends with the first CR LF CR LF, any
   * other stream is too large if it is longer than that, and ended too soon if
   * not.
   */
  lemma FramedInBytes(whole: Data, i: nat)
    ensures BlankAt(whole, i) && (forall j: nat :: j < i ==> !BlankAt(whole, j)) ==>
            Frame(whole) == if i + 4 <= 16384 then Head(i + 4) else HeaderTooLarge
    ensures (forall j: nat :: !BlankAt(whole, j)) ==>
            Frame(whole) == if |whole| > 16384 then HeaderTooLarge else Closed
  {
    var end := FirstEnd(whole);
    if end.Some? { EndsInBytes(whole, end.value); }
    EndsInBytes(whole, i + 4);
    forall j: nat | j < i + 4 && EndsAt(whole, j) ensures BlankAt(whole, j - 4) { EndsInBytes(whole, j); }
  }

  /** What part of the stream shows of its first end. */
  lemma EndSeen(buf: Data, whole: Data)
    requires buf <= whole
    ensures FirstEnd(buf).Some? ==> FirstEnd(whole) == FirstEnd(buf)
    ensures FirstEnd(buf).None? && FirstEnd(whole).Some? ==> FirstEnd(whole).value > |buf|
  {
    forall j | 0 <= j <= |buf| ensures EndsAt(whole, j) <==> EndsAt(buf, j) { EndsAtPrefix(buf, whole, j); }
    if FirstEnd(buf).Some? { IsFirstEnd(whole, FirstEnd(buf).value); }
  }

  // ---- Lines ----

  const CRLF: Data := [CR, LF]

  predicate CrlfAt(s: Data, i: int) {
    0 <= i && i + 2 <= |s| && s[i] == CR && s[i + 1] == LF
  }

  /** Where the first CRLF starts. */
  function FirstCrlf(s: Data, from: nat): (r: Option<nat>)
    requires from <= |s|
    ensures r.Some? ==> from <= r.value && CrlfAt(s, r.value) && forall i :: from <= i < r.value ==> !CrlfAt(s, i)
    ensures r.None? ==> forall i :: from <= i ==> !CrlfAt(s, i)
    decreases |s| - from
  {
    if from == |s| then None else if CrlfAt(s, from) then Some(from) else FirstCrlf(s, from + 1)
  }

  function Lines(s: Data): seq<Data> {
    if s == [] then []
    else
      var pos := FirstCrlf(s, 0);
      if pos.None? then [s] else [s[..pos.value]] + Lines(s[pos.value + 2..])
  }

  class ByteLines {
    var rest: Data

    constructor (rest: Data)
      ensures this.rest == rest
    {
      this.rest := rest;
    }

    /** The next line without its CRLF; the last line may lack one. */
    method Next() returns (line: Option<Data>)
      modifies this
      ensures line.None? <==> old(rest) == []
      ensures line.None? ==> rest == []
      ensures line.Some? ==> Lines(old(rest)) == [line.value] + Lines(rest) && |rest| < |old(rest)|
    {
      if rest == [] { return None; }
      var i := 0;
      while i + 2 <= |rest|
        invariant 0 <= i <= |rest| && rest == old(rest)
        invariant FirstCrlf(rest, 0) == FirstCrlf(rest, i)
      {
        if rest[i] == CR && rest[i + 1] == LF {
          line := Some(rest[..i]);
          rest := rest[i + 2..];
          return;
        }
        i := i + 1;
      }
      assert forall k :: i <= k ==> !CrlfAt(rest, k);
      line := Some(rest);
      rest := [];
    }

    method Collect() returns (lines: seq<Data>)
      modifies this
      ensures lines == Lines(old(rest)) && rest == []
    {
      lines := [];
      while true
        invariant lines + Lines(rest) == Lines(old(rest))
        decreases |rest|
      {
        ghost var before := lines;
        var line := Next();
        if line.None? { break; }
        lines := lines + [line.value];
        assert before + ([line.value] + Lines(rest)) == lines + Lines(rest);
      }
    }
  }

  function JoinLines(lines: seq<Data>): Data {
    if lines == [] then []
    else if |lines| == 1 then lines[0]
    else lines[0] + (CRLF + JoinLines(lines[1..]))
  }

  predicate EndsWithCrlf(s: Data) {
    CrlfAt(s, |s| - 2)
  }

  ghost predicate Unbroken(line: Data) {
    forall i :: 0 <= i ==> !CrlfAt(line, i)
  }

  /** Rejoined with CRLF, the lines give the text back, minus the one CRLF it may end with. */
  lemma {:induction false} LinesRejoin(s: Data)
    ensures forall line :: line in Lines(s) ==> Unbroken(line)
    ensures s == JoinLines(Lines(s)) + if EndsWithCrlf(s) then CRLF else []
  {
    if s != [] {
      var pos := FirstCrlf(s, 0);
      if pos.Some? {
        var line, rest := s[..pos.value], s[pos.value + 2..];
        assert s == line + CRLF + rest;
        assert forall i :: 0 <= i && CrlfAt(line, i) ==> CrlfAt(s, i);
        LinesRejoin(rest);
        if rest != [] {
          assert EndsWithCrlf(s) <==> EndsWithCrlf(rest) by {
            if |rest| == 1 { assert !CrlfAt(s, |s| - 2); }
          }
          Assoc(line + CRLF, JoinLines(Lines(rest)), if EndsWithCrlf(s) then CRLF else []);
          Assoc(line, CRLF, JoinLines(Lines(rest)));
        } else {
          assert s == line + CRLF;
        }
      }
    }
  }

  /** Conversely, lines written with CRLF between them are read back as they were. */
  lemma {:induction false} JoinedLinesSplit(lines: seq<Data>)
    requires lines != [] ==> lines[|lines| - 1] != []
    requires forall line :: line in lines ==> Unbroken(line)
    ensures Lines(JoinLines(lines)) == lines
  {
    if |lines| > 1 {
      var rest := JoinLines(lines[1..]);
      JoinedLinesSplit(lines[1..]);
      CrlfEndsLine(lines[0], rest);
    } else if |lines| == 1 {
      assert lines == [lines[0]] && Unbroken(lines[0]);
    }
  }

  lemma CrlfEndsLine(line: Data, rest: Data)
    requires Unbroken(line)
    ensures var s := line + (CRLF + rest);
      FirstCrlf(s, 0) == Some(|line|) && s[..|line|] == line && s[|line| + 2..] == rest
  {
    var s := line + (CRLF + rest);
    assert CrlfAt(s, |line|);
    forall i | 0 <= i < |line| ensures !CrlfAt(s, i) {
      assert i + 1 < |line| ==> CrlfAt(line, i) == CrlfAt(s, i);
    }
  }

  /** The lines of a framed head, the CRLFs between them and the closing CRLF CRLF are the head, byte for byte. */
  lemma HeadIsItsLines(whole: Data)
    requires Frame(whole).Head?
    ensures var end := Frame(whole).end;
      && whole[..end] == JoinLines(Lines(whole[..end - 4])) + (CRLF + CRLF)
      && forall line :: line in Lines(whole[..end - 4]) ==> Unbroken(line)
  {
    var end := Frame(whole).end;
    var head := whole[..end - 4];
    LinesRejoin(head);
    var earlier: int := end - 2;
    assert EndsWithCrlf(head) ==> EndsAt(whole, earlier);
    assert whole[..end] == head + (CRLF + CRLF);
    assert JoinLines(Lines(head)) + [] == JoinLines(Lines(head));
  }

  // ---- Serving what was read too far ----

  class Prefixed {
    const prefix: Data
    var pos: nat
    const inner: Inbound

    ghost predicate Valid()
      reads this, inner
    {
      pos <= |prefix| && inner.Valid()
    }

    /** Everything still to be served. */
    ghost function Left(): Data
      requires Valid()
      reads this, inner
    {
      prefix[pos..] + inner.Left()
    }

    constructor (prefix: Data, inner: Inbound)
      requires inner.Valid()
      ensures Valid() && this.prefix == prefix && this.inner == inner && pos == 0
      ensures Left() == prefix + inner.Left()
    {
      this.prefix, this.inner, pos := prefix, inner, 0;
    }

    /** Prefix bytes first, never mixed with the stream's; the end comes only from the stream. */
    method PollRead(max: nat) returns (chunk: Data)
      requires Valid()
      modifies this`pos, inner`pos
      ensures Valid() && |chunk| <= max
      ensures old(Left()) == chunk + Left()
      ensures chunk == [] <==> max == 0 || old(Left()) == []
      ensures old(pos) < |prefix| ==> inner.pos == old(inner.pos)
      ensures old(pos) == |prefix| ==> pos == old(pos)
    {
      var remaining := prefix[pos..];
      if remaining != [] {
        if max == 0 { return []; }
        var n := if |remaining| < max then |remaining| else max;
        pos := pos + n;
        assert remaining == remaining[..n] + prefix[pos..];
        Assoc(remaining[..n], prefix[pos..], inner.Left());
        return remaining[..n];
      }
      ghost var before := inner.Left();
      chunk := inner.Read(max);
      assert before == chunk + inner.Left();
      assert prefix[pos..] + before == before && prefix[pos..] + inner.Left() == inner.Left();
    }

    /** The unserved prefix and the stream. */
    method IntoParts() returns (unserved: Data, stream: Inbound)
      requires Valid()
      ensures unserved + inner.Left() == Left() && stream == inner
    {
      return prefix[pos..], inner;
    }
  }

  /** Read to the end in any chunk sizes. */
  method DrainAll(source: Prefixed, size: nat -> nat) returns (got: Data)
    requires source.Valid() && forall k :: size(k) > 0
    modifies source`pos, source.inner`pos
    ensures source.Valid() && got == old(source.Left()) && source.Left() == []
  {
    got := [];
    ghost var all := source.Left();
    var k := 0;
    while true
      invariant source.Valid() && got + source.Left() == all
      decreases |source.Left()|
    {
      ghost var left := source.Left();
      var chunk := source.PollRead(size(k));
      if chunk == [] { break; }
      Assoc(got, chunk, source.Left());
      got := got + chunk;
      k := k + 1;
    }
  }

  /**
   * The whole inbound path: frame the head, split off what was read too far,
   * serve it before the stream. Head and payload together are the client's
   * bytes, none lost, repeated or reordered.
   */
  method HeadThenPayload(stream: Inbound, first: byte, size: nat -> nat) returns (head: Data, payload: Data)
    requires stream.Valid() && forall k :: size(k) > 0
    requires Frame([first] + stream.Left()).Head?
    modifies stream`pos
    ensures head + payload == [first] + old(stream.Left())
    ensures |head| == Frame([first] + old(stream.Left())).end
  {
    ghost var start, whole := stream.pos, [first] + stream.Left();
    var framing, buf := ReadHead(stream, first);
    head := buf[..framing.end];
    var source := new Prefixed(buf[framing.end..], stream);
    SliceJoin(stream.bytes, start, stream.pos, |stream.bytes|);
    Assoc([first], stream.bytes[start..stream.pos], stream.bytes[stream.pos..]);
    assert whole == buf + stream.Left();
    assert buf == head + buf[framing.end..];
    Assoc(head, buf[framing.end..], stream.Left());
    payload := DrainAll(source, size);
  }
}
