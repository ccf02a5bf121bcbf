/**
 * Recovering the host name a TLS client asks for: the `server_name` parser
 * (section 3 of RFC 6066), the "could more bytes change this?" probe, and the
 * loop that reads until one of them decides.
 */
module RecoverHost {
  import opened Wrappers
  import opened Bytes
  import opened Streams
  import opened TlsRecords
  import opened HttpHosts

  // ---- The parser ----

  function Skip(buf: Data, p: nat, n: nat): Option<nat> {
    if p + n <= |buf| then Some(p + n) else None
  }

  /** Past a vector whose length field is `width` (1 or 2) bytes wide. */
  function SkipVec(buf: Data, p: nat, width: nat): Option<nat> {
    var len :- Get(buf, p, p + width);
    if width == 1 then Skip(buf, p + 1, len[0] as nat)
    else if width == 2 then Skip(buf, p + 2, U16(len))
    else None
  }

  /** The ClientHello body inside a handshake message, clipped to what is there. */
  function HelloBody(message: Data): Option<Data> {
    if |message| < 4 || message[0] != CLIENT_HELLO then None
    else
      var body := Get(message, 4, 4 + U24(message[1..4]));
      if body.Some? then body else Some(message[4..])
  }

  /** The extensions present in a ClientHello body. */
  function Extensions(hs: Data): Option<Data> {
    var version :- Skip(hs, 0, 2);
    var random :- Skip(hs, version, 32);
    var sessionId :- SkipVec(hs, random, 1);
    var cipherSuites :- SkipVec(hs, sessionId, 2);
    var compression :- SkipVec(hs, cipherSuites, 1);
    var total :- Get(hs, compression, compression + 2);
    var start := compression + 2;
    var end := start + U16(total);
    Some(hs[start..if end <= |hs| then end else |hs|])
  }

  /** The body of the first `server_name` extension. */
  function FindServerName(extensions: Data): Option<Data> {
    if |extensions| < 4 then None
    else
      var end := 4 + U16(extensions[2..4]);
      var data :- Get(extensions, 4, end);
      if U16(extensions[0..2]) == 0 then Some(data) else FindServerName(extensions[end..])
  }

  /** The first entry of type `host_name`; a malformed or empty one ends the search. */
  function FindHostName(list: Data): Option<Data> {
    if |list| < 3 then None
    else
      var end := 3 + U16(list[1..3]);
      var name :- Get(list, 3, end);
      if list[0] == 0 then
        if ValidUtf8(name) && name != [] then Some(Lowercase(name)) else None
      else FindHostName(list[end..])
  }

  function ServerName(extension: Data): Option<Data> {
    var len :- Get(extension, 0, 2);
    var list :- Get(extension, 2, 2 + U16(len));
    FindHostName(list)
  }

  function SniOf(message: Data): Option<Data> {
    var hs :- HelloBody(message);
    var extensions :- Extensions(hs);
    var data :- FindServerName(extensions);
    ServerName(data)
  }

  /** What `ParseSni` answers. */
  function Sni(data: Data): Option<Data> {
    if |data| < 5 || data[0] != HANDSHAKE || data[1] != 3 then None else SniOf(Message(Stream(data)))
  }

  method ParseServerNameExt(data: Data) returns (name: Option<Data>)
    ensures name == ServerName(data)
  {
    if |data| < 2 { return None; }
    var list := Get(data, 2, 2 + U16(data[0..2]));
    if list.None? { return None; }
    var rest := list.value;
    while 3 <= |rest|
      invariant FindHostName(list.value) == FindHostName(rest)
      decreases |rest|
    {
      var end := 3 + U16(rest[1..3]);
      var host := Get(rest, 3, end);
      if host.None? { return None; }
      if rest[0] == 0 {
        if !ValidUtf8(host.value) || host.value == [] { return None; }
        return Some(Lowercase(host.value));
      }
      rest := rest[end..];
    }
    return None;
  }

  method ParseSni(data: Data) returns (name: Option<Data>)
    ensures name == Sni(data)
  {
    if |data| < 5 || data[0] != HANDSHAKE || data[1] != 3 { return None; }
    var assembled := AssembleHandshakeMessage(data);
    var hs := HelloBody(assembled.value.message);
    if hs.None? { return None; }
    var extensions := Extensions(hs.value);
    if extensions.None? { return None; }
    var rest := extensions.value;
    while 4 <= |rest|
      invariant FindServerName(extensions.value) == FindServerName(rest)
      decreases |rest|
    {
      var end := 4 + U16(rest[2..4]);
      var data := Get(rest, 4, end);
      if data.None? { return None; }
      if U16(rest[0..2]) == 0 {
        name := ParseServerNameExt(data.value);
        return;
      }
      rest := rest[end..];
    }
    return None;
  }

  // ---- A name once found stays found ----

  lemma SkipVecGrows(a: Data, b: Data, p: nat, width: nat)
    requires a <= b && SkipVec(a, p, width).Some?
    ensures SkipVec(b, p, width) == SkipVec(a, p, width)
  {
    assert a[p..p + width] == b[p..p + width];
  }

  lemma ExtensionsGrow(a: Data, b: Data)
    requires a <= b && Extensions(a).Some?
    ensures Extensions(b).Some? && Extensions(a).value <= Extensions(b).value
  {
    var sessionId := SkipVec(a, 34, 1).value;
    var cipherSuites := SkipVec(a, sessionId, 2).value;
    var compression := SkipVec(a, cipherSuites, 1).value;
    SkipVecGrows(a, b, 34, 1);
    SkipVecGrows(a, b, sessionId, 2);
    SkipVecGrows(a, b, cipherSuites, 1);
    assert a[compression..compression + 2] == b[compression..compression + 2];
    var start := compression + 2;
    var end := start + U16(a[compression..start]);
    SlicePrefix(a, b, start, if end <= |a| then end else |a|, if end <= |b| then end else |b|);
  }

  lemma SlicePrefix(a: Data, b: Data, start: nat, m: nat, n: nat)
    requires a <= b && start <= m <= |a| && m <= n <= |b|
    ensures a[start..m] <= b[start..n]
  {
    assert a[start..m] == b[start..m] == b[start..n][..m - start];
  }

  lemma {:induction false} FindServerNameGrows(a: Data, b: Data)
    requires a <= b && FindServerName(a).Some?
    ensures FindServerName(b) == FindServerName(a)
    decreases |a|
  {
    var end := 4 + U16(a[2..4]);
    assert a[2..4] == b[2..4] && a[0..2] == b[0..2] && a[4..end] == b[4..end];
    if U16(a[0..2]) != 0 { FindServerNameGrows(a[end..], b[end..]); }
  }

  lemma SniOfGrows(a: Data, b: Data)
    requires a <= b && SniOf(a).Some?
    requires |b| >= 4 ==> |b| <= Declared(b)
    ensures SniOf(b) == SniOf(a)
  {
    assert a[1..4] == b[1..4];
    var hsA, hsB := HelloBody(a).value, HelloBody(b).value;
    assert hsA == a[4..] && hsB == b[4..];
    ExtensionsGrow(hsA, hsB);
    FindServerNameGrows(Extensions(hsA).value, Extensions(hsB).value);
  }

  lemma MessageWithin(stream: Data)
    ensures var m := Message(stream); |m| >= 4 ==> |m| <= Declared(m)
  {
    var m := Message(stream);
    if |m| >= 4 { DeclaredGrows(m, stream); }
  }

  /** Once a name is found, no further bytes change it. */
  lemma {:induction false} SniIsStable(d: Data, whole: Data)
    requires d <= whole && Sni(d).Some?
    ensures Sni(whole) == Sni(d)
  {
    StreamGrows(d, whole[|d|..]);
    assert d + whole[|d|..] == whole;
    MessageGrows(Stream(d), Stream(whole));
    MessageWithin(Stream(whole));
    SniOfGrows(Message(Stream(d)), Message(Stream(whole)));
  }

  /** When the probe says no, the answer is final, whether it is a name or none. */
  lemma {:induction false} SniIsFinal(d: Data, whole: Data)
    requires d <= whole && !MightContinue(d)
    ensures Sni(whole) == Sni(d)
  {
    StreamGrows(d, whole[|d|..]);
    assert d + whole[|d|..] == whole;
    if StartsHandshake(d) && d[1] == 3 {
      MessageGrows(Stream(d), Stream(whole));
      if !Complete(Stream(d)) && (Rest(d) == [] || Rest(d)[0] == HANDSHAKE) {
        assert Stream(d)[0] != CLIENT_HELLO && Stream(whole)[0] == Stream(d)[0];
      }
    }
  }

  /** No prefix of a stream that carries a name is ever decided without it. */
  lemma {:induction false} NeverDecidedButMissed(whole: Data, d: Data)
    requires Sni(whole).Some? && d <= whole
    ensures Sni(d) == Sni(whole) || (Sni(d).None? && MightContinue(d))
  {
    if Sni(d).Some? { SniIsStable(d, whole); }
    else if !MightContinue(d) { SniIsFinal(d, whole); }
  }

  // ---- The reading loop ----

  const PEEK_MAX: nat := 16384

  function Limited(data: Data, limit: nat): Data {
    if |data| <= limit then data else data[..limit]
  }

  /**
   * Read until a name is found, neither parser can still find one, or enough
   * has been read. Whatever the chunking, no byte is lost and the answers are
   * those of everything within the limit, up to the limits of the HTTP probe.
   */
  method ReadRecoveryPrefix(client: Inbound, seed: Data) returns (r: Option<Data>)
    requires client.Valid()
    modifies client`pos
    ensures client.Valid() && client.pos >= old(client.pos)
    ensures var buf := if r.Some? then r.value else [];
      && buf == seed + client.bytes[old(client.pos)..client.pos]
      && (r.None? <==> buf == [])
      && Answered(buf, Within(seed, client.bytes[old(client.pos)..]))
  {
    var buf := seed;
    ghost var start, rest := client.pos, client.bytes[client.pos..];
    while true
      invariant client.Valid() && start <= client.pos
      invariant buf == seed + client.bytes[start..client.pos]
      invariant |buf| <= |Within(seed, rest)|
      decreases |client.bytes| - client.pos
    {
      PrefixOfWithin(seed, client.bytes, start, client.pos);
      var name := ParseSni(buf);
      var host := ParseHttpHost(buf);
      var open := ClientHelloMightContinue(buf);
      var httpOpen := HttpHostMightStillAppear(buf);
      if name.Some? || host.Some? || (!open && !httpOpen) || |buf| >= PEEK_MAX {
        StoppingAnswers(buf, Within(seed, rest));
        return if buf == [] then None else Some(buf);
      }
      var remaining := if PEEK_MAX - |buf| < 4096 then PEEK_MAX - |buf| else 4096;
      ghost var before := client.pos;
      var chunk := client.Read(remaining);
      if chunk == [] {
        StoppingAnswers(buf, Within(seed, rest));
        return if buf == [] then None else Some(buf);
      }
      SliceJoin(client.bytes, start, before, client.pos);
      Assoc(seed, client.bytes[start..before], chunk);
      buf := buf + chunk;
    }
  }

  /** The bytes the loop may look at: the seed and what follows, up to 16384 in all. */
  function Within(seed: Data, rest: Data): Data {
    Limited(seed + rest, if |seed| > 16384 then |seed| else 16384)
  }

  /**
   * `buf` gives the server name that all of `within` would, unless an HTTP host
   * came first; and that HTTP host, unless a server name came first or the
   * data is of the kind on which the HTTP probe gives up too early.
   */
  ghost predicate Answered(buf: Data, within: Data) {
    && buf <= within
    && (HttpHost(buf).None? ==> Sni(buf) == Sni(within))
    && (HttpHost(buf).Some? || (Sni(buf).None? && Tame(within)) ==> HttpHost(buf) == HttpHost(within))
  }

  lemma PrefixOfWithin(seed: Data, bytes: Data, start: nat, pos: nat)
    requires start <= pos <= |bytes| && |seed| + pos - start <= |Within(seed, bytes[start..])|
    ensures seed + bytes[start..pos] <= Within(seed, bytes[start..])
  {
    SliceJoin(bytes, start, pos, |bytes|);
    assert bytes[start..] == bytes[start..pos] + bytes[pos..];
    Assoc(seed, bytes[start..pos], bytes[pos..]);
  }

  lemma FinalFrom(buf: Data, within: Data)
    requires buf <= within && Decided(buf)
    ensures HttpHost(within) == HttpHost(buf)
  {
    DecidedIsFinal(buf, within[|buf|..]);
    assert within == buf + within[|buf|..];
  }

  lemma StoppingAnswers(buf: Data, within: Data)
    requires buf <= within
    requires HttpHost(buf).Some? || Sni(buf).Some? || (!MightContinue(buf) && !MightAppear(buf)) || |buf| == |within|
    ensures Answered(buf, within)
  {
    if |buf| == |within| {
      assert buf == within;
    } else {
      if HttpHost(buf).Some? { FinalFrom(buf, within); }
      else if Sni(buf).Some? { SniIsStable(buf, within); }
      else {
        SniIsFinal(buf, within);
        if Tame(within) {
          TamePrefix(buf, within);
          TameNoIsFinal(buf);
          FinalFrom(buf, within);
        }
      }
    }
  }
}
