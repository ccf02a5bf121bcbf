/**
 * What a client writes: a ClientHello with a `server_name` extension (section
 * 4.1.2 of RFC 8446, section 3 of RFC 6066). Every one of them, split into
 * records in any way, is read back to the host name it carries.
 */
module ClientHello {
  import opened Wrappers
  import opened Bytes
  import opened TlsRecords
  import opened RecoverHost

  function BigEndian16(n: nat): Data
    requires n < 0x1_0000
  {
    [(n / 256) as byte, (n % 256) as byte]
  }

  function BigEndian24(n: nat): Data
    requires n < 0x100_0000
  {
    [(n / 65536) as byte, (n / 256 % 256) as byte, (n % 256) as byte]
  }

  function Vec8(x: Data): Data
    requires |x| < 0x100
  {
    [|x| as byte] + x
  }

  function Vec16(x: Data): Data
    requires |x| < 0x1_0000
  {
    BigEndian16(|x|) + x
  }

  datatype Extension = Extension(kind: nat, body: Data)

  ghost predicate Encodable(e: Extension) {
    e.kind < 0x1_0000 && |e.body| < 0x1_0000
  }

  function ExtensionBytes(e: Extension): Data
    requires Encodable(e)
  {
    BigEndian16(e.kind) + Vec16(e.body)
  }

  function ExtensionsBytes(es: seq<Extension>): Data
    requires forall e :: e in es ==> Encodable(e)
  {
    if es == [] then [] else ExtensionBytes(es[0]) + ExtensionsBytes(es[1..])
  }

  datatype Hello = Hello(
    versionAndRandom: Data, sessionId: Data, cipherSuites: Data, compression: Data,
    before: seq<Extension>, host: Data, after: Data)

  function ServerNameBody(host: Data): Data
    requires |host| < 0x1_0000 - 5
  {
    Vec16([0] + Vec16(host))
  }

  function HelloExtensions(h: Hello): Data
    requires |h.host| < 0x1_0000 - 5 && forall e :: e in h.before ==> Encodable(e)
  {
    ExtensionsBytes(h.before) + (ExtensionBytes(Extension(0, ServerNameBody(h.host))) + h.after)
  }

  ghost predicate WellFormedHello(h: Hello) {
    && |h.versionAndRandom| == 34 && |h.sessionId| < 0x100 && |h.cipherSuites| < 0x1_0000
    && |h.compression| < 0x100
    && (forall e :: e in h.before ==> Encodable(e) && e.kind != 0)
    && h.host != [] && ValidUtf8(h.host) && |h.host| < 0x1_0000 - 5
    && |HelloExtensions(h)| < 0x1_0000
  }

  function Body(h: Hello): Data
    requires WellFormedHello(h)
  {
    h.versionAndRandom +
      (Vec8(h.sessionId) + (Vec16(h.cipherSuites) + (Vec8(h.compression) + Vec16(HelloExtensions(h)))))
  }

  function HelloMessage(h: Hello): Data
    requires WellFormedHello(h)
  {
    [1] + BigEndian24(|Body(h)|) + Body(h)
  }

  lemma SkipsVec8(a: Data, x: Data, rest: Data)
    requires |x| < 0x100
    ensures SkipVec(a + (Vec8(x) + rest), |a|, 1) == Some(|a + Vec8(x)|)
    ensures a + (Vec8(x) + rest) == (a + Vec8(x)) + rest
  {
    var buf := a + (Vec8(x) + rest);
    assert buf[|a|..|a| + 1] == [|x| as byte];
  }

  lemma SkipsVec16(a: Data, x: Data, rest: Data)
    requires |x| < 0x1_0000
    ensures SkipVec(a + (Vec16(x) + rest), |a|, 2) == Some(|a + Vec16(x)|)
    ensures a + (Vec16(x) + rest) == (a + Vec16(x)) + rest
  {
    var buf := a + (Vec16(x) + rest);
    assert buf[|a|..|a| + 2] == BigEndian16(|x|);
  }

  /** A vector that ends the buffer. */
  lemma LastVec16(a: Data, x: Data)
    requires |x| < 0x1_0000
    ensures var buf := a + Vec16(x);
      U16(buf[|a|..|a| + 2]) == |x| && buf[|a| + 2..|a| + 2 + |x|] == x && |buf| == |a| + 2 + |x|
  {
    var buf := a + Vec16(x);
    assert buf[|a|..|a| + 2] == BigEndian16(|x|);
    assert buf[|a| + 2..] == x;
  }

  lemma ExtensionsAt(hs: Data, sessionId: nat, cipherSuites: nat, compression: nat, exts: Data)
    requires |hs| >= 34 && SkipVec(hs, 34, 1) == Some(sessionId)
    requires SkipVec(hs, sessionId, 2) == Some(cipherSuites) && SkipVec(hs, cipherSuites, 1) == Some(compression)
    requires |hs| == compression + 2 + |exts|
    requires U16(hs[compression..compression + 2]) == |exts|
    requires hs[compression + 2..compression + 2 + |exts|] == exts
    ensures Extensions(hs) == Some(exts)
  {
  }

  lemma ExtensionsOfBody(h: Hello)
    requires WellFormedHello(h)
    ensures Extensions(Body(h)) == Some(HelloExtensions(h))
  {
    var exts := HelloExtensions(h);
    var a := h.versionAndRandom;
    var b := a + Vec8(h.sessionId);
    var c := b + Vec16(h.cipherSuites);
    var d := c + Vec8(h.compression);
    SkipsVec8(a, h.sessionId, Vec16(h.cipherSuites) + (Vec8(h.compression) + Vec16(exts)));
    SkipsVec16(b, h.cipherSuites, Vec8(h.compression) + Vec16(exts));
    SkipsVec8(c, h.compression, Vec16(exts));
    LastVec16(d, exts);
    ExtensionsAt(Body(h), |b|, |c|, |d|, exts);
  }

  lemma {:induction false} FindsServerName(before: seq<Extension>, body: Data, after: Data)
    requires forall e :: e in before ==> Encodable(e) && e.kind != 0
    requires |body| < 0x1_0000
    ensures FindServerName(ExtensionsBytes(before) + (ExtensionBytes(Extension(0, body)) + after)) == Some(body)
  {
    var rest := ExtensionBytes(Extension(0, body)) + after;
    if before == [] {
      assert ExtensionsBytes(before) + rest == rest;
      OneExtension(Extension(0, body), after);
    } else {
      var more := ExtensionsBytes(before[1..]) + rest;
      assert ExtensionsBytes(before) + rest == ExtensionBytes(before[0]) + more;
      OneExtension(before[0], more);
      FindsServerName(before[1..], body, after);
    }
  }

  lemma OneExtension(e: Extension, rest: Data)
    requires Encodable(e)
    ensures FindServerName(ExtensionBytes(e) + rest) == if e.kind == 0 then Some(e.body) else FindServerName(rest)
  {
    var data := ExtensionBytes(e) + rest;
    assert data[0..2] == BigEndian16(e.kind) && data[2..4] == BigEndian16(|e.body|);
    assert data[4..4 + |e.body|] == e.body && data[4 + |e.body|..] == rest;
  }

  lemma ReadsHostName(host: Data)
    requires host != [] && ValidUtf8(host) && |host| < 0x1_0000
    ensures FindHostName([0] + Vec16(host)) == Some(Lowercase(host))
  {
    LastVec16([0], host);
  }

  lemma ReadsServerName(host: Data)
    requires host != [] && ValidUtf8(host) && |host| < 0x1_0000 - 5
    ensures ServerName(ServerNameBody(host)) == Some(Lowercase(host))
  {
    var list := [0] + Vec16(host);
    LastVec16([], list);
    assert [] + Vec16(list) == ServerNameBody(host);
    ReadsHostName(host);
  }

  lemma ThreeParts(a: Data, b: Data, c: Data)
    ensures (a + b + c)[|a|..|a| + |b|] == b && (a + b + c)[|a| + |b|..] == c
  {
  }

  lemma Reads24(n: nat)
    requires n < 0x100_0000
    ensures U24(BigEndian24(n)) == n
  {
  }

  lemma ReadsBody(body: Data)
    requires |body| < 0x100_0000
    ensures var m := [CLIENT_HELLO] + BigEndian24(|body|) + body;
      WellFormed(m) && HelloBody(m) == Some(body)
  {
    var m := [CLIENT_HELLO] + BigEndian24(|body|) + body;
    ThreeParts([CLIENT_HELLO], BigEndian24(|body|), body);
    Reads24(|body|);
    assert m[1..4] == BigEndian24(|body|) && m[4..4 + |body|] == body;
  }

  lemma SniOfHello(h: Hello)
    requires WellFormedHello(h) && |Body(h)| < 0x100_0000
    ensures WellFormed(HelloMessage(h)) && SniOf(HelloMessage(h)) == Some(Lowercase(h.host))
  {
    ReadsBody(Body(h));
    ExtensionsOfBody(h);
    FindsServerName(h.before, ServerNameBody(h.host), h.after);
    ReadsServerName(h.host);
  }

  lemma BodyFits(h: Hello)
    requires WellFormedHello(h)
    ensures |Body(h)| < 0x100_0000
  {
  }

  /** Round trip: any ClientHello, in any records, followed by anything, yields its own host in lower case. */
  lemma HelloRoundTrip(h: Hello, minor: byte, parts: seq<Data>, later: Data, tail: Data)
    requires WellFormedHello(h) && Fragments(parts) && Concat(parts) == HelloMessage(h) + later
    ensures Sni(Frames(minor, parts) + tail) == Some(Lowercase(h.host))
  {
    BodyFits(h);
    SniOfHello(h);
    WholeMessage(minor, parts, HelloMessage(h), later, tail);
    var all := Frames(minor, parts) + tail;
    assert all[1] == Frame(minor, parts[0])[1] == 3;
  }

  /** Cut anywhere, such a stream is either already read correctly or still worth waiting for. */
  lemma {:induction false} HelloNeverMissed(h: Hello, minor: byte, parts: seq<Data>, later: Data, tail: Data, d: Data)
    requires WellFormedHello(h) && Fragments(parts) && Concat(parts) == HelloMessage(h) + later
    requires d <= Frames(minor, parts) + tail
    ensures Sni(d) == Some(Lowercase(h.host)) || (Sni(d).None? && MightContinue(d))
  {
    HelloRoundTrip(h, minor, parts, later, tail);
    NeverDecidedButMissed(Frames(minor, parts) + tail, d);
  }
}
