/** Requests with a `Host` line, and the host read back from them. */
module HttpRequests {
  import opened Wrappers
  import opened Bytes
  import opened InboundHttp
  import opened HostPorts
  import opened HttpHosts
  import opened Utf8Prefix

  /** A request line, header lines before the `Host` line, and the parts of that line. */
  datatype Request = Request(line: Data, before: seq<Data>, field: Data, front: Data, name: Data, port: Option<Data>,
                             back: Data)

  function Authority(r: Request): Data {
    if r.port.Some? then r.name + [COLON] + r.port.value else r.name
  }

  function FieldValue(r: Request): Data {
    r.front + (Authority(r) + r.back)
  }

  function HostLine(r: Request): Data {
    r.field + [COLON] + FieldValue(r)
  }

  function HeaderLines(lines: seq<Data>, rest: Data): Data {
    if lines == [] then rest else lines[0] + (CRLF + HeaderLines(lines[1..], rest))
  }

  /** The request as bytes; `after` is what follows the `Host` line. */
  function Encode(r: Request, after: Data): Data {
    r.line + (CRLF + HeaderLines(r.before, HostLine(r) + (CRLF + after)))
  }

  /** A header line that is not the `Host` line, nor empty. */
  ghost predicate IsOther(line: Data) {
    line != [] && Unbroken(line) && HostValue(line).None?
  }

  /** Nothing but white space, from either end. */
  predicate Blank(s: Data) {
    TrimStart(s) == [] && TrimEnd(s) == []
  }

  predicate Trimmed(s: Data) {
    TrimStart(s) == s && TrimEnd(s) == s
  }

  /** Without a port the name must not end in what reads as one. */
  ghost predicate WellFormed(r: Request) {
    && Unbroken(r.line) && IsRequestLine(r.line)
    && (forall i :: 0 <= i < |r.before| ==> IsOther(r.before[i]))
    && COLON !in r.field && IsHostName(r.field) && Unbroken(HostLine(r))
    && Blank(r.front) && Blank(r.back)
    && r.name != [] && ValidUtf8(r.name) && Trimmed(r.name)
    && if r.port.Some? then Digits(r.port.value) else !EndsInPort(r.name)
  }

  // ---- White space around a value ----

  lemma {:induction false} BlankIsText(s: Data)
    requires TrimStart(s) == []
    ensures ValidUtf8(s)
  {
    if s != [] { BlankIsText(s[ScalarLength(s)..]); }
  }

  lemma {:induction false} TrimFront(front: Data, text: Data)
    requires TrimStart(front) == []
    ensures TrimStart(front + text) == TrimStart(text)
  {
    if front == [] {
      assert front + text == text;
    } else {
      var n := ScalarLength(front);
      ScalarPrefix(front, front + text);
      assert (front + text)[..n] == front[..n];
      assert (front + text)[n..] == front[n..] + text;
      TrimFront(front[n..], text);
    }
  }

  lemma DropEnd(text: Data, back: Data, n: nat)
    requires n <= |back|
    ensures (text + back)[..|text + back| - n] == text + back[..|back| - n]
  {
  }

  lemma SameLastSpace(text: Data, back: Data)
    requires LastSpace(back) > 0
    ensures LastSpace(text + back) == LastSpace(back)
  {
    var all, k, n := text + back, |text + back|, |back|;
    assert all[k - 1] == back[n - 1];
    assert n >= 2 ==> all[k - 2] == back[n - 2];
    assert n >= 3 ==> all[k - 3] == back[n - 3];
  }

  lemma TrimStep(text: Data, back: Data) returns (front: Data)
    requires LastSpace(back) > 0
    ensures |front| < |back| && TrimEnd(back) == TrimEnd(front) && TrimEnd(text + back) == TrimEnd(text + front)
  {
    var n := LastSpace(back);
    front := back[..|back| - n];
    SameLastSpace(text, back);
    DropEnd(text, back, n);
  }

  lemma {:induction false} TrimBack(text: Data, back: Data)
    requires TrimEnd(back) == []
    ensures TrimEnd(text + back) == TrimEnd(text)
    decreases |back|
  {
    if back == [] {
      assert text + back == text;
    } else {
      var front := TrimStep(text, back);
      TrimBack(text, front);
    }
  }

  /** The first scalar of a trimmed name stops the trimming whatever follows. */
  lemma NameStops(name: Data, more: Data)
    requires name != [] && ValidUtf8(name) && TrimStart(name) == name
    ensures TrimStart(name + more) == name + more
  {
    var n := ScalarLength(name);
    ScalarPrefix(name, name + more);
    assert (name + more)[..n] == name[..n];
    if IsSpace(name[..n]) { TrimShortens(name[n..]); }
  }

  lemma {:induction false} TrimShortens(s: Data)
    ensures |TrimStart(s)| <= |s|
  {
    var n := ScalarLength(s);
    if n > 0 && IsSpace(s[..n]) { TrimShortens(s[n..]); }
  }

  // ---- The host of a request ----

  lemma PortIsText(name: Data, digits: Data)
    requires ValidUtf8(name) && Digits(digits)
    ensures ValidUtf8(name + [COLON] + digits)
  {
    AsciiIsUtf8([COLON] + digits);
    Utf8Append(name, [COLON] + digits);
    assert name + [COLON] + digits == name + ([COLON] + digits);
  }

  lemma PortIsDropped(name: Data, digits: Data)
    requires name != [] && Digits(digits)
    ensures WithoutPort(name + [COLON] + digits) == name
  {
    LastIndexIs(name, COLON, digits);
    var text := name + [COLON] + digits;
    assert text[|name| + 1..] == digits && text[..|name|] == name;
  }

  lemma AuthorityIsText(r: Request)
    requires WellFormed(r)
    ensures ValidUtf8(Authority(r)) && TrimEnd(Authority(r)) == Authority(r)
    ensures WithoutPort(Authority(r)) == r.name
  {
    PortIsDigits(r.name);
    if r.port.Some? {
      PortIsText(r.name, r.port.value);
      TrimEndKeeps(Authority(r));
      PortIsDropped(r.name, r.port.value);
    }
  }

  lemma AuthorityStops(r: Request)
    requires WellFormed(r)
    ensures TrimStart(Authority(r) + r.back) == Authority(r) + r.back
  {
    if r.port.None? {
      NameStops(r.name, r.back);
    } else {
      var tail := [COLON] + r.port.value + r.back;
      assert Authority(r) + r.back == r.name + tail;
      NameStops(r.name, tail);
    }
  }

  lemma ValueIsText(r: Request)
    requires WellFormed(r)
    ensures ValidUtf8(FieldValue(r))
  {
    AuthorityIsText(r);
    BlankIsText(r.front);
    BlankIsText(r.back);
    Utf8Append(Authority(r), r.back);
    Utf8Append(r.front, Authority(r) + r.back);
  }

  lemma HostOfValue(r: Request)
    requires WellFormed(r)
    ensures HostOf(FieldValue(r)) == Some(Lowercase(r.name))
  {
    ValueIsText(r);
    AuthorityIsText(r);
    TrimFront(r.front, Authority(r) + r.back);
    AuthorityStops(r);
    TrimBack(Authority(r), r.back);
  }

  lemma HostLineHasValue(r: Request)
    requires WellFormed(r)
    ensures HostLine(r) != [] && HostValue(HostLine(r)) == Some(FieldValue(r))
  {
    FirstIndexIs(r.field, COLON, FieldValue(r));
    assert HostLine(r)[..|r.field|] == r.field;
    assert HostLine(r)[|r.field| + 1..] == FieldValue(r);
  }

  lemma {:induction false} OthersAreSkipped(lines: seq<Data>, rest: Data)
    requires forall i :: 0 <= i < |lines| ==> IsOther(lines[i])
    ensures ScanHeaders(HeaderLines(lines, rest)) == ScanHeaders(rest)
  {
    if lines != [] {
      ScanLine(lines[0], HeaderLines(lines[1..], rest));
      OthersAreSkipped(lines[1..], rest);
    }
  }

  /** The host of a request is its name in lower case, whatever the other lines, the port, the padding and the rest. */
  lemma HostRoundTrip(r: Request, after: Data)
    requires WellFormed(r)
    ensures ScanRequest(Encode(r, after)) == Found(Some(Lowercase(r.name)))
    ensures HttpHost(Encode(r, after)) == Some(Lowercase(r.name))
  {
    var rest := HostLine(r) + (CRLF + after);
    ScanRequestLine(r.line, HeaderLines(r.before, rest));
    OthersAreSkipped(r.before, rest);
    HostLineHasValue(r);
    ScanLine(HostLine(r), after);
    HostOfValue(r);
  }

  // ---- Its prefixes ----

  lemma {:induction false} LinesAppend(lines: seq<Data>, rest: Data, after: Data)
    ensures HeaderLines(lines, rest + after) == HeaderLines(lines, rest) + after
  {
    if lines != [] {
      LinesAppend(lines[1..], rest, after);
      Assoc(CRLF, HeaderLines(lines[1..], rest), after);
      Assoc(lines[0], CRLF + HeaderLines(lines[1..], rest), after);
    }
  }

  lemma EncodeAppend(r: Request, after: Data)
    ensures Encode(r, after) == Encode(r, []) + after
  {
    var host := HostLine(r) + (CRLF + []);
    assert HostLine(r) + (CRLF + after) == host + after;
    LinesAppend(r.before, host, after);
    Assoc(CRLF, HeaderLines(r.before, host), after);
    Assoc(r.line, CRLF + HeaderLines(r.before, host), after);
  }

  lemma HeadIsDecided(r: Request)
    requires WellFormed(r)
    ensures Decided(Encode(r, [])) && HttpHost(Encode(r, [])) == Some(Lowercase(r.name))
  {
    HostRoundTrip(r, []);
  }

  lemma PrefixOf(head: Data, data: Data, after: Data, more: Data)
    requires head + after == data + more && |data| < |head|
    ensures data <= head
  {
    assert forall i :: 0 <= i < |data| ==> data[i] == (data + more)[i] == head[i];
  }

  lemma StartsWithHead(head: Data, data: Data, after: Data, more: Data)
    requires head + after == data + more && |head| <= |data|
    ensures data == head + data[|head|..]
  {
    assert (data + more)[..|head|] == head;
  }

  /** However the request is cut, what arrived has the host or is not decided. */
  lemma RequestNeverMissed(r: Request, after: Data, data: Data, more: Data)
    requires WellFormed(r) && Encode(r, after) == data + more
    ensures HttpHost(data) == Some(Lowercase(r.name)) || !Decided(data)
  {
    HostRoundTrip(r, after);
    if Decided(data) { DecidedIsFinal(data, more); }
  }

  /** If the head up to the `Host` line is tame, the probe asks for more until the host is there. */
  lemma ProbeNeverMisses(r: Request, after: Data, data: Data, more: Data)
    requires WellFormed(r) && Encode(r, after) == data + more && Tame(Encode(r, []))
    ensures HttpHost(data) == Some(Lowercase(r.name)) || MightAppear(data)
  {
    var head := Encode(r, []);
    EncodeAppend(r, after);
    if |head| <= |data| {
      HeadIsDecided(r);
      StartsWithHead(head, data, after, more);
      DecidedIsFinal(head, data[|head|..]);
    } else {
      RequestNeverMissed(r, after, data, more);
      PrefixOf(head, data, after, more);
      TamePrefix(data, head);
      if !MightAppear(data) { TameNoIsFinal(data); }
    }
  }
}
