/**
 * The `Host` header of an HTTP/1 request prefix, the probe that asks whether
 * more bytes could still bring one, and exactly when its "no" can be trusted.
 */
module HttpHosts {
  import opened Wrappers
  import opened Bytes
  import opened InboundHttp
  import opened HeaderEnd
  import opened HostPorts
  import opened Utf8Prefix

  // ---- One header value ----

  predicate AsciiSpace(b: byte) {
    b == 9 || b == 10 || b == 12 || b == 13 || b == 32
  }

  function TrimAsciiStart(s: Data): Data {
    if s != [] && AsciiSpace(s[0]) then TrimAsciiStart(s[1..]) else s
  }

  function TrimAsciiEnd(s: Data): Data {
    if s != [] && AsciiSpace(s[|s| - 1]) then TrimAsciiEnd(s[..|s| - 1]) else s
  }

  const HOST: Data := [104, 111, 115, 116]

  predicate IsHostName(name: Data) {
    Lowercase(TrimAsciiEnd(TrimAsciiStart(name))) == HOST
  }

  /** ASCII white space only. */
  predicate AsciiBlank(s: Data) {
    forall i :: 0 <= i < |s| ==> s[i] == 9 || s[i] == 10 || s[i] == 12 || s[i] == 13 || s[i] == 32
  }

  /** The four letters of `host`, each in either case. */
  predicate SpellsHost(w: Data) {
    && |w| == 4 && (w[0] == 72 || w[0] == 104) && (w[1] == 79 || w[1] == 111)
    && (w[2] == 83 || w[2] == 115) && (w[3] == 84 || w[3] == 116)
  }

  ghost predicate HostNameParts(name: Data, front: Data, word: Data, back: Data) {
    name == front + word + back && AsciiBlank(front) && SpellsHost(word) && AsciiBlank(back)
  }

  lemma {:induction false} AsciiStart(s: Data) returns (front: Data)
    ensures s == front + TrimAsciiStart(s) && AsciiBlank(front)
  {
    front := [];
    if s != [] && AsciiSpace(s[0]) {
      var more := AsciiStart(s[1..]);
      front := [s[0]] + more;
      assert s == [s[0]] + s[1..];
    }
  }

  lemma {:induction false} AsciiEnd(s: Data) returns (back: Data)
    ensures s == TrimAsciiEnd(s) + back && AsciiBlank(back)
  {
    back := [];
    if s != [] && AsciiSpace(s[|s| - 1]) {
      var more := AsciiEnd(s[..|s| - 1]);
      back := more + [s[|s| - 1]];
      assert s == s[..|s| - 1] + [s[|s| - 1]];
    }
  }

  lemma {:induction false} NoAsciiStart(front: Data, text: Data)
    requires AsciiBlank(front) && text != [] && !AsciiSpace(text[0])
    ensures TrimAsciiStart(front + text) == text
  {
    if front == [] {
      assert front + text == text;
    } else {
      assert (front + text)[1..] == front[1..] + text;
      NoAsciiStart(front[1..], text);
    }
  }

  lemma {:induction false} NoAsciiEnd(text: Data, back: Data)
    requires text != [] && !AsciiSpace(text[|text| - 1]) && AsciiBlank(back)
    ensures TrimAsciiEnd(text + back) == text
  {
    var n := |back|;
    if n == 0 {
      assert text + back == text;
    } else {
      assert (text + back)[..|text + back| - 1] == text + back[..n - 1];
      NoAsciiEnd(text, back[..n - 1]);
    }
  }

  lemma SpellsHostExactly(w: Data)
    ensures Lowercase(w) == HOST <==> SpellsHost(w)
  {
    if Lowercase(w) == HOST {
      assert |w| == 4;
      assert forall i :: 0 <= i < 4 ==> LowerByte(w[i]) == HOST[i];
    }
  }

  lemma PartsAreHostName(name: Data, front: Data, word: Data, back: Data)
    requires HostNameParts(name, front, word, back)
    ensures IsHostName(name)
  {
    assert name == front + (word + back);
    NoAsciiStart(front, word + back);
    NoAsciiEnd(word, back);
    SpellsHostExactly(word);
  }

  /** The name of a `Host` line: those letters, with ASCII white space around them. */
  lemma HostNameExactly(name: Data)
    ensures IsHostName(name) <==> exists front, word, back :: HostNameParts(name, front, word, back)
  {
    var trimmed := TrimAsciiStart(name);
    var word := TrimAsciiEnd(trimmed);
    SpellsHostExactly(word);
    if IsHostName(name) {
      var front := AsciiStart(name);
      var back := AsciiEnd(trimmed);
      assert name == front + word + back;
      assert HostNameParts(name, front, word, back);
    }
    forall front, w, back | HostNameParts(name, front, w, back) ensures IsHostName(name) {
      PartsAreHostName(name, front, w, back);
    }
  }

  // The white-space scalars of one, two and three bytes.

  predicate Space1(a: byte) {
    9 <= a <= 13 || a == 32
  }

  predicate Space2(a: byte, b: byte) {
    a == 0xC2 && (b == 0x85 || b == 0xA0)
  }

  predicate Space3(a: byte, b: byte, c: byte) {
    || (a == 0xE1 && b == 0x9A && c == 0x80)
    || (a == 0xE2 && b == 0x80 && (0x80 <= c <= 0x8A || c == 0xA8 || c == 0xA9 || c == 0xAF))
    || (a == 0xE2 && b == 0x81 && c == 0x9F)
    || (a == 0xE3 && b == 0x80 && c == 0x80)
  }

  predicate IsSpace(c: Data) {
    (|c| == 1 && Space1(c[0])) || (|c| == 2 && Space2(c[0], c[1])) || (|c| == 3 && Space3(c[0], c[1], c[2]))
  }

  function TrimStart(s: Data): Data {
    var n := ScalarLength(s);
    if n > 0 && IsSpace(s[..n]) then TrimStart(s[n..]) else s
  }

  /** The length of the white-space scalar at the end, 0 when there is none. */
  function LastSpace(s: Data): (n: nat)
    ensures n <= |s|
  {
    var k := |s|;
    if k >= 1 && Space1(s[k - 1]) then 1
    else if k >= 2 && Space2(s[k - 2], s[k - 1]) then 2
    else if k >= 3 && Space3(s[k - 3], s[k - 2], s[k - 1]) then 3
    else 0
  }

  function TrimEnd(s: Data): Data {
    var n := LastSpace(s);
    if n > 0 then TrimEnd(s[..|s| - n]) else s
  }

  function WithoutPort(value: Data): Data {
    var colon := LastIndex(value, COLON);
    if colon.Some? && colon.value > 0 && Digits(value[colon.value + 1..]) then value[..colon.value] else value
  }

  /** A colon at `i`, not the first byte, with nothing but digits behind it. */
  predicate PortAfter(value: Data, i: nat) {
    0 < i < |value| && value[i] == 58 && forall j :: i < j < |value| ==> 48 <= value[j] <= 57
  }

  ghost predicate EndsInPort(value: Data) {
    exists i :: PortAfter(value, i)
  }

  lemma DigitsBehind(value: Data, i: nat)
    requires PortAfter(value, i)
    ensures Digits(value[i + 1..]) && value == value[..i] + [COLON] + value[i + 1..] && COLON !in value[i + 1..]
  {
    var digits := value[i + 1..];
    assert forall j :: 0 <= j < |digits| ==> digits[j] == value[i + 1 + j];
  }

  lemma PortIsLast(value: Data, i: nat)
    requires PortAfter(value, i)
    ensures LastIndex(value, COLON) == Some(i) && Digits(value[i + 1..])
  {
    DigitsBehind(value, i);
    LastIndexIs(value[..i], COLON, value[i + 1..]);
  }

  lemma LastIsPort(value: Data, i: nat)
    requires 0 < i < |value| && value[i] == COLON && Digits(value[i + 1..])
    ensures PortAfter(value, i)
  {
    var digits := value[i + 1..];
    assert forall j :: i < j < |value| ==> value[j] == digits[j - i - 1];
  }

  lemma PortIsDigits(value: Data)
    ensures WithoutPort(value) == value <==> !EndsInPort(value)
  {
    if i :| PortAfter(value, i) {
      PortIsLast(value, i);
      assert |WithoutPort(value)| == i;
    }
    if WithoutPort(value) != value { LastIsPort(value, LastIndex(value, COLON).value); }
  }

  /** The host in a header value, `None` when it is not UTF-8 or blank. */
  function HostOf(value: Data): Option<Data> {
    if !ValidUtf8(value) then None
    else
      var trimmed := TrimEnd(TrimStart(value));
      if trimmed == [] then None else Some(Lowercase(WithoutPort(trimmed)))
  }

  // ---- The parser ----

  /** The value part of a `Host` line. */
  function HostValue(line: Data): Option<Data> {
    var colon :- FirstIndex(line, COLON);
    if IsHostName(line[..colon]) then Some(line[colon + 1..]) else None
  }

  /** How a scan ends: at a `Host` line, at the end of the headers or of HTTP, or for want of bytes. */
  datatype Scan = Found(host: Option<Data>) | Over | Open

  function ScanHeaders(headers: Data): Scan {
    var end := FirstCrlf(headers, 0);
    if end.None? then Open
    else
      var line := headers[..end.value];
      if line == [] then Over
      else
        var value := HostValue(line);
        if value.Some? then Found(HostOf(value.value)) else ScanHeaders(headers[end.value + 2..])
  }

  const HTTP_1: Data := [32, 72, 84, 84, 80, 47, 49, 46]

  /** Ends in ` HTTP/1.0` or ` HTTP/1.1`. */
  predicate IsRequestLine(line: Data) {
    var n := |line|;
    n >= 9 && line[n - 9..n - 1] == HTTP_1 && (line[n - 1] == 48 || line[n - 1] == 49)
  }

  /** `target`, a space, `HTTP/1.`, and the minor version. */
  ghost predicate VersionedLine(line: Data, target: Data, minor: byte) {
    line == target + [32, 72, 84, 84, 80, 47, 49, 46, minor]
  }

  ghost predicate Versioned(line: Data) {
    exists target, minor :: VersionedLine(line, target, minor) && (minor == 48 || minor == 49)
  }

  lemma RequestLineExactly(line: Data)
    ensures IsRequestLine(line) <==> Versioned(line)
  {
    var n := |line|;
    if IsRequestLine(line) {
      assert line[n - 9..] == line[n - 9..n - 1] + [line[n - 1]];
      assert VersionedLine(line, line[..n - 9], line[n - 1]);
    }
    forall target, minor | VersionedLine(line, target, minor) ensures line[n - 9..n - 1] == HTTP_1 {
      assert line[n - 9..] == [32, 72, 84, 84, 80, 47, 49, 46, minor];
      assert line[n - 9..n - 1] == line[n - 9..][..8];
    }
  }

  function ScanRequest(data: Data): Scan {
    var end := FirstCrlf(data, 0);
    if end.None? then Open
    else if !IsRequestLine(data[..end.value]) then Over
    else ScanHeaders(data[end.value + 2..])
  }

  /** What `ParseHttpHost` answers. */
  function HttpHost(data: Data): Option<Data> {
    var scan := ScanRequest(data);
    if scan.Found? then scan.host else None
  }

  method ParseHttpHost(data: Data) returns (host: Option<Data>)
    ensures host == HttpHost(data)
  {
    var end := FirstCrlf(data, 0);
    if end.None? || !IsRequestLine(data[..end.value]) { return None; }
    var headers := data[end.value + 2..];
    while true
      invariant ScanRequest(data) == ScanHeaders(headers)
      decreases |headers|
    {
      end := FirstCrlf(headers, 0);
      if end.None? { return None; }
      var line := headers[..end.value];
      if line == [] { return None; }
      headers := headers[end.value + 2..];
      var colon := FirstIndex(line, COLON);
      if colon.None? { continue; }
      if IsHostName(line[..colon.value]) {
        return HostOf(line[colon.value + 1..]);
      }
    }
  }

  // ---- More bytes ----

  lemma FirstCrlfGrows(a: Data, b: Data)
    requires FirstCrlf(a, 0).Some?
    ensures FirstCrlf(a + b, 0) == FirstCrlf(a, 0)
  {
    var e := FirstCrlf(a, 0).value;
    forall i | 0 <= i < e ensures !CrlfAt(a + b, i) { assert !CrlfAt(a, i); }
    CrlfIsFirst(a + b, e);
  }

  lemma CrlfIsFirst(s: Data, e: nat)
    requires CrlfAt(s, e) && forall i :: 0 <= i < e ==> !CrlfAt(s, i)
    ensures FirstCrlf(s, 0) == Some(e)
  {
    var r := FirstCrlf(s, 0);
    assert r.Some?;
  }

  /** The line that has no end yet. */
  function OpenLine(headers: Data): Data {
    var end := FirstCrlf(headers, 0);
    if end.None? then headers else OpenLine(headers[end.value + 2..])
  }

  lemma {:induction false} OpenLineIsOpen(headers: Data)
    ensures FirstCrlf(OpenLine(headers), 0).None?
  {
    var end := FirstCrlf(headers, 0);
    if end.Some? { OpenLineIsOpen(headers[end.value + 2..]); }
  }

  /** A scan of more headers is the same one, resumed at the open line unless it was over. */
  lemma {:induction false} HeadersGrow(headers: Data, more: Data)
    ensures ScanHeaders(headers + more) ==
            if ScanHeaders(headers) == Open then ScanHeaders(OpenLine(headers) + more) else ScanHeaders(headers)
  {
    var end := FirstCrlf(headers, 0);
    if end.Some? {
      var e := end.value;
      FirstCrlfGrows(headers, more);
      assert (headers + more)[..e] == headers[..e];
      assert (headers + more)[e + 2..] == headers[e + 2..] + more;
      HeadersGrow(headers[e + 2..], more);
    }
  }

  lemma RequestGrows(data: Data, more: Data)
    requires FirstCrlf(data, 0).Some?
    ensures var e := FirstCrlf(data, 0).value;
      ScanRequest(data + more) == if IsRequestLine(data[..e]) then ScanHeaders(data[e + 2..] + more) else Over
  {
    var e := FirstCrlf(data, 0).value;
    FirstCrlfGrows(data, more);
    assert (data + more)[..e] == data[..e];
    assert (data + more)[e + 2..] == data[e + 2..] + more;
  }

  /** An unfinished `Host` line that can no longer become UTF-8. */
  predicate Hopeless(line: Data) {
    HostValue(line).Some? && !Completable(HostValue(line).value)
  }

  /** No more bytes can change the answer: see `HostIsFinal`. */
  predicate Decided(data: Data) {
    || ScanRequest(data) != Open
    || (FirstCrlf(data, 0).Some? && Hopeless(OpenLine(data[FirstCrlf(data, 0).value + 2..])))
  }

  // ---- Decided answers are final ----

  lemma HostValueGrows(line: Data, more: Data)
    requires HostValue(line).Some?
    ensures HostValue(line + more) == Some(HostValue(line).value + more)
  {
    var c := FirstIndex(line, COLON).value;
    assert line == line[..c] + [COLON] + line[c + 1..];
    assert line + more == line[..c] + [COLON] + (line[c + 1..] + more);
    FirstIndexIs(line[..c], COLON, line[c + 1..] + more);
    assert (line + more)[..c] == line[..c];
  }

  /** A hopeless line, however it ends, gives no host. */
  lemma HopelessStaysSo(line: Data, more: Data)
    requires Hopeless(line) && FirstCrlf(line, 0).None?
    ensures var scan := ScanHeaders(line + more); scan == Open || scan == Found(None)
  {
    var all := line + more;
    var end := FirstCrlf(all, 0);
    if end.Some? {
      var e := end.value;
      var v := HostValue(line).value;
      assert e + 1 < |line| ==> CrlfAt(line, e);
      if e >= |line| {
        assert all[..e] == line + more[..e - |line|];
        HostValueGrows(line, more[..e - |line|]);
        if ValidUtf8(v + more[..e - |line|]) { PrefixIsCompletable(v, more[..e - |line|]); }
      } else {
        CutAtReturn(line, e);
        assert all[..e] == line[..e];
      }
    }
  }

  lemma CutValue(value: Data)
    requires !Completable(value + [CR])
    ensures !ValidUtf8(value)
  {
    if ValidUtf8(value) {
      assert ValidUtf8([CR]);
      Utf8Append(value, [CR]);
      assert value + [CR] + [] == value + [CR];
      PrefixIsCompletable(value + [CR], []);
    }
  }

  lemma CutHostValue(line: Data)
    requires HostValue(line + [CR]).Some?
    ensures HostValue(line).Some? && HostValue(line + [CR]).value == HostValue(line).value + [CR]
  {
    var all := line + [CR];
    var c := FirstIndex(all, COLON).value;
    assert all[c] == COLON && c < |line|;
    assert line == all[..c] + [COLON] + line[c + 1..];
    FirstIndexIs(all[..c], COLON, line[c + 1..]);
    assert FirstIndex(line, COLON) == Some(c) && line[..c] == all[..c];
    assert all[c + 1..] == line[c + 1..] + [CR];
  }

  /** The line ends before its last byte, a carriage return. */
  lemma CutAtReturn(line: Data, e: nat)
    requires Hopeless(line) && e + 1 == |line| && line[e] == CR
    ensures line[..e] != [] && HostValue(line[..e]).Some? && HostOf(HostValue(line[..e]).value) == None
  {
    var front := line[..e];
    assert line == front + [CR];
    CutHostValue(front);
    assert FirstIndex(front, COLON).Some?;
    CutValue(HostValue(front).value);
  }

  lemma DecidedIsFinal(data: Data, more: Data)
    requires Decided(data)
    ensures HttpHost(data + more) == HttpHost(data)
  {
    var end := FirstCrlf(data, 0);
    var headers := data[end.value + 2..];
    RequestGrows(data, more);
    HeadersGrow(headers, more);
    if ScanRequest(data) == Open {
      OpenLineIsOpen(headers);
      HopelessStaysSo(OpenLine(headers), more);
    }
  }

  // ---- Undecided ones are not ----

  /** Ends in a visible ASCII character. */
  predicate EndsVisibly(s: Data) {
    s != [] && 33 <= s[|s| - 1] < 0x80
  }

  lemma {:induction false} TrimKeepsEnd(s: Data, value: Data)
    requires ValidUtf8(s) && value == s + [97]
    ensures EndsVisibly(TrimStart(value))
  {
    if s != [] {
      var n := ScalarLength(s);
      ScalarPrefix(s, value);
      TrimKeepsEnd(s[n..], value[n..]);
    }
  }

  lemma TrimEndKeeps(s: Data)
    requires EndsVisibly(s)
    ensures TrimEnd(s) == s
  {
  }

  lemma HostOfText(value: Data, trimmed: Data)
    requires ValidUtf8(value) && trimmed == TrimStart(value) && EndsVisibly(trimmed)
    ensures HostOf(value).Some?
  {
    TrimEndKeeps(trimmed);
  }

  lemma LetterEndsText(s: Data, value: Data)
    requires ValidUtf8(s) && value == s + [97]
    ensures ValidUtf8(value)
  {
    assert ValidUtf8([97]);
    Utf8Append(s, [97]);
  }

  /** Any UTF-8 followed by a letter is a host value. */
  lemma HostOfEnding(s: Data, value: Data)
    requires ValidUtf8(s) && value == s + [97]
    ensures HostOf(value).Some?
  {
    LetterEndsText(s, value);
    TrimKeepsEnd(s, value);
    HostOfText(value, TrimStart(value));
  }

  lemma ScanLine(line: Data, rest: Data)
    requires line != [] && FirstCrlf(line, 0).None?
    ensures ScanHeaders(line + (CRLF + rest)) ==
            if HostValue(line).Some? then Found(HostOf(HostValue(line).value)) else ScanHeaders(rest)
  {
    CrlfEndsLine(line, rest);
  }

  ghost predicate FindsHost(scan: Scan) {
    scan.Found? && scan.host.Some?
  }

  /** `Host:a`. */
  const HOST_LINE: Data := [72, 111, 115, 116, 58, 97]

  lemma NoCrlfIn(line: Data)
    requires LF !in line
    ensures FirstCrlf(line, 0).None?
  {
  }

  lemma HostLineValue()
    ensures HostValue(HOST_LINE) == Some([97])
  {
    var name: Data := [72, 111, 115, 116];
    assert HOST_LINE == name + [COLON] + [97];
    FirstIndexIs(name, COLON, [97]);
    assert HOST_LINE[..4] == name;
    assert Lowercase(name) == HOST;
    assert HOST_LINE[5..] == [97];
  }

  lemma HostLineScan()
    ensures FindsHost(ScanHeaders(HOST_LINE + (CRLF + [])))
  {
    NoCrlfIn(HOST_LINE);
    ScanLine(HOST_LINE, []);
    HostLineValue();
    HostOfEnding([], [97]);
  }

  lemma CompletedValue(v: Data) returns (tail: Data)
    requires Completable(v)
    ensures LF !in tail && tail != [] && HostOf(v + tail).Some?
  {
    tail := Completion(v) + [97];
    CompletionCompletes(v);
    assert v + tail == v + Completion(v) + [97];
    HostOfEnding(v + Completion(v), v + tail);
  }

  /** A host line that is still completable can be completed. */
  lemma CompleteHost(line: Data) returns (more: Data)
    requires FirstCrlf(line, 0).None? && HostValue(line).Some? && Completable(HostValue(line).value)
    ensures FindsHost(ScanHeaders(line + more))
  {
    var tail := CompletedValue(HostValue(line).value);
    HostValueGrows(line, tail);
    NoBreak(line, tail);
    ScanLine(line + tail, []);
    more := tail + (CRLF + []);
    Assoc(line, tail, CRLF + []);
  }

  lemma NoBreak(line: Data, tail: Data)
    requires FirstCrlf(line, 0).None? && LF !in tail
    ensures FirstCrlf(line + tail, 0).None?
  {
    forall i ensures !CrlfAt(line + tail, i) {
      if 0 <= i && i + 1 < |line| { assert !CrlfAt(line, i); }
      if i >= 0 && |line| <= i + 1 < |line + tail| { assert (line + tail)[i + 1] == tail[i + 1 - |line|]; }
    }
  }

  /** In an open header section that is not hopeless, a host can still arrive. */
  lemma HostCanArrive(line: Data) returns (more: Data)
    requires FirstCrlf(line, 0).None? && !Hopeless(line)
    ensures FindsHost(ScanHeaders(line + more))
  {
    HostLineScan();
    if line == [] {
      more := HOST_LINE + (CRLF + []);
      assert line + more == more;
    } else if HostValue(line).Some? {
      more := CompleteHost(line);
    } else {
      ScanLine(line, HOST_LINE + (CRLF + []));
      more := CRLF + (HOST_LINE + (CRLF + []));
    }
  }

  lemma VersionMakesRequest(data: Data)
    ensures IsRequestLine(data + (HTTP_1 + [49]))
  {
    var line := data + (HTTP_1 + [49]);
    assert line[|data|..|data| + 8] == HTTP_1;
  }

  lemma ScanRequestLine(line: Data, rest: Data)
    requires FirstCrlf(line, 0).None? && IsRequestLine(line)
    ensures ScanRequest(line + (CRLF + rest)) == ScanHeaders(rest)
  {
    CrlfEndsLine(line, rest);
  }

  lemma RequestCanArrive(data: Data) returns (more: Data)
    requires FirstCrlf(data, 0).None?
    ensures HttpHost(data + more).Some?
  {
    var tail := HTTP_1 + [49];
    var rest := HOST_LINE + (CRLF + []);
    NoBreak(data, tail);
    VersionMakesRequest(data);
    ScanRequestLine(data + tail, rest);
    HostLineScan();
    more := tail + (CRLF + rest);
    Assoc(data, tail, CRLF + rest);
  }

  lemma UndecidedCanChange(data: Data) returns (more: Data)
    requires !Decided(data)
    ensures HttpHost(data + more) != HttpHost(data)
  {
    if FirstCrlf(data, 0).None? {
      more := RequestCanArrive(data);
    } else {
      var headers := data[FirstCrlf(data, 0).value + 2..];
      OpenLineIsOpen(headers);
      more := HostCanArrive(OpenLine(headers));
      RequestGrows(data, more);
      HeadersGrow(headers, more);
    }
  }

  /**
   * Exactly when no continuation changes the answer: the scan is over, or the
   * line it is in is a `Host` line that cannot be UTF-8 any more.
   */
  lemma HostIsFinal(data: Data)
    ensures Decided(data) <==> forall more: Data :: HttpHost(data + more) == HttpHost(data)
  {
    if Decided(data) {
      forall more: Data ensures HttpHost(data + more) == HttpHost(data) { DecidedIsFinal(data, more); }
    } else {
      var more := UndecidedCanChange(data);
    }
  }

  // ---- The probe ----

  predicate Letter(b: byte) {
    65 <= b <= 90 || 97 <= b <= 122
  }

  /** The first line feed does not end an HTTP/1 request line. */
  predicate BadFirstLine(data: Data) {
    var end := FirstIndex(data, LF);
    end.Some? && (end.value == 0 || data[end.value - 1] != CR || !IsRequestLine(data[..end.value - 1]))
  }

  predicate DoubleFeedAt(data: Data, i: int) {
    0 <= i && i + 2 <= |data| && data[i] == LF && data[i + 1] == LF
  }

  /** What the probe answers. */
  ghost predicate MightAppear(data: Data) {
    data != [] ==>
      && Letter(data[0]) && !BadFirstLine(data)
      && (forall e :: !EndsAt(data, e)) && (forall i :: !DoubleFeedAt(data, i))
  }

  method HttpHostMightStillAppear(data: Data) returns (r: bool)
    ensures r <==> MightAppear(data)
  {
    if data == [] { return true; }
    if !Letter(data[0]) { return false; }
    if BadFirstLine(data) { return false; }
    var end := FindHeaderEnd(data);
    if end.Some? { return false; }
    for i := 0 to |data|
      invariant forall k :: k < i ==> !DoubleFeedAt(data, k)
    {
      if i + 2 <= |data| && data[i] == LF && data[i + 1] == LF {
        assert DoubleFeedAt(data, i);
        return false;
      }
    }
    return true;
  }

  /** The first line feed is at `f`. */
  predicate FirstFeed(data: Data, f: int) {
    0 <= f < |data| && data[f] == 10 && 10 !in data[..f]
  }

  /** A carriage return and the version before it end the line at `f`. */
  ghost predicate VersionBefore(data: Data, f: int) {
    0 < f <= |data| && data[f - 1] == 13 && Versioned(data[..f - 1])
  }

  lemma FirstFeedIs(data: Data, f: nat)
    ensures FirstFeed(data, f) <==> FirstIndex(data, LF) == Some(f)
  {
    if FirstFeed(data, f) {
      FirstIndexIs(data[..f], 10, data[f + 1..]);
      assert data == data[..f] + [10] + data[f + 1..];
    }
  }

  lemma FirstLineInBytes(data: Data)
    ensures BadFirstLine(data) <==> exists f :: FirstFeed(data, f) && !VersionBefore(data, f)
  {
    forall f: nat ensures FirstFeed(data, f) <==> FirstIndex(data, LF) == Some(f) { FirstFeedIs(data, f); }
    var end := FirstIndex(data, LF);
    if end.Some? && end.value > 0 { RequestLineExactly(data[..end.value - 1]); }
  }

  lemma BlanksAreEnds(data: Data)
    ensures (exists e :: EndsAt(data, e)) <==> (exists i: nat :: BlankAt(data, i))
  {
    if i: nat :| BlankAt(data, i) { EndsInBytes(data, i + 4); }
    if e :| EndsAt(data, e) { EndsInBytes(data, e); }
  }

  lemma DoubleFeedsInBytes(data: Data)
    ensures (exists i :: DoubleFeedAt(data, i))
       <==> exists i :: 0 <= i && i + 1 < |data| && data[i] == 10 && data[i + 1] == 10
  {
    if i :| 0 <= i && i + 1 < |data| && data[i] == 10 && data[i + 1] == 10 { assert DoubleFeedAt(data, i); }
  }

  /**
   * What the probe answers, in bytes: yes to nothing; else the first byte must
   * be a letter, the first line feed must end a request line, and there may be
   * neither an empty line nor two line feeds in a row.
   */
  lemma ProbeInBytes(data: Data)
    ensures MightAppear(data) <==> (data != [] ==>
      && (65 <= data[0] <= 90 || 97 <= data[0] <= 122)
      && (forall f :: FirstFeed(data, f) ==> VersionBefore(data, f))
      && !(exists i: nat :: BlankAt(data, i))
      && !(exists i :: 0 <= i && i + 1 < |data| && data[i] == 10 && data[i + 1] == 10))
  {
    FirstLineInBytes(data);
    BlanksAreEnds(data);
    DoubleFeedsInBytes(data);
  }

  /** Starts with a letter, and every line feed follows a carriage return. */
  predicate Tame(data: Data) {
    && (data != [] ==> Letter(data[0]))
    && forall i :: 0 <= i < |data| && data[i] == LF ==> i > 0 && data[i - 1] == CR
  }

  /** Two line ends in a row are an empty line, which ends the headers if nothing did before. */
  lemma {:induction false} EmptyLineEnds(headers: Data, i: nat)
    requires CrlfAt(headers, i) && (i == 0 || (i >= 2 && CrlfAt(headers, i - 2)))
    ensures ScanHeaders(headers) != Open
    decreases |headers|
  {
    var end := FirstCrlf(headers, 0);
    var e := end.value;
    if e == 0 {
    } else {
      assert i >= 2 && e <= i - 2;
      var rest := headers[e + 2..];
      assert e != i - 3 && e != i - 1;
      if e == i - 2 {
        assert CrlfAt(rest, 0);
        EmptyLineEnds(rest, 0);
      } else {
        assert e + 2 <= i - 2;
        assert CrlfAt(rest, i - e - 2) && CrlfAt(rest, i - e - 4);
        EmptyLineEnds(rest, i - e - 2);
      }
    }
  }

  lemma TameBadFirstLine(data: Data)
    requires Tame(data) && BadFirstLine(data)
    ensures ScanRequest(data) == Over
  {
    var f := FirstIndex(data, LF).value;
    assert forall i :: 0 <= i < f ==> data[i] == data[..f][i];
    CrlfIsFirst(data, f - 1);
  }

  lemma HeaderEndIsOver(data: Data, e: int)
    requires EndsAt(data, e)
    ensures ScanRequest(data) != Open
  {
    assert CrlfAt(data, e - 4) && CrlfAt(data, e - 2);
    var first := FirstCrlf(data, 0).value;
    var headers := data[first + 2..];
    assert first <= e - 4 && first != e - 5;
    if first == e - 4 {
      assert CrlfAt(headers, 0);
      EmptyLineEnds(headers, 0);
    } else {
      assert CrlfAt(headers, e - 4 - first) && CrlfAt(headers, e - 6 - first);
      EmptyLineEnds(headers, e - 4 - first);
    }
  }

  lemma TamePrefix(buf: Data, within: Data)
    requires buf <= within && Tame(within)
    ensures Tame(buf)
  {
    assert forall i :: 0 <= i < |buf| ==> buf[i] == within[i];
  }

  /** On tame data the probe's "no" is final. */
  lemma TameNoIsFinal(data: Data)
    requires Tame(data) && !MightAppear(data)
    ensures Decided(data)
  {
    forall i ensures !DoubleFeedAt(data, i) {}
    if BadFirstLine(data) {
      TameBadFirstLine(data);
    } else {
      var e :| EndsAt(data, e);
      HeaderEndIsOver(data, e);
    }
  }

  /** The probe says no, yet a host can still be found. */
  ghost predicate WrongNo(data: Data) {
    !MightAppear(data) && exists more: Data :: HttpHost(data + more) != HttpHost(data)
  }

  /** Exactly when the probe's "no" is wrong: it says no in a scan that is not decided. */
  lemma WrongNoExactly(data: Data)
    ensures WrongNo(data) <==> !MightAppear(data) && !Decided(data)
  {
    HostIsFinal(data);
  }

  /**
   * On data that is not tame this happens: after a first byte that is no letter (`1`), after
   * a bare line feed in the first line (`G` LF), and after two line feeds in a
   * row (`G HTTP/1.1` CRLF `A` LF LF).
   */
  lemma NoCanBeWrong()
    ensures WrongNo([49]) && WrongNo([71, LF]) && WrongNo([71] + (HTTP_1 + [49]) + (CRLF + [65, LF, LF]))
  {
    NoCrlfIn([49]);
    var a := UndecidedCanChange([49]);
    assert BadFirstLine([71, LF]);
    assert FirstCrlf([71, LF], 0).None?;
    var b := UndecidedCanChange([71, LF]);
    DoubleFeedIsOpen();
  }

  lemma DoubleFeedIsOpen()
    ensures WrongNo([71] + (HTTP_1 + [49]) + (CRLF + [65, LF, LF]))
  {
    var line, headers := [71] + (HTTP_1 + [49]), [65, LF, LF];
    var data := line + (CRLF + headers);
    VersionMakesRequest([71]);
    NoCrlfIn(line);
    CrlfEndsLine(line, headers);
    ScanRequestLine(line, headers);
    assert FirstCrlf(headers, 0).None?;
    assert DoubleFeedAt(data, |line| + 3);
    var more := UndecidedCanChange(data);
  }
}
