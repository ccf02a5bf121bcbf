/**
 * `host:port` text. Strings are their UTF-8 bytes. Reading and printing IP
 * literals is a parameter with the laws below.
 */
module HostPorts {
  import opened Wrappers
  import opened Bytes

  const COLON: byte := 58
  const OPEN: byte := 91
  const CLOSE: byte := 93

  /** Readers of IP literals into octets, and printers of octets. */
  datatype IpText = IpText(v4: Data -> Option<Data>, v6: Data -> Option<Data>, show4: Data -> Data, show6: Data -> Data)

  predicate Unbracketed(s: Data) {
    OPEN !in s && CLOSE !in s
  }

  /** Printing is a right inverse of reading; only IPv6 literals have colons. */
  ghost predicate LawfulIp(ip: IpText) {
    && (forall s: Data {:trigger ip.v4(s)} ::
          ip.v4(s).Some? ==> |ip.v4(s).value| == 4 && COLON !in s && Unbracketed(s) && s != [])
    && (forall s: Data {:trigger ip.v6(s)} :: ip.v6(s).Some? ==> |ip.v6(s).value| == 16 && COLON in s && Unbracketed(s))
    && (forall o: Data {:trigger ip.show4(o)} :: |o| == 4 ==> ip.v4(ip.show4(o)) == Some(o))
    && (forall o: Data {:trigger ip.show6(o)} :: |o| == 16 ==> ip.v6(ip.show6(o)) == Some(o))
  }

  datatype HostPort = HostPort(host: Data, port: nat)

  // ---- Ports ----

  predicate Digits(s: Data) {
    forall i :: 0 <= i < |s| ==> IsDigit(s[i])
  }

  function Value(s: Data): nat
    requires Digits(s)
  {
    if s == [] then 0 else 10 * Value(s[..|s| - 1]) + (s[|s| - 1] - 48) as nat
  }

  /** `u16::from_str`: decimal digits after an optional plus sign, within range. */
  function ParsePort(s: Data): Option<nat> {
    var digits := if |s| > 1 && s[0] == 43 then s[1..] else s;
    if digits != [] && Digits(digits) && Value(digits) <= 0xFFFF then Some(Value(digits)) else None
  }

  function PortText(n: nat): (s: Data)
    ensures s != [] && Digits(s)
  {
    if n < 10 then [(48 + n) as byte] else PortText(n / 10) + [(48 + n % 10) as byte]
  }

  lemma {:induction false} ValueOfText(n: nat)
    ensures Value(PortText(n)) == n
  {
    if n >= 10 {
      ValueOfText(n / 10);
      assert PortText(n)[..|PortText(n)| - 1] == PortText(n / 10);
    }
  }

  lemma PortRoundTrip(n: nat)
    requires n <= 0xFFFF
    ensures ParsePort(PortText(n)) == Some(n)
  {
    ValueOfText(n);
  }

  // ---- Splitting ----

  function FirstIndex(s: Data, b: byte): (r: Option<nat>)
    ensures r.Some? ==> r.value < |s| && s[r.value] == b && b !in s[..r.value]
    ensures r.None? <==> b !in s
  {
    if s == [] then None
    else if s[0] == b then Some(0)
    else
      var i := FirstIndex(s[1..], b);
      if i.None? then None
      else
        assert s[..i.value + 1] == [s[0]] + s[1..][..i.value];
        Some(i.value + 1)
  }

  function LastIndex(s: Data, b: byte): (r: Option<nat>)
    ensures r.Some? ==> r.value < |s| && s[r.value] == b && b !in s[r.value + 1..]
    ensures r.None? <==> b !in s
  {
    if s == [] then None
    else
      var n := |s| - 1;
      if s[n] == b then Some(n)
      else
        var i := LastIndex(s[..n], b);
        if i.None? then None
        else
          assert s[i.value + 1..] == s[..n][i.value + 1..] + [s[n]];
          i
  }

  lemma {:induction false} FirstIndexIs(a: Data, b: byte, c: Data)
    requires b !in a
    ensures FirstIndex(a + [b] + c, b) == Some(|a|)
  {
    var s := a + [b] + c;
    if a != [] {
      assert s[1..] == a[1..] + [b] + c;
      FirstIndexIs(a[1..], b, c);
    }
  }

  lemma {:induction false} LastIndexIs(a: Data, b: byte, c: Data)
    requires b !in c
    ensures LastIndex(a + [b] + c, b) == Some(|a|)
  {
    var s := a + [b] + c;
    if c != [] {
      assert s[..|s| - 1] == a + [b] + c[..|c| - 1];
      LastIndexIs(a, b, c[..|c| - 1]);
    }
  }

  // ---- Parsing and formatting ----

  /** `after` is what follows the bracketed host. */
  function ParseAfterHost(ip: IpText, host: Data, after: Data): Option<HostPort> {
    if ip.v6(host).None? || after == [] || after[0] != COLON then None
    else
      var port :- ParsePort(after[1..]);
      Some(HostPort(host, port))
  }

  function ParseBare(ip: IpText, host: Data, digits: Data): Option<HostPort> {
    if if COLON in host then ip.v6(host).None? else host == [] then None
    else
      var port :- ParsePort(digits);
      Some(HostPort(host, port))
  }

  function Parse(ip: IpText, s: Data): Option<HostPort> {
    if s != [] && s[0] == OPEN then
      var rest := s[1..];
      var close :- FirstIndex(rest, CLOSE);
      ParseAfterHost(ip, rest[..close], rest[close + 1..])
    else
      var colon :- LastIndex(s, COLON);
      ParseBare(ip, s[..colon], s[colon + 1..])
  }

  function Plain(host: Data, port: nat): Data {
    host + [COLON] + PortText(port)
  }

  function Format(ip: IpText, host: Data, port: nat): Data {
    if ip.v6(host).Some? then [OPEN] + host + [CLOSE, COLON] + PortText(port) else Plain(host, port)
  }

  /** A bracketed host, taken apart. */
  lemma BracketParts(host: Data, digits: Data)
    ensures var s := [91] + host + [93, 58] + digits;
      s[0] == OPEN && s[1..] == host + [CLOSE] + ([COLON] + digits)
  {
  }

  lemma AroundClose(rest: Data, host: Data, after: Data)
    requires rest == host + [CLOSE] + after
    ensures rest[..|host|] == host && rest[|host| + 1..] == after
  {
  }

  lemma BehindClose(ip: IpText, host: Data, digits: Data)
    requires ip.v6(host).Some? && ParsePort(digits).Some?
    ensures ParseAfterHost(ip, host, [COLON] + digits) == Some(HostPort(host, ParsePort(digits).value))
  {
    assert ([COLON] + digits)[1..] == digits;
  }

  lemma InBrackets(ip: IpText, s: Data, host: Data, after: Data)
    requires CLOSE !in host && s != [] && s[0] == OPEN && s[1..] == host + [CLOSE] + after
    ensures Parse(ip, s) == ParseAfterHost(ip, host, after)
  {
    FirstIndexIs(host, CLOSE, after);
    AroundClose(s[1..], host, after);
  }

  lemma ParseBracketed(ip: IpText, host: Data, port: nat)
    requires ip.v6(host).Some? && CLOSE !in host && port <= 0xFFFF
    ensures Parse(ip, [OPEN] + host + [CLOSE, COLON] + PortText(port)) == Some(HostPort(host, port))
  {
    var digits := PortText(port);
    BracketParts(host, digits);
    InBrackets(ip, [OPEN] + host + [CLOSE, COLON] + digits, host, [COLON] + digits);
    PortRoundTrip(port);
    BehindClose(ip, host, digits);
  }

  /** What the server's grammar check lets through: bare names, and an IPv6 literal in brackets. */
  lemma ParsePlain(ip: IpText, host: Data, port: nat)
    requires port <= 0xFFFF && (host == [] || host[0] != OPEN)
    ensures Parse(ip, Plain(host, port)) ==
            if (if COLON in host then ip.v6(host).Some? else host != []) then Some(HostPort(host, port)) else None
  {
    var s := Plain(host, port);
    assert COLON !in PortText(port);
    LastIndexIs(host, COLON, PortText(port));
    assert s[..|host|] == host && s[|host| + 1..] == PortText(port);
    assert s[0] == if host == [] then COLON else host[0];
    PortRoundTrip(port);
  }

  /** Parsing undoes formatting exactly for IPv6 literals and for nonempty names with no colon or leading bracket. */
  lemma {:induction false} FormatRoundTrip(ip: IpText, host: Data, port: nat)
    requires LawfulIp(ip) && port <= 0xFFFF
    ensures Parse(ip, Format(ip, host, port)) == Some(HostPort(host, port))
       <==> ip.v6(host).Some? || (host != [] && COLON !in host && host[0] != OPEN)
  {
    if ip.v6(host).Some? {
      ParseBracketed(ip, host, port);
    } else if host == [] || host[0] != OPEN {
      ParsePlain(ip, host, port);
    } else {
      var s := Plain(host, port);
      assert s[0] == OPEN;
      assert Parse(ip, s).Some? ==> ip.v6(Parse(ip, s).value.host).Some?;
    }
  }

  /** Whatever was parsed is formatted into text that parses to the same. */
  lemma {:induction false} ParsedRoundTrip(ip: IpText, s: Data)
    requires LawfulIp(ip) && Parse(ip, s).Some?
    ensures var p := Parse(ip, s).value; p.port <= 0xFFFF && Parse(ip, Format(ip, p.host, p.port)) == Some(p)
  {
    var p := Parse(ip, s).value;
    if s[0] != OPEN {
      assert p.host != [] ==> p.host[0] == s[0];
      assert ip.v6(p.host).Some? ==> p.host != [];
    }
    FormatRoundTrip(ip, p.host, p.port);
  }

  // ---- What is parsed ----

  /** Perhaps a plus sign, any number of zeros, and the number. */
  ghost predicate SpellsPort(s: Data, plus: Data, zeros: Data, n: nat) {
    s == plus + (zeros + PortText(n)) && (plus == [] || plus == [43]) && forall i :: 0 <= i < |zeros| ==> zeros[i] == 48
  }

  lemma {:induction false} DigitsSpell(digits: Data) returns (zeros: Data)
    requires Digits(digits) && digits != []
    ensures digits == zeros + PortText(Value(digits)) && forall i :: 0 <= i < |zeros| ==> zeros[i] == 48
  {
    var n := |digits| - 1;
    var front, last := digits[..n], digits[n];
    assert digits == front + [last];
    if n == 0 {
      zeros := [];
    } else {
      zeros := DigitsSpell(front);
      if Value(front) == 0 { zeros := zeros + [48]; }
    }
  }

  lemma {:induction false} ZerosAddNothing(zeros: Data, digits: Data)
    requires Digits(digits) && forall i :: 0 <= i < |zeros| ==> zeros[i] == 48
    ensures Digits(zeros + digits) && Value(zeros + digits) == Value(digits)
    decreases |zeros| + |digits|
  {
    var all := zeros + digits;
    if digits != [] {
      assert all[..|all| - 1] == zeros + digits[..|digits| - 1];
      ZerosAddNothing(zeros, digits[..|digits| - 1]);
    } else if zeros != [] {
      assert all[..|all| - 1] == zeros[..|zeros| - 1] + [];
      ZerosAddNothing(zeros[..|zeros| - 1], []);
    }
  }

  lemma SpelledPort(s: Data, plus: Data, zeros: Data, n: nat)
    requires SpellsPort(s, plus, zeros, n) && n <= 65535
    ensures ParsePort(s) == Some(n)
  {
    var digits := zeros + PortText(n);
    ZerosAddNothing(zeros, PortText(n));
    ValueOfText(n);
    if plus == [] {
      assert s == digits && s[0] != 43;
    } else {
      assert s[0] == 43 && s[1..] == digits;
    }
  }

  lemma PortSpelling(s: Data) returns (plus: Data, zeros: Data)
    requires ParsePort(s).Some?
    ensures SpellsPort(s, plus, zeros, ParsePort(s).value)
  {
    if |s| > 1 && s[0] == 43 {
      plus := [43];
      zeros := DigitsSpell(s[1..]);
      assert s == [43] + s[1..];
    } else {
      plus := [];
      zeros := DigitsSpell(s);
      assert s == [] + s;
    }
  }

  /** A port is read exactly from these spellings of the numbers up to 65535. */
  lemma PortExactly(s: Data, n: nat)
    ensures ParsePort(s) == Some(n) <==> n <= 65535 && exists plus, zeros :: SpellsPort(s, plus, zeros, n)
  {
    if ParsePort(s) == Some(n) { var plus, zeros := PortSpelling(s); }
    if n <= 65535 {
      forall plus, zeros | SpellsPort(s, plus, zeros, n) ensures ParsePort(s) == Some(n) {
        SpelledPort(s, plus, zeros, n);
      }
    }
  }

  /** The most significant digit comes first. */
  lemma PortTextIsDecimal(front: nat, last: nat)
    requires last < 10
    ensures PortText(10 * front + last) == (if front == 0 then [] else PortText(front)) + [(48 + last) as byte]
  {
    assert (10 * front + last) / 10 == front && (10 * front + last) % 10 == last;
  }

  /** An IPv6 literal in brackets, or a host that starts with none and has no colon unless it is such a literal. */
  ghost predicate Spells(ip: IpText, s: Data, host: Data, digits: Data) {
    || (s == [91] + host + [93, 58] + digits && ip.v6(host).Some?)
    || (s == host + [58] + digits && host != [] && host[0] != 91 && (58 in host ==> ip.v6(host).Some?))
  }

  lemma PortHasNoColon(digits: Data)
    requires ParsePort(digits).Some?
    ensures COLON !in digits
  {
    if |digits| > 1 && digits[0] == 43 { assert digits == [43] + digits[1..]; }
  }

  lemma BracketsParse(ip: IpText, s: Data, host: Data, digits: Data)
    requires LawfulIp(ip) && s == [91] + host + [93, 58] + digits
    requires ip.v6(host).Some? && ParsePort(digits).Some?
    ensures Parse(ip, s) == Some(HostPort(host, ParsePort(digits).value))
  {
    BracketParts(host, digits);
    InBrackets(ip, s, host, [COLON] + digits);
    BehindClose(ip, host, digits);
  }

  lemma BareParse(ip: IpText, s: Data, host: Data, digits: Data, port: nat)
    requires s == host + [58] + digits && host != [] && host[0] != 91 && (58 in host ==> ip.v6(host).Some?)
    requires ParsePort(digits) == Some(port)
    ensures Parse(ip, s) == Some(HostPort(host, port))
  {
    PortHasNoColon(digits);
    LastIndexIs(host, COLON, digits);
    assert s[..|host|] == host && s[|host| + 1..] == digits && s[0] == host[0];
  }

  lemma SplitAtClose(rest: Data, c: nat)
    requires c + 1 < |rest| && rest[c] == CLOSE && rest[c + 1] == COLON
    ensures [OPEN] + rest == [91] + rest[..c] + [93, 58] + rest[c + 1..][1..]
  {
  }

  lemma SplitAtColon(s: Data, c: nat)
    requires c < |s| && s[c] == COLON
    ensures s == s[..c] + [58] + s[c + 1..]
  {
  }

  /** What was parsed, in the form in which it was written. */
  lemma ParsedForm(ip: IpText, s: Data) returns (digits: Data)
    requires LawfulIp(ip) && Parse(ip, s).Some?
    ensures Spells(ip, s, Parse(ip, s).value.host, digits) && ParsePort(digits) == Some(Parse(ip, s).value.port)
  {
    if s[0] == OPEN {
      var rest := s[1..];
      var c := FirstIndex(rest, CLOSE).value;
      digits := rest[c + 1..][1..];
      SplitAtClose(rest, c);
      assert s == [OPEN] + rest;
    } else {
      var c := LastIndex(s, COLON).value;
      digits := s[c + 1..];
      SplitAtColon(s, c);
    }
  }

  /** Text is parsed to a host and a port exactly if it has one of the two forms. */
  lemma ParseExactly(ip: IpText, s: Data, host: Data, port: nat)
    requires LawfulIp(ip)
    ensures Parse(ip, s) == Some(HostPort(host, port))
       <==> exists digits :: Spells(ip, s, host, digits) && ParsePort(digits) == Some(port)
  {
    if Parse(ip, s) == Some(HostPort(host, port)) { var digits := ParsedForm(ip, s); }
    forall digits | Spells(ip, s, host, digits) && ParsePort(digits) == Some(port)
      ensures Parse(ip, s) == Some(HostPort(host, port))
    {
      if s == [91] + host + [93, 58] + digits && ip.v6(host).Some? {
        BracketsParse(ip, s, host, digits);
      } else {
        BareParse(ip, s, host, digits, port);
      }
    }
  }
}
