/**
 * Exactly which data a server name can still come from: the lengths that have
 * arrived leave room, layer by layer, for all that a name needs.
 */
module SniFits {
  import opened Wrappers
  import opened Bytes
  import opened Utf8Prefix
  import opened Entries
  import opened TlsRecords
  import opened RecoverHost

  // ---- Names ----

  predicate NameOk(name: Data) {
    ValidUtf8(name) && name != []
  }

  predicate NameFits(s: Data, n: nat) {
    n >= 1 && Completable(s) && |s| + |Completion(s)| <= n
  }

  lemma FillName(s: Data, n: nat)
    requires NameFits(s, n)
    ensures Fillable(NameOk, s, n)
  {
    var text := s + Completion(s);
    var pad := Zeros(n - |text|);
    CompletionCompletes(s);
    AsciiIsUtf8(pad);
    Utf8Append(text, pad);
    assert Fills(NameOk, s, n, text + pad);
  }

  lemma NamesDecide()
    ensures Decides(NameOk, NameFits, 1)
  {
    forall s: Data, n: nat | |s| <= n ensures NameFits(s, n) <==> Fillable(NameOk, s, n) {
      if NameFits(s, n) { FillName(s, n); }
      if Fillable(NameOk, s, n) {
        var u :| Fills(NameOk, s, n, u);
        var more := u[|s|..];
        assert u == s + more;
        PrefixIsCompletable(s, more);
        CompletionIsShortest(s, more);
      }
    }
  }

  // ---- The three lists ----

  predicate ListOk(s: Data) {
    Holds(1, NameOk, s)
  }

  predicate ListFits(s: Data, n: nat) {
    EntriesFit(1, NameFits, 1, s, n)
  }

  /** A body is a length and a list, like one entry without a type. */
  predicate BodyOk(s: Data) {
    Holds(0, ListOk, s)
  }

  predicate BodyFits(s: Data, n: nat) {
    EntriesFit(0, ListFits, 4, s, n)
  }

  predicate ExtensionsOk(s: Data) {
    Holds(2, BodyOk, s)
  }

  predicate ExtensionsFit(s: Data, n: nat) {
    EntriesFit(2, BodyFits, 6, s, n)
  }

  lemma ExtensionsDecide()
    ensures Decides(ExtensionsOk, ExtensionsFit, 10)
  {
    NamesDecide();
    EntriesDecide(1, NameOk, NameFits, 1, ListOk, ListFits);
    EntriesDecide(0, ListOk, ListFits, 4, BodyOk, BodyFits);
    EntriesDecide(2, BodyOk, BodyFits, 6, ExtensionsOk, ExtensionsFit);
  }

  // They are what the parser looks for.

  lemma ZeroType1(s: Data)
    requires |s| >= 1
    ensures AllZero(s[..1]) <==> s[0] == 0
  {
  }

  lemma ZeroType2(s: Data)
    requires |s| >= 2
    ensures AllZero(s[..2]) <==> U16(s[0..2]) == 0
  {
    assert s[..2] == [s[0], s[1]] == s[0..2];
  }

  lemma {:induction false} ListOkExactly(list: Data)
    ensures ListOk(list) <==> FindHostName(list).Some?
    decreases |list|
  {
    if |list| >= 3 {
      ZeroType1(list);
      var end := 3 + U16(list[1..3]);
      if end <= |list| && list[0] != 0 { ListOkExactly(list[end..]); }
    }
  }

  lemma BodyOkExactly(data: Data)
    ensures BodyOk(data) <==> ServerName(data).Some?
  {
    if |data| >= 2 {
      var end := 2 + U16(data[0..2]);
      if end <= |data| { ListOkExactly(data[2..end]); }
    }
  }

  lemma {:induction false} ExtensionsOkExactly(s: Data)
    ensures ExtensionsOk(s) <==> FindServerName(s).Some? && ServerName(FindServerName(s).value).Some?
    decreases |s|
  {
    if |s| >= 4 {
      ZeroType2(s);
      var end := 4 + U16(s[2..4]);
      if end <= |s| {
        BodyOkExactly(s[4..end]);
        if U16(s[0..2]) != 0 { ExtensionsOkExactly(s[end..]); }
      }
    }
  }

  // ---- The body of a ClientHello ----

  /** A body with extensions that are good. */
  predicate HelloOk(ok: Data -> bool, hs: Data) {
    Extensions(hs).Some? && ok(Extensions(hs).value)
  }

  /** Past a vector, if what is not known of its length is zero. */
  function AfterVec(h: Data, p: nat, width: nat): nat {
    if width == 1 then p + 1 + if p < |h| then h[p] as nat else 0
    else p + 2 + Least(Known(h, p, 2))
  }

  /** Where the length of the extensions is, at the earliest. */
  function Lengths(h: Data): (p: nat)
    ensures p >= 38
  {
    AfterVec(h, AfterVec(h, AfterVec(h, 34, 1), 2), 1)
  }

  /** Room for the extensions: what their length can be at most, and what the body has left. */
  function Room(h: Data, n: nat): nat
    requires Lengths(h) + 2 <= n
  {
    Min(Most(Known(h, Lengths(h), 2)), n - Lengths(h) - 2)
  }

  /** Whether a body of which `h` has arrived can still have such extensions, in `n` bytes. */
  predicate HelloFits(fits: (Data, nat) -> bool, h: Data, n: nat) {
    var start := Lengths(h) + 2;
    start <= n && fits(Known(h, start, Room(h, n)), Room(h, n))
  }

  // What a body says was foreseen.

  /** Position `p` is a lower bound of `q`, and exact if it has been reached. */
  predicate Behind(h: Data, p: nat, q: nat) {
    p <= q && (p < q ==> |h| < p)
  }

  lemma VecBehind(h: Data, u: Data, p: nat, q: nat, width: nat)
    requires h <= u && Behind(h, p, q) && SkipVec(u, q, width).Some?
    ensures Behind(h, AfterVec(h, p, width), SkipVec(u, q, width).value)
  {
    if width == 2 {
      if p == q {
        KnownPrefix(h, u, p, 2);
        LeastToMost(Known(h, p, 2), u[p..p + 2]);
      }
    } else if p < |h| {
      assert u[p..p + 1] == [h[p]];
    }
  }

  /** Where the length of the extensions is in a body that has them. */
  lemma LengthsBehind(h: Data, u: Data) returns (q: nat)
    requires h <= u && Extensions(u).Some?
    ensures Behind(h, Lengths(h), q) && q + 2 <= |u|
    ensures Extensions(u) == Some(u[q + 2..Min(q + 2 + U16(u[q..q + 2]), |u|)])
  {
    var sessionId := SkipVec(u, 34, 1).value;
    var cipherSuites := SkipVec(u, sessionId, 2).value;
    q := SkipVec(u, cipherSuites, 1).value;
    VecBehind(h, u, 34, 34, 1);
    VecBehind(h, u, AfterVec(h, 34, 1), sessionId, 2);
    VecBehind(h, u, AfterVec(h, AfterVec(h, 34, 1), 2), cipherSuites, 1);
  }

  /** Before the extensions are reached, all that counts is their room. */
  lemma RoomForeseen(h: Data, u: Data, q: nat)
    requires h <= u && Behind(h, Lengths(h), q) && q + 2 <= |u|
    ensures Room(h, |u|) >= Min(U16(u[q..q + 2]), |u| - q - 2)
    ensures |h| >= Lengths(h) + 2 ==> q == Lengths(h) && Room(h, |u|) == Min(U16(u[q..q + 2]), |u| - q - 2)
  {
    var p := Lengths(h);
    if p == q {
      KnownPrefix(h, u, p, 2);
      LeastToMost(Known(h, p, 2), u[p..p + 2]);
    }
  }

  lemma ReachedForeseen(ok: Data -> bool, fits: (Data, nat) -> bool, least: nat, h: Data, u: Data, exts: Data)
    requires Decides(ok, fits, least) && h <= u && ok(exts) && Lengths(h) + 2 <= |h|
    requires var start := Lengths(h) + 2; |exts| == Room(h, |u|) && u[start..start + |exts|] == exts
    ensures HelloFits(fits, h, |u|)
  {
    var start := Lengths(h) + 2;
    KnownPrefix(h, u, start, |exts|);
    assert Fills(ok, Known(h, start, |exts|), |exts|, exts);
  }

  lemma UnreachedForeseen(ok: Data -> bool, fits: (Data, nat) -> bool, least: nat, h: Data, n: nat, exts: Data)
    requires Decides(ok, fits, least) && |h| < Lengths(h) + 2 <= n && ok(exts) && |exts| <= Room(h, n)
    ensures HelloFits(fits, h, n)
  {
    LeastRoom(ok, fits, least, exts);
    assert Known(h, Lengths(h) + 2, Room(h, n)) == [];
  }

  lemma HelloForeseen(ok: Data -> bool, fits: (Data, nat) -> bool, least: nat, h: Data, u: Data)
    requires Decides(ok, fits, least) && h <= u && HelloOk(ok, u)
    ensures HelloFits(fits, h, |u|)
  {
    var q := LengthsBehind(h, u);
    var exts := Extensions(u).value;
    RoomForeseen(h, u, q);
    if |h| >= Lengths(h) + 2 {
      ReachedForeseen(ok, fits, least, h, u, exts);
    } else {
      UnreachedForeseen(ok, fits, least, h, |u|, exts);
    }
  }

  // What is foreseen can be sent.

  lemma VecKnown(h: Data, u: Data, p: nat, width: nat)
    requires h <= u && (width == 1 || width == 2) && AfterVec(h, p, width) <= |h|
    ensures SkipVec(u, p, width) == Some(AfterVec(h, p, width))
  {
    assert u[p..p + width] == h[p..p + width];
  }

  lemma ExtensionsKnown(h: Data, u: Data)
    requires h <= u && Lengths(h) + 2 <= |h|
    ensures var start := Lengths(h) + 2; Extensions(u) == Some(u[start..start + Room(h, |u|)])
  {
    var a := AfterVec(h, 34, 1);
    var b := AfterVec(h, a, 2);
    var c := AfterVec(h, b, 1);
    VecKnown(h, u, 34, 1);
    VecKnown(h, u, a, 2);
    VecKnown(h, u, b, 1);
    assert u[c..c + 2] == h[c..c + 2];
  }

  lemma KnownHelloOk(ok: Data -> bool, h: Data, u: Data, x: Data)
    requires h <= u && Lengths(h) + 2 <= |h| && ok(x)
    requires var start := Lengths(h) + 2; |x| == Room(h, |u|) && u[start..start + |x|] == x
    ensures HelloOk(ok, u)
  {
    ExtensionsKnown(h, u);
  }

  lemma FillKnownHello(ok: Data -> bool, fits: (Data, nat) -> bool, least: nat, h: Data, n: nat) returns (u: Data)
    requires Decides(ok, fits, least) && HelloFits(fits, h, n) && Lengths(h) + 2 <= |h| <= n
    ensures h <= u && |u| == n && HelloOk(ok, u)
  {
    var start, room := Lengths(h) + 2, Room(h, n);
    var x :| Fills(ok, Known(h, start, room), room, x);
    u := FillSlot(h, start, x, n);
    KnownHelloOk(ok, h, u, x);
  }

  /** `z` is `h` with zeros behind it, at least up to `limit`. */
  predicate Padded(h: Data, z: Data, limit: nat) {
    h <= z && limit <= |z| && forall i :: |h| <= i < limit ==> z[i] == 0
  }

  lemma VecPadded(h: Data, z: Data, limit: nat, p: nat, width: nat)
    requires Padded(h, z, limit) && AfterVec(h, p, width) <= limit
    ensures AfterVec(z, p, width) == AfterVec(h, p, width)
  {
    if width != 1 {
      var f, g := Known(h, p, 2), Known(z, p, 2);
      assert |g| == 2 && g[0] == z[p] && g[1] == z[p + 1];
      assert |f| >= 1 ==> f[0] == h[p];
      assert |f| == 2 ==> f[1] == h[p + 1];
    }
  }

  lemma LengthsPadded(h: Data, z: Data)
    requires Padded(h, z, Lengths(h))
    ensures Lengths(z) == Lengths(h)
  {
    VecPadded(h, z, Lengths(h), 34, 1);
    VecPadded(h, z, Lengths(h), AfterVec(h, 34, 1), 2);
    VecPadded(h, z, Lengths(h), AfterVec(h, AfterVec(h, 34, 1), 2), 1);
  }

  /** Fill up to the extensions: no vectors before them, and the greatest length for them. */
  lemma PadHello(h: Data) returns (z: Data)
    requires |h| < Lengths(h) + 2
    ensures h <= z && |z| == Lengths(h) + 2 && Lengths(z) == Lengths(h)
    ensures Known(z, Lengths(h), 2) == Number(Most(Known(h, Lengths(h), 2)))
  {
    var c := Lengths(h);
    var f := Known(h, c, 2);
    var front := Known(h, 0, c) + Zeros(c - |Known(h, 0, c)|);
    NumberBegins(f, Most(f));
    assert h == Known(h, 0, c) + f;
    z := front + Number(Most(f));
    Halves(front, Number(Most(f)));
    LengthsPadded(h, z);
  }

  lemma FillHello(ok: Data -> bool, fits: (Data, nat) -> bool, least: nat, h: Data, n: nat) returns (u: Data)
    requires Decides(ok, fits, least) && HelloFits(fits, h, n) && |h| <= n
    ensures h <= u && |u| == n && HelloOk(ok, u)
  {
    if Lengths(h) + 2 <= |h| {
      u := FillKnownHello(ok, fits, least, h, n);
    } else {
      var z := PadHello(h);
      NumberBegins([], Most(Known(h, Lengths(h), 2)));
      u := FillKnownHello(ok, fits, least, z, n);
    }
  }

  // ---- The data ----

  /** Whether a message of which `m` has arrived can still name a server. */
  predicate MessageFits(fits: (Data, nat) -> bool, m: Data) {
    |m| < 4 || HelloFits(fits, m[4..], U24(m[1..4]))
  }

  /** Whether the lengths that have arrived leave room for a name. */
  predicate Fits(d: Data) {
    MessageFits(ExtensionsFit, Stream(d))
  }

  /** The first bytes of a ClientHello, and not all of it. */
  predicate HelloBegins(m: Data) {
    (m != [] ==> m[0] == CLIENT_HELLO) && !Complete(m)
  }

  lemma NameIsHelloOk(message: Data)
    ensures SniOf(message).Some? <==> HelloBody(message).Some? && HelloOk(ExtensionsOk, HelloBody(message).value)
  {
    var hs := HelloBody(message);
    if hs.Some? {
      var extensions := Extensions(hs.value);
      if extensions.Some? { ExtensionsOkExactly(extensions.value); }
    }
  }

  lemma BodyOfMessage(head: Data, u: Data)
    requires |head| == 4 && head[0] == CLIENT_HELLO && |u| == U24(head[1..4])
    ensures var m := head + u; WellFormed(m) && HelloBody(m) == Some(u)
  {
    var m := head + u;
    assert m[1..4] == head[1..4] && m[4..4 + |u|] == u;
  }

  /** A length field that is not all there still leaves room. */
  lemma CompleteMessageHeader(m: Data) returns (head: Data)
    requires |m| < 4 && HelloBegins(m)
    ensures m <= head && |head| == 4 && head[0] == CLIENT_HELLO && U24(head[1..4]) >= 255
  {
    head := m + [CLIENT_HELLO, 0, 0, 255][|m|..];
    assert head[3] == 255;
    assert head[1..4] == [head[1], head[2], head[3]];
  }

  lemma AnythingFits(ok: Data -> bool, fits: (Data, nat) -> bool, least: nat, n: nat)
    requires Decides(ok, fits, least)
    ensures HelloFits(fits, [], n) <==> n >= 40 + least
  {
    if n >= 40 { assert Lengths([]) == 38 && Known([], 40, Room([], n)) == []; }
  }

  /** Every beginning that fits is that of a whole message with a good body. */
  lemma MessageCanCome(ok: Data -> bool, fits: (Data, nat) -> bool, least: nat, m: Data)
    returns (whole: Data, body: Data)
    requires Decides(ok, fits, least) && least <= 200 && HelloBegins(m) && MessageFits(fits, m)
    ensures m <= whole && WellFormed(whole) && HelloBody(whole) == Some(body) && HelloOk(ok, body)
  {
    var head;
    if |m| < 4 {
      head := CompleteMessageHeader(m);
      AnythingFits(ok, fits, least, U24(head[1..4]));
      body := FillHello(ok, fits, least, [], U24(head[1..4]));
    } else {
      head := m[..4];
      assert head[1..4] == m[1..4] && m == head + m[4..];
      body := FillHello(ok, fits, least, m[4..], U24(m[1..4]));
    }
    BodyOfMessage(head, body);
    whole := head + body;
  }

  lemma GoesOnBegins(d: Data)
    requires MightContinue(d)
    ensures GoesOn(Rest(d)) && HelloBegins(Stream(d))
  {
  }

  lemma SniOfWhole(all: Data, whole: Data)
    requires StartsHandshake(all) && all[1] == 3 && Stream(all) == whole
    requires WellFormed(whole) && SniOf(whole).Some?
    ensures Sni(all).Some?
  {
    MessageAtHead(whole, []);
  }

  lemma NamedMessage(m: Data) returns (whole: Data)
    requires HelloBegins(m) && MessageFits(ExtensionsFit, m)
    ensures m <= whole && WellFormed(whole) && SniOf(whole).Some?
  {
    ExtensionsDecide();
    var body;
    whole, body := MessageCanCome(ExtensionsOk, ExtensionsFit, 10, m);
    NameIsHelloOk(whole);
  }

  lemma Continued(d: Data, whole: Data) returns (s: Data)
    requires MightContinue(d) && Stream(d) <= whole
    ensures Stream(d + s) == whole && StartsHandshake(d + s) && (d + s)[1] == 3
  {
    GoesOnBegins(d);
    var m := Stream(d);
    s := StreamCanGrow(d, whole[|m|..]);
    assert m + whole[|m|..] == whole;
    assert |d| >= 2 ==> (d + s)[1] == d[1];
  }

  lemma NameCanCome(d: Data) returns (s: Data)
    requires MightContinue(d) && Fits(d)
    ensures Sni(d + s).Some?
  {
    GoesOnBegins(d);
    var whole := NamedMessage(Stream(d));
    s := Continued(d, whole);
    SniOfWhole(d + s, whole);
  }

  /** A longer body says what a shorter one said. */
  lemma HelloOkGrows(a: Data, b: Data)
    requires a <= b && HelloOk(ExtensionsOk, a)
    ensures HelloOk(ExtensionsOk, b)
  {
    ExtensionsGrow(a, b);
    ExtensionsOkExactly(Extensions(a).value);
    ExtensionsOkExactly(Extensions(b).value);
    FindServerNameGrows(Extensions(a).value, Extensions(b).value);
  }

  lemma BodyIsRest(message: Data)
    requires 4 <= |message| <= Declared(message) && message[0] == CLIENT_HELLO
    ensures HelloBody(message) == Some(message[4..])
  {
    if |message| == Declared(message) { assert message[4..Declared(message)] == message[4..]; }
  }

  lemma MessageForeseen(ok: Data -> bool, fits: (Data, nat) -> bool, least: nat, m: Data, whole: Data, u: Data)
    requires Decides(ok, fits, least) && HelloOk(ok, u)
    requires 4 <= |m| && m <= whole && whole[4..] <= u && |u| == U24(m[1..4])
    ensures MessageFits(fits, m)
  {
    TailPrefix(m, whole, 4);
    HelloForeseen(ok, fits, least, m[4..], u);
  }

  /** The body of a message with a name, at its full length. */
  lemma WholeBody(m: Data, whole: Data) returns (u: Data)
    requires |m| >= 4 && m <= whole && |whole| <= Declared(m) && SniOf(whole).Some?
    ensures whole[4..] <= u && |u| == U24(m[1..4]) && HelloOk(ExtensionsOk, u)
  {
    NameIsHelloOk(whole);
    DeclaredGrows(m, whole);
    BodyIsRest(whole);
    u := whole[4..] + Zeros(Declared(m) - |whole|);
    HelloOkGrows(whole[4..], u);
  }

  lemma NameForeseen(d: Data, s: Data)
    requires MightContinue(d) && Sni(d + s).Some?
    ensures Fits(d)
  {
    var m := Stream(d);
    StreamGrows(d, s);
    if |m| >= 4 {
      var whole := Message(Stream(d + s));
      MessageGrows(m, Stream(d + s));
      DeclaredGrows(m, Stream(d + s));
      var u := WholeBody(m, whole);
      ExtensionsDecide();
      MessageForeseen(ExtensionsOk, ExtensionsFit, 10, m, whole, u);
    }
  }

  /** Exactly when some continuation carries a name. */
  lemma NameCanArrive(d: Data)
    ensures (exists s: Data :: Sni(d + s).Some?) <==> Sni(d).Some? || (MightContinue(d) && Fits(d))
  {
    if Sni(d).Some? {
      assert d + [] == d;
    } else if !MightContinue(d) {
      forall s: Data ensures Sni(d + s).None? { SniIsFinal(d, d + s); }
    } else {
      if Fits(d) { var s := NameCanCome(d); }
      if s: Data :| Sni(d + s).Some? { NameForeseen(d, s); }
    }
  }

  /** The name is there, or none can come any more. */
  predicate SniDecided(d: Data) {
    Sni(d).Some? || !MightContinue(d) || !Fits(d)
  }

  /** Exactly when no continuation changes the answer. */
  lemma SniIsFinalExactly(d: Data)
    ensures SniDecided(d) <==> forall s: Data :: Sni(d + s) == Sni(d)
  {
    NameCanArrive(d);
    if Sni(d).Some? {
      forall s: Data ensures Sni(d + s) == Sni(d) { SniIsStable(d, d + s); }
    }
  }

  /** The probe says yes and no continuation has a name. */
  ghost predicate WrongYes(d: Data) {
    MightContinue(d) && forall s: Data :: Sni(d + s).None?
  }

  lemma WrongYesExactly(d: Data)
    ensures WrongYes(d) <==> MightContinue(d) && Sni(d).None? && !Fits(d)
  {
    NameCanArrive(d);
    assert d + [] == d;
  }

  // ---- Messages too short for any name ----

  lemma NameNeedsRoom(message: Data)
    requires SniOf(message).Some?
    ensures |message| >= 54
  {
    NameIsHelloOk(message);
    var body := HelloBody(message).value;
    ExtensionsDecide();
    HelloForeseen(ExtensionsOk, ExtensionsFit, 10, [], body);
    AnythingFits(ExtensionsOk, ExtensionsFit, 10, |body|);
  }

  lemma WaitsInVain(d: Data, s: Data)
    requires |Stream(d)| >= 4 && Declared(Stream(d)) < 54
    ensures Sni(d + s).None?
  {
    StreamGrows(d, s);
    DeclaredGrows(Stream(d), Stream(d + s));
    var m := Message(Stream(d + s));
    assert |m| < 54;
    if SniOf(m).Some? { NameNeedsRoom(m); }
  }

  /** Such a yes: a record with the message `01 000001`, still short of its one byte. */
  lemma ProbeWaitsForever()
    ensures WrongYes([HANDSHAKE, 3, 1, 0, 4, CLIENT_HELLO, 0, 0, 1])
  {
    var d: Data := [HANDSHAKE, 3, 1, 0, 4, CLIENT_HELLO, 0, 0, 1];
    assert RecordEnd(d) == 9 && d[9..] == [];
    assert Stream(d) == d[5..9] + Stream(d[9..]);
    assert Stream(d) == [CLIENT_HELLO, 0, 0, 1] && Rest(d) == [];
    assert Stream(d)[1..4] == [0, 0, 1];
    forall s: Data ensures Sni(d + s).None? { WaitsInVain(d, s); }
  }
}
