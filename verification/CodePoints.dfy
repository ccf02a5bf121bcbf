/** UTF-8 as an encoding of code points (section 3 of RFC 3629), and white space among them. */
module CodePoints {
  import opened Bytes
  import opened HttpHosts
  import opened Utf8Prefix

  /** The code points that have an encoding: all but the surrogates. */
  type Scalar = c: nat | c <= 0xD7FF || 0xE000 <= c <= 0x10FFFF

  function Tail(c: nat): byte {
    (0x80 + c % 64) as byte
  }

  function Encoding(c: Scalar): Data {
    if c < 0x80 then [c as byte]
    else if c < 0x800 then [(0xC0 + c / 64) as byte, Tail(c)]
    else if c < 0x10000 then [(0xE0 + c / 4096) as byte, Tail(c / 64), Tail(c)]
    else [(0xF0 + c / 262144) as byte, Tail(c / 4096), Tail(c / 64), Tail(c)]
  }

  function EncodingOf(cs: seq<Scalar>): Data {
    if cs == [] then [] else Encoding(cs[0]) + EncodingOf(cs[1..])
  }

  lemma EncodingIsScalar(c: Scalar, rest: Data)
    ensures ScalarLength(Encoding(c) + rest) == |Encoding(c)|
  {
    if c >= 0x10000 {
      assert c / 4096 == 64 * (c / 262144) + c / 4096 % 64;
    } else if c >= 0x800 {
      assert c / 64 == 64 * (c / 4096) + c / 64 % 64;
    }
  }

  lemma TwoBytes(s: Data) returns (c: Scalar)
    requires ScalarLength(s) == 2
    ensures Encoding(c) == s[..2]
  {
    c := (s[0] as int - 0xC0) * 64 + s[1] as int - 0x80;
  }

  lemma LastSixBits(c: nat, high: nat, low: nat)
    requires c == 64 * high + low && low < 64
    ensures c / 64 == high && c % 64 == low
  {
  }

  lemma SixBitsTwice(c: nat)
    ensures c / 4096 == c / 64 / 64 && c / 262144 == c / 64 / 64 / 64
  {
  }

  lemma ThreeBytes(s: Data) returns (c: Scalar)
    requires ScalarLength(s) == 3
    ensures Encoding(c) == s[..3]
  {
    var x, y, z := s[0] as int - 0xE0, s[1] as int - 0x80, s[2] as int - 0x80;
    c := 64 * (64 * x + y) + z;
    LastSixBits(c, 64 * x + y, z);
    LastSixBits(64 * x + y, x, y);
    SixBitsTwice(c);
  }

  lemma FourBytes(s: Data) returns (c: Scalar)
    requires ScalarLength(s) == 4
    ensures Encoding(c) == s[..4]
  {
    var x, y, z, w := s[0] as int - 0xF0, s[1] as int - 0x80, s[2] as int - 0x80, s[3] as int - 0x80;
    c := 64 * (64 * (64 * x + y) + z) + w;
    LastSixBits(c, 64 * (64 * x + y) + z, w);
    LastSixBits(64 * (64 * x + y) + z, 64 * x + y, z);
    LastSixBits(64 * x + y, x, y);
    SixBitsTwice(c);
  }

  lemma ScalarIsEncoding(s: Data) returns (c: Scalar)
    requires ScalarLength(s) > 0
    ensures Encoding(c) == s[..ScalarLength(s)]
  {
    if ScalarLength(s) == 1 {
      c := s[0] as int;
    } else if ScalarLength(s) == 2 {
      c := TwoBytes(s);
    } else if ScalarLength(s) == 3 {
      c := ThreeBytes(s);
    } else {
      c := FourBytes(s);
    }
  }

  lemma {:induction false} EncodingIsText(cs: seq<Scalar>)
    ensures ValidUtf8(EncodingOf(cs))
  {
    if cs != [] {
      var head, rest := Encoding(cs[0]), EncodingOf(cs[1..]);
      EncodingIsText(cs[1..]);
      EncodingIsScalar(cs[0], rest);
      assert (head + rest)[|head|..] == rest;
    }
  }

  lemma {:induction false} TextIsEncoding(s: Data) returns (cs: seq<Scalar>)
    requires ValidUtf8(s)
    ensures EncodingOf(cs) == s
  {
    if s == [] {
      cs := [];
    } else {
      var n := ScalarLength(s);
      var c := ScalarIsEncoding(s);
      var more := TextIsEncoding(s[n..]);
      cs := [c] + more;
      assert s == s[..n] + s[n..];
    }
  }

  /** Bytes are text if and only if they encode code points. */
  lemma TextExactly(s: Data)
    ensures ValidUtf8(s) <==> exists cs :: EncodingOf(cs) == s
  {
    if ValidUtf8(s) { var cs := TextIsEncoding(s); }
    forall cs | EncodingOf(cs) == s ensures ValidUtf8(s) { EncodingIsText(cs); }
  }

  /** The code points with the property White_Space. */
  predicate White(c: nat) {
    || 9 <= c <= 13 || c == 0x20 || c == 0x85 || c == 0xA0 || c == 0x1680 || 0x2000 <= c <= 0x200A
    || c == 0x2028 || c == 0x2029 || c == 0x202F || c == 0x205F || c == 0x3000
  }

  lemma WhiteExactly(c: Scalar)
    ensures IsSpace(Encoding(c)) <==> White(c)
  {
  }

  lemma WhiteStarts(c: Scalar, rest: Data)
    ensures TrimStart(Encoding(c) + rest) == if White(c) then TrimStart(rest) else Encoding(c) + rest
  {
    EncodingIsScalar(c, rest);
    var n, s := |Encoding(c)|, Encoding(c) + rest;
    WhiteExactly(c);
    assert s[..n] == Encoding(c) && s[n..] == rest;
  }

  /** The last bytes of `s` are those of `code`, which begins with the only byte of it that can begin a scalar. */
  ghost predicate EndsWith(s: Data, code: Data) {
    1 <= |code| <= |s| && s[|s| - |code|..] == code && forall i :: 1 <= i < |code| ==> Continuation(code[i])
  }

  lemma LastSpace1(s: Data, a: byte)
    requires s != [] && s[|s| - 1] == a && a < 0x80
    ensures LastSpace(s) == if Space1(a) then 1 else 0
  {
  }

  lemma LastSpace2(s: Data, a: byte, b: byte)
    requires |s| >= 2 && s[|s| - 2] == a && s[|s| - 1] == b && !Continuation(a) && Continuation(b)
    ensures LastSpace(s) == if Space2(a, b) then 2 else 0
  {
  }

  lemma LastSpace3(s: Data, a: byte, b: byte, c: byte)
    requires |s| >= 3 && s[|s| - 3] == a && s[|s| - 2] == b && s[|s| - 1] == c && Continuation(b) && Continuation(c)
    ensures LastSpace(s) == if Space3(a, b, c) then 3 else 0
  {
  }

  lemma EndByte(s: Data, code: Data, i: nat)
    requires EndsWith(s, code) && i < |code|
    ensures s[|s| - |code| + i] == code[i]
  {
    assert s[|s| - |code|..][i] == code[i];
  }

  lemma LastSpaceOne(s: Data, code: Data)
    requires EndsWith(s, code) && |code| == 1 && code[0] < 0x80
    ensures LastSpace(s) == if IsSpace(code) then 1 else 0
  {
    EndByte(s, code, 0);
    LastSpace1(s, code[0]);
  }

  lemma LastSpaceTwo(s: Data, code: Data)
    requires EndsWith(s, code) && |code| == 2 && !Continuation(code[0])
    ensures LastSpace(s) == if IsSpace(code) then 2 else 0
  {
    EndByte(s, code, 0);
    EndByte(s, code, 1);
    LastSpace2(s, code[0], code[1]);
  }

  lemma LastSpaceLong(s: Data, code: Data)
    requires EndsWith(s, code) && 3 <= |code| <= 4
    ensures LastSpace(s) == if IsSpace(code) then |code| else 0
  {
    var n := |code|;
    EndByte(s, code, n - 3);
    EndByte(s, code, n - 2);
    EndByte(s, code, n - 1);
    LastSpace3(s, code[n - 3], code[n - 2], code[n - 1]);
  }

  lemma EncodingEnds(front: Data, c: Scalar)
    ensures EndsWith(front + Encoding(c), Encoding(c)) && !Continuation(Encoding(c)[0])
  {
  }

  lemma WhiteEnds(front: Data, c: Scalar)
    ensures TrimEnd(front + Encoding(c)) == if White(c) then TrimEnd(front) else front + Encoding(c)
  {
    var s, code := front + Encoding(c), Encoding(c);
    EncodingEnds(front, c);
    if |code| == 1 {
      LastSpaceOne(s, code);
    } else if |code| == 2 {
      LastSpaceTwo(s, code);
    } else {
      LastSpaceLong(s, code);
    }
    WhiteExactly(c);
    assert s[..|s| - |code|] == front;
  }

  lemma {:induction false} EncodingOfBoth(a: seq<Scalar>, b: seq<Scalar>)
    ensures EncodingOf(a + b) == EncodingOf(a) + EncodingOf(b)
  {
    if a == [] {
      assert a + b == b;
    } else {
      assert (a + b)[1..] == a[1..] + b;
      EncodingOfBoth(a[1..], b);
      Assoc(Encoding(a[0]), EncodingOf(a[1..]), EncodingOf(b));
    }
  }

  predicate AllWhite(cs: seq<Scalar>) {
    forall i :: 0 <= i < |cs| ==> White(cs[i])
  }

  lemma {:induction false} FrontTrimmed(front: seq<Scalar>, text: seq<Scalar>)
    requires AllWhite(front) && (text != [] ==> !White(text[0]))
    ensures TrimStart(EncodingOf(front + text)) == EncodingOf(text)
  {
    if front == [] {
      assert front + text == text;
      if text != [] { WhiteStarts(text[0], EncodingOf(text[1..])); }
    } else {
      assert (front + text)[1..] == front[1..] + text;
      WhiteStarts(front[0], EncodingOf(front[1..] + text));
      FrontTrimmed(front[1..], text);
    }
  }

  lemma NothingMore(code: Data)
    ensures code + [] == code
  {
  }

  lemma EncodingOfOne(c: Scalar)
    ensures EncodingOf([c]) == Encoding(c)
  {
    NothingMore(Encoding(c));
    assert [c][1..] == [];
  }

  lemma EncodingOfLast(cs: seq<Scalar>)
    requires cs != []
    ensures EncodingOf(cs) == EncodingOf(cs[..|cs| - 1]) + Encoding(cs[|cs| - 1])
  {
    var n := |cs| - 1;
    assert cs == cs[..n] + [cs[n]];
    EncodingOfBoth(cs[..n], [cs[n]]);
    EncodingOfOne(cs[n]);
  }

  lemma {:induction false} BackTrimmed(text: seq<Scalar>, back: seq<Scalar>)
    requires AllWhite(back) && (text != [] ==> !White(text[|text| - 1]))
    ensures TrimEnd(EncodingOf(text + back)) == EncodingOf(text)
    decreases |back|
  {
    var all := text + back;
    if all != [] {
      var n := |all| - 1;
      EncodingOfLast(all);
      WhiteEnds(EncodingOf(all[..n]), all[n]);
      if back == [] {
        assert all == text;
      } else {
        assert all[..n] == text + back[..|back| - 1];
        BackTrimmed(text, back[..|back| - 1]);
      }
    } else {
      assert text == [];
    }
  }

  /** Trimming text drops the white space at both ends, and nothing else. */
  lemma TrimmedExactly(front: seq<Scalar>, text: seq<Scalar>, back: seq<Scalar>)
    requires AllWhite(front) && AllWhite(back)
    requires text != [] ==> !White(text[0]) && !White(text[|text| - 1])
    ensures TrimEnd(TrimStart(EncodingOf(front + (text + back)))) == EncodingOf(text)
  {
    if text == [] {
      assert front + (text + back) == (front + back) + [];
      FrontTrimmed(front + back, []);
    } else {
      FrontTrimmed(front, text + back);
      BackTrimmed(text, back);
    }
  }
}
