/** Bytes, big-endian numbers and UTF-8 well-formedness. */
module Bytes {
  import opened Wrappers

  newtype byte = x: int | 0 <= x < 256

  type Data = seq<byte>

  const CR: byte := 13
  const LF: byte := 10

  function U16(b: Data): nat
    requires |b| == 2
  {
    b[0] as nat * 256 + b[1] as nat
  }

  function U24(b: Data): nat
    requires |b| == 3
  {
    b[0] as nat * 65536 + b[1] as nat * 256 + b[2] as nat
  }

  /** `slice.get(from..to)`: `None` when the range does not fit. */
  function Get(s: Data, from: nat, to: nat): Option<Data> {
    if from <= to <= |s| then Some(s[from..to]) else None
  }

  lemma Assoc(a: Data, b: Data, c: Data)
    ensures a + (b + c) == a + b + c
  {
  }

  lemma TakeWithin(a: Data, b: Data, n: nat)
    requires n <= |b|
    ensures (a + b)[..|a| + n] == a + b[..n]
  {
  }

  lemma DropWithin(a: Data, b: Data, n: nat)
    requires n <= |a|
    ensures (a + b)[n..] == a[n..] + b
  {
  }

  lemma SliceJoin(s: Data, a: nat, b: nat, c: nat)
    requires a <= b <= c <= |s|
    ensures s[a..b] + s[b..c] == s[a..c]
  {
  }

  function Concat(parts: seq<Data>): Data {
    if parts == [] then [] else parts[0] + Concat(parts[1..])
  }

  predicate Continuation(b: byte) {
    0x80 <= b <= 0xBF
  }

  /** Length of the UTF-8 scalar at the head of `s`, or 0 when there is none. */
  function ScalarLength(s: Data): (n: nat)
    ensures n <= |s|
  {
    if |s| >= 1 && s[0] <= 0x7F then 1
    else if |s| >= 2 && 0xC2 <= s[0] <= 0xDF && Continuation(s[1]) then 2
    else if |s| >= 3 && Continuation(s[1]) && Continuation(s[2])
      && ((s[0] == 0xE0 && s[1] >= 0xA0) || 0xE1 <= s[0] <= 0xEC || (s[0] == 0xED && s[1] <= 0x9F)
          || 0xEE <= s[0] <= 0xEF) then 3
    else if |s| >= 4 && Continuation(s[1]) && Continuation(s[2]) && Continuation(s[3])
      && ((s[0] == 0xF0 && s[1] >= 0x90) || 0xF1 <= s[0] <= 0xF3 || (s[0] == 0xF4 && s[1] <= 0x8F)) then 4
    else 0
  }

  /** `std::str::from_utf8(s).is_ok()`. */
  predicate ValidUtf8(s: Data) {
    s != [] ==> ScalarLength(s) > 0 && ValidUtf8(s[ScalarLength(s)..])
  }

  predicate IsAscii(s: Data) {
    forall i :: 0 <= i < |s| ==> s[i] < 0x80
  }

  lemma {:induction false} AsciiIsUtf8(s: Data)
    requires IsAscii(s)
    ensures ValidUtf8(s)
  {
    if s != [] { AsciiIsUtf8(s[1..]); }
  }

  predicate IsDigit(b: byte) {
    48 <= b <= 57
  }

  function LowerByte(b: byte): byte {
    if 65 <= b <= 90 then b + 32 else b
  }

  /** `to_ascii_lowercase`. */
  function Lowercase(s: Data): Data {
    seq(|s|, i requires 0 <= i < |s| => LowerByte(s[i]))
  }

  /** The same byte, or the same ASCII letter in the other case. */
  predicate SameLetter(a: byte, b: byte) {
    a == b || (65 <= a <= 90 && b == a + 32) || (65 <= b <= 90 && a == b + 32)
  }

  predicate SameUpToCase(s: Data, t: Data) {
    |s| == |t| && forall i :: 0 <= i < |s| ==> SameLetter(s[i], t[i])
  }

  /** Lower case is one of the spellings that differ in the case of ASCII letters only, and the same for all of them. */
  lemma LowercaseExactly(s: Data, t: Data)
    ensures SameUpToCase(s, Lowercase(s)) && forall b :: b in Lowercase(s) ==> !(65 <= b <= 90)
    ensures Lowercase(s) == Lowercase(t) <==> SameUpToCase(s, t)
  {
    if Lowercase(s) == Lowercase(t) {
      assert |s| == |t|;
      forall i | 0 <= i < |s| ensures SameLetter(s[i], t[i]) {
        assert Lowercase(s)[i] == Lowercase(t)[i];
      }
    }
  }
}
