/**
 * Lists of typed, length-prefixed entries, as TLS nests them: each entry is a
 * type of some width, a length in two bytes and a payload, and the first entry
 * of type zero decides. What is known of such a list when only its first bytes
 * have arrived: whether the rest of its room can still be filled so that it is
 * good.
 */
module Entries {
  import opened Wrappers
  import opened Bytes

  function Zeros(n: nat): Data {
    seq(n, _ => 0)
  }

  predicate AllZero(s: Data) {
    forall i :: 0 <= i < |s| ==> s[i] == 0
  }

  /** The part of `s[from..from + len]` that is there. */
  function Known(s: Data, from: nat, len: nat): (k: Data)
    ensures |k| <= len && |k| <= |s|
  {
    if from >= |s| then [] else if from + len <= |s| then s[from..from + len] else s[from..]
  }

  /** The least number that begins with these bytes of two. */
  function Least(f: Data): (n: nat)
    requires |f| <= 2
    ensures n <= 0xFFFF && (|f| < 2 ==> n <= 0xFF00)
  {
    if f == [] then 0 else if |f| == 1 then f[0] as nat * 256 else U16(f)
  }

  /** The greatest one. */
  function Most(f: Data): (n: nat)
    requires |f| <= 2
    ensures Least(f) <= n <= 0xFFFF
  {
    if f == [] then 0xFFFF else if |f| == 1 then f[0] as nat * 256 + 255 else U16(f)
  }

  function Number(n: nat): Data
    requires n <= 0xFFFF
  {
    [(n / 256) as byte, (n % 256) as byte]
  }

  lemma LeastToMost(f: Data, g: Data)
    requires f <= g && |g| == 2
    ensures Least(f) <= U16(g) <= Most(f)
  {
  }

  /** Every number in between begins with these bytes, as far as it is used. */
  lemma NumberBegins(f: Data, n: nat)
    requires |f| < 2 && (if f == [] then n <= 0xFFFF else n / 256 == f[0] as nat)
    ensures n <= 0xFFFF && f <= Number(n) && U16(Number(n)) == n
  {
  }

  // ---- Filling up ----

  /** `s` is the beginning of something of `n` bytes that is good. */
  ghost predicate Fillable(ok: Data -> bool, s: Data, n: nat) {
    exists u :: Fills(ok, s, n, u)
  }

  ghost predicate Fills(ok: Data -> bool, s: Data, n: nat, u: Data) {
    s <= u && |u| == n && ok(u)
  }

  /** `fits` answers whether a beginning can be filled up; from nothing, it can when there are `least` bytes of room. */
  ghost predicate Decides(ok: Data -> bool, fits: (Data, nat) -> bool, least: nat) {
    && (forall s: Data, n: nat :: |s| <= n ==> (fits(s, n) <==> Fillable(ok, s, n)))
    && (forall n: nat :: fits([], n) <==> least <= n)
    && least <= 255
  }

  lemma LeastRoom(ok: Data -> bool, fits: (Data, nat) -> bool, least: nat, u: Data)
    requires Decides(ok, fits, least) && ok(u)
    ensures |u| >= least
  {
    assert Fills(ok, [], |u|, u);
    assert fits([], |u|);
  }

  lemma FromNothing(ok: Data -> bool, fits: (Data, nat) -> bool, least: nat, n: nat) returns (x: Data)
    requires Decides(ok, fits, least) && least <= n
    ensures |x| == n && ok(x)
  {
    assert fits([], n);
    x :| Fills(ok, [], n, x);
  }

  /** Put `x` where only its beginning is known, and fill up with zeros. */
  lemma FillSlot(s: Data, from: nat, x: Data, n: nat) returns (u: Data)
    requires from <= |s| <= n && from + |x| <= n && Known(s, from, |x|) <= x
    ensures s <= u && |u| == n && u[..from] == s[..from] && u[from..from + |x|] == x
  {
    if from + |x| <= |s| {
      u := s + Zeros(n - |s|);
      assert Known(s, from, |x|) == x;
    } else {
      u := s[..from] + x + Zeros(n - from - |x|);
      assert s == s[..from] + s[from..];
    }
  }

  // ---- Entries ----

  /** The first entry of type zero is whole and good, and so are the lengths of those before it. */
  predicate Holds(w: nat, ok: Data -> bool, s: Data) {
    |s| >= w + 2 &&
    var end := w + 2 + U16(s[w..w + 2]);
    end <= |s| && if AllZero(s[..w]) then ok(s[w + 2..end]) else Holds(w, ok, s[end..])
  }

  /** Whether a list of which `s` has arrived can still hold, in `n` bytes. */
  predicate EntriesFit(w: nat, fits: (Data, nat) -> bool, least: nat, s: Data, n: nat) {
    if |s| < w + 2 then
      // The header is incomplete: the shortest entry it can still become.
      var len := Least(Known(s, w, 2));
      if AllZero(Known(s, 0, w)) then w + 2 + Max(len, least) <= n else w + 2 + len + (w + 2 + least) <= n
    else
      var len := U16(s[w..w + 2]);
      var end := w + 2 + len;
      && end <= n
      && if AllZero(s[..w]) then fits(Known(s, w + 2, len), len)
         else if end <= |s| then EntriesFit(w, fits, least, s[end..], n - end)
         else end + (w + 2 + least) <= n
  }

  lemma PrefixSlice(s: Data, u: Data, from: nat, to: nat)
    requires s <= u && from <= to <= |s|
    ensures u[from..to] == s[from..to]
  {
  }

  lemma KnownPrefix(s: Data, u: Data, from: nat, len: nat)
    requires s <= u && from + len <= |u|
    ensures Known(s, from, len) <= u[from..from + len]
  {
  }

  /** Whatever holds has room for one least entry. */
  lemma {:induction false} HoldsNeedsRoom(w: nat, ok: Data -> bool, fits: (Data, nat) -> bool, least: nat, u: Data)
    requires Decides(ok, fits, least) && Holds(w, ok, u)
    ensures |u| >= w + 2 + least
    decreases |u|
  {
    var end := w + 2 + U16(u[w..w + 2]);
    if AllZero(u[..w]) {
      LeastRoom(ok, fits, least, u[w + 2..end]);
    } else {
      HoldsNeedsRoom(w, ok, fits, least, u[end..]);
    }
  }

  // What holds was foreseen.

  lemma HeaderForeseen(w: nat, ok: Data -> bool, fits: (Data, nat) -> bool, least: nat, s: Data, u: Data)
    requires Decides(ok, fits, least) && Holds(w, ok, u) && s <= u && |s| < w + 2
    ensures EntriesFit(w, fits, least, s, |u|)
  {
    var len := U16(u[w..w + 2]);
    var end := w + 2 + len;
    KnownPrefix(s, u, w, 2);
    LeastToMost(Known(s, w, 2), u[w..w + 2]);
    KnownPrefix(s, u, 0, w);
    assert u[0..w] == u[..w];
    if AllZero(u[..w]) {
      LeastRoom(ok, fits, least, u[w + 2..end]);
    } else {
      HoldsNeedsRoom(w, ok, fits, least, u[end..]);
    }
  }

  lemma PayloadForeseen(w: nat, ok: Data -> bool, fits: (Data, nat) -> bool, least: nat, s: Data, u: Data, len: nat)
    requires Decides(ok, fits, least) && s <= u && w + 2 <= |s| && w + 2 + len <= |u|
    requires ok(u[w + 2..w + 2 + len])
    ensures fits(Known(s, w + 2, len), len)
  {
    KnownPrefix(s, u, w + 2, len);
    assert Fills(ok, Known(s, w + 2, len), len, u[w + 2..w + 2 + len]);
  }

  lemma TailPrefix(s: Data, u: Data, end: nat)
    requires s <= u && end <= |s|
    ensures s[end..] <= u[end..]
  {
  }

  lemma {:induction false} HoldsForeseen(w: nat, ok: Data -> bool, fits: (Data, nat) -> bool, least: nat,
                                         s: Data, u: Data)
    requires Decides(ok, fits, least) && Holds(w, ok, u) && s <= u
    ensures EntriesFit(w, fits, least, s, |u|)
    decreases |u|
  {
    if |s| < w + 2 {
      HeaderForeseen(w, ok, fits, least, s, u);
    } else {
      var len := U16(s[w..w + 2]);
      var end := w + 2 + len;
      PrefixSlice(s, u, w, w + 2);
      PrefixSlice(s, u, 0, w);
      assert s[0..w] == s[..w] && u[0..w] == u[..w];
      if AllZero(s[..w]) {
        PayloadForeseen(w, ok, fits, least, s, u, len);
      } else if end <= |s| {
        TailPrefix(s, u, end);
        HoldsForeseen(w, ok, fits, least, s[end..], u[end..]);
      } else {
        HoldsNeedsRoom(w, ok, fits, least, u[end..]);
      }
    }
  }

  // What is foreseen can be made to hold.

  /** With its header whole, an entry of type zero whose payload can be filled. */
  lemma FillEntry(w: nat, ok: Data -> bool, s: Data, n: nat, x: Data) returns (u: Data)
    requires w + 2 <= |s| <= n && AllZero(s[..w]) && |x| == U16(s[w..w + 2]) && w + 2 + |x| <= n
    requires Known(s, w + 2, |x|) <= x && ok(x)
    ensures s <= u && |u| == n && Holds(w, ok, u)
  {
    u := FillSlot(s, w + 2, x, n);
    PrefixSlice(s, u, w, w + 2);
    PrefixSlice(s, u, 0, w);
  }

  /** An entry of another type, followed by something that holds. */
  lemma SkipEntry(w: nat, ok: Data -> bool, head: Data, u: Data)
    requires |head| >= w + 2 && |head| == w + 2 + U16(head[w..w + 2]) && !AllZero(head[..w])
    ensures Holds(w, ok, head + u) <==> Holds(w, ok, u)
  {
    var all := head + u;
    PrefixSlice(head, all, w, w + 2);
    PrefixSlice(head, all, 0, w);
    assert all[|head|..] == u;
  }

  lemma Halves(a: Data, b: Data)
    ensures (a + b)[..|a|] == a && (a + b)[|a|..|a| + |b|] == b
  {
  }

  /** A least entry of type zero, filled up with zeros. */
  lemma LeastEntry(w: nat, ok: Data -> bool, fits: (Data, nat) -> bool, least: nat, n: nat) returns (u: Data)
    requires Decides(ok, fits, least) && w + 2 + least <= n
    ensures |u| == n && Holds(w, ok, u)
  {
    var x := FromNothing(ok, fits, least, least);
    var head := Zeros(w) + Number(least);
    Halves(Zeros(w), Number(least));
    NumberBegins([], least);
    u := FillEntry(w, ok, head, n, x);
  }

  /** A header with a given length. */
  lemma CompleteHeader(w: nat, s: Data, len: nat) returns (h: Data)
    requires |s| < w + 2
    requires var f := Known(s, w, 2); if f == [] then len <= 0xFFFF else len / 256 == f[0] as nat
    ensures s <= h && |h| == w + 2 && U16(h[w..w + 2]) == len
    ensures AllZero(h[..w]) <==> AllZero(Known(s, 0, w))
  {
    var kind := Known(s, 0, w);
    NumberBegins(Known(s, w, 2), len);
    var padded := kind + Zeros(w - |kind|);
    h := padded + Number(len);
    Halves(padded, Number(len));
    assert forall i :: 0 <= i < |kind| ==> padded[i] == kind[i];
    assert s == kind + Known(s, w, 2);
  }

  lemma FillHeader(w: nat, ok: Data -> bool, fits: (Data, nat) -> bool, least: nat, s: Data, n: nat) returns (u: Data)
    requires Decides(ok, fits, least) && |s| < w + 2 && EntriesFit(w, fits, least, s, n)
    ensures s <= u && |u| == n && Holds(w, ok, u)
  {
    var len := Least(Known(s, w, 2));
    if AllZero(Known(s, 0, w)) {
      var h := CompleteHeader(w, s, Max(len, least));
      var x := FromNothing(ok, fits, least, Max(len, least));
      u := FillEntry(w, ok, h, n, x);
    } else {
      var h := CompleteHeader(w, s, len);
      u := PastEntry(w, ok, fits, least, h, n);
    }
  }

  /** With its header whole, an entry of another type that was not seen to its end. */
  lemma PastEntry(w: nat, ok: Data -> bool, fits: (Data, nat) -> bool, least: nat, s: Data, n: nat) returns (u: Data)
    requires Decides(ok, fits, least) && |s| >= w + 2 && !AllZero(s[..w])
    requires |s| <= w + 2 + U16(s[w..w + 2]) && w + 2 + U16(s[w..w + 2]) + (w + 2 + least) <= n
    ensures s <= u && |u| == n && Holds(w, ok, u)
  {
    var end := w + 2 + U16(s[w..w + 2]);
    var head := s + Zeros(end - |s|);
    PrefixSlice(s, head, w, w + 2);
    PrefixSlice(s, head, 0, w);
    var more := LeastEntry(w, ok, fits, least, n - end);
    SkipEntry(w, ok, head, more);
    u := head + more;
  }

  /** An entry of another type, seen to its end, and more that holds and goes on as the list does. */
  lemma AfterEntry(w: nat, ok: Data -> bool, s: Data, end: nat, more: Data) returns (u: Data)
    requires w + 2 <= |s| && end == w + 2 + U16(s[w..w + 2]) <= |s| && !AllZero(s[..w])
    requires s[end..] <= more && Holds(w, ok, more)
    ensures s <= u && |u| == end + |more| && Holds(w, ok, u)
  {
    var head := s[..end];
    u := head + more;
    assert s == head + s[end..];
    PrefixSlice(head, s, w, w + 2);
    PrefixSlice(head, s, 0, w);
    SkipEntry(w, ok, head, more);
  }

  lemma FillPayload(w: nat, ok: Data -> bool, fits: (Data, nat) -> bool, least: nat, s: Data, n: nat)
    returns (u: Data)
    requires Decides(ok, fits, least) && w + 2 <= |s| <= n && AllZero(s[..w])
    requires EntriesFit(w, fits, least, s, n)
    ensures s <= u && |u| == n && Holds(w, ok, u)
  {
    var len := U16(s[w..w + 2]);
    var x :| Fills(ok, Known(s, w + 2, len), len, x);
    u := FillEntry(w, ok, s, n, x);
  }

  lemma {:induction false} FitsFilled(w: nat, ok: Data -> bool, fits: (Data, nat) -> bool, least: nat,
                                      s: Data, n: nat) returns (u: Data)
    requires Decides(ok, fits, least) && |s| <= n && EntriesFit(w, fits, least, s, n)
    ensures s <= u && |u| == n && Holds(w, ok, u)
    decreases |s|
  {
    if |s| < w + 2 {
      u := FillHeader(w, ok, fits, least, s, n);
    } else {
      var len := U16(s[w..w + 2]);
      var end := w + 2 + len;
      if AllZero(s[..w]) {
        u := FillPayload(w, ok, fits, least, s, n);
      } else if end <= |s| {
        var more := FitsFilled(w, ok, fits, least, s[end..], n - end);
        u := AfterEntry(w, ok, s, end, more);
      } else {
        u := PastEntry(w, ok, fits, least, s, n);
      }
    }
  }

  /**
   * One layer more: if `fits` decides whether payloads can be filled up, then
   * `EntriesFit` decides it for lists of entries.
   */
  lemma EntriesDecide(w: nat, ok: Data -> bool, fits: (Data, nat) -> bool, least: nat,
                      all: Data -> bool, allFit: (Data, nat) -> bool)
    requires Decides(ok, fits, least) && w + 2 + least <= 255
    requires forall s: Data :: all(s) <==> Holds(w, ok, s)
    requires forall s: Data, n: nat :: allFit(s, n) <==> EntriesFit(w, fits, least, s, n)
    ensures Decides(all, allFit, w + 2 + least)
  {
    forall s: Data, n: nat | |s| <= n ensures allFit(s, n) <==> Fillable(all, s, n) {
      if allFit(s, n) {
        var u := FitsFilled(w, ok, fits, least, s, n);
        assert Fills(all, s, n, u);
      }
      if Fillable(all, s, n) {
        var u :| Fills(all, s, n, u);
        HoldsForeseen(w, ok, fits, least, s, u);
      }
    }
  }
}
