/** Where an HTTP head ends: the first CRLF CRLF. */
module HeaderEnd {
  import opened Wrappers
  import opened Bytes

  /** The four bytes before offset `e` are CRLF CRLF. */
  predicate EndsAt(s: Data, e: int) {
    4 <= e <= |s| && s[e - 4] == CR && s[e - 3] == LF && s[e - 2] == CR && s[e - 1] == LF
  }

  /** CR LF CR LF begins at `i`. */
  predicate BlankAt(s: Data, i: nat) {
    i + 4 <= |s| && s[i] == 13 && s[i + 1] == 10 && s[i + 2] == 13 && s[i + 3] == 10
  }

  lemma EndsInBytes(s: Data, e: nat)
    ensures EndsAt(s, e) <==> e >= 4 && BlankAt(s, e - 4)
  {
  }

  function FirstEndFrom(s: Data, k: nat): (r: Option<nat>)
    requires k <= |s| + 1
    ensures r.Some? ==> k <= r.value && EndsAt(s, r.value) && forall j :: k <= j < r.value ==> !EndsAt(s, j)
    ensures r.None? ==> forall j :: k <= j ==> !EndsAt(s, j)
    decreases |s| + 1 - k
  {
    if k > |s| then None else if EndsAt(s, k) then Some(k) else FirstEndFrom(s, k + 1)
  }

  /** The offset just past the first CRLF CRLF. */
  function FirstEnd(s: Data): Option<nat> {
    FirstEndFrom(s, 0)
  }

  lemma IsFirstEnd(s: Data, e: nat)
    requires EndsAt(s, e) && forall j :: 0 <= j < e ==> !EndsAt(s, j)
    ensures FirstEnd(s) == Some(e)
  {
  }

  lemma EndsAtPrefix(s: Data, t: Data, e: int)
    requires s <= t && e <= |s|
    ensures EndsAt(s, e) <==> EndsAt(t, e)
  {
  }

  /** The windows scan: the position of the first CRLF CRLF. */
  method FindHeaderEnd(buf: Data) returns (pos: Option<nat>)
    ensures pos.Some? <==> FirstEnd(buf).Some?
    ensures pos.Some? ==> FirstEnd(buf) == Some(pos.value + 4)
  {
    for i := 0 to |buf|
      invariant forall j :: j < i + 4 ==> !EndsAt(buf, j)
    {
      if i + 4 <= |buf| && buf[i] == CR && buf[i + 1] == LF && buf[i + 2] == CR && buf[i + 3] == LF {
        assert EndsAt(buf, i + 4);
        return Some(i);
      }
    }
    return None;
  }

  function Shifted(e: Option<nat>, from: nat): Option<nat> {
    if e.Some? then Some(from + e.value) else None
  }

  lemma EndsInWindow(s: Data, from: nat, j: int)
    requires from <= |s| && j >= from + 4
    ensures EndsAt(s, j) <==> EndsAt(s[from..], j - from)
  {
  }

  /** With no end in the first `from + 3` bytes, the first end of the whole is that of the window. */
  lemma WindowScan(s: Data, from: nat)
    requires from <= |s| && forall j :: 0 <= j <= from + 3 ==> !EndsAt(s, j)
    ensures FirstEnd(s) == Shifted(FirstEnd(s[from..]), from)
  {
    var e := FirstEnd(s[from..]);
    forall j | 0 <= j && (e.Some? ==> j < from + e.value) ensures !EndsAt(s, j) {
      if j > from + 3 { EndsInWindow(s, from, j); }
    }
    if e.Some? {
      EndsInWindow(s, from, from + e.value);
      IsFirstEnd(s, from + e.value);
    }
  }

  /**
   * Nothing ends inside the bytes scanned before, so re-scanning the last three
   * of them together with the new ones finds the first end of the whole.
   */
  lemma OverlapScan(kept: Data, added: Data)
    requires forall j :: 0 <= j <= |kept| ==> !EndsAt(kept, j)
    ensures var from := if |kept| < 3 then 0 else |kept| - 3;
      FirstEnd(kept + added) == Shifted(FirstEnd((kept + added)[from..]), from)
  {
    var from := if |kept| < 3 then 0 else |kept| - 3;
    forall j | 0 <= j <= from + 3 ensures !EndsAt(kept + added, j) {
      if j <= |kept| { EndsAtPrefix(kept, kept + added, j); }
    }
    WindowScan(kept + added, from);
  }
}
