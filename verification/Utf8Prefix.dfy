/** Which byte strings can still become UTF-8 when more bytes arrive. */
module Utf8Prefix {
  import opened Bytes

  /** A scalar cut short: its first one, two or three bytes. */
  predicate Incomplete(s: Data) {
    && 1 <= |s| <= 3 && 0xC2 <= s[0] <= 0xF4
    && (|s| >= 2 ==> s[0] >= 0xE0 && ScalarLength(s[..2] + LastBytes(s[0])) > 0)
    && (|s| == 3 ==> s[0] >= 0xF0 && Continuation(s[2]))
  }

  /** Continuation bytes enough for the third and fourth places of a scalar with this lead. */
  function LastBytes(lead: byte): Data {
    if lead < 0xF0 then [0x80] else [0x80, 0x80]
  }

  /** Scalars, then perhaps one cut short. */
  predicate Completable(s: Data) {
    s == [] || Incomplete(s) || (ScalarLength(s) > 0 && Completable(s[ScalarLength(s)..]))
  }

  /** The missing bytes of a scalar cut short. */
  function Missing(s: Data): Data
    requires Incomplete(s)
  {
    if |s| == 3 then [0x80]
    else if |s| == 2 then LastBytes(s[0])
    else if s[0] < 0xE0 then [0x80]
    else [if s[0] == 0xE0 then 0xA0 else if s[0] == 0xF0 then 0x90 else 0x80] + LastBytes(s[0])
  }

  /** Bytes that complete `s`, none of them ASCII. */
  function Completion(s: Data): (c: Data)
    requires Completable(s)
    ensures forall i :: 0 <= i < |c| ==> c[i] >= 0x80
  {
    if s == [] then [] else if Incomplete(s) then Missing(s) else Completion(s[ScalarLength(s)..])
  }

  lemma ScalarPrefix(s: Data, t: Data)
    requires ScalarLength(s) > 0 && s[..ScalarLength(s)] <= t
    ensures ScalarLength(t) == ScalarLength(s)
  {
    var n := ScalarLength(s);
    assert forall i :: 0 <= i < n ==> t[i] == s[..n][i];
  }

  lemma MissingCompletes(s: Data)
    requires Incomplete(s)
    ensures ScalarLength(s + Missing(s)) == |s + Missing(s)| && s != []
  {
  }

  lemma OneScalar(s: Data)
    requires ScalarLength(s) == |s|
    ensures ValidUtf8(s)
  {
    assert s[|s|..] == [];
  }

  lemma ScalarThenText(s: Data, more: Data)
    requires ScalarLength(s) > 0 && ValidUtf8(s[ScalarLength(s)..] + more)
    ensures ValidUtf8(s + more)
  {
    var n := ScalarLength(s);
    ScalarPrefix(s, s + more);
    assert (s + more)[n..] == s[n..] + more;
  }

  lemma {:induction false} CompletionCompletes(s: Data)
    requires Completable(s)
    ensures ValidUtf8(s + Completion(s))
  {
    if s == [] {
    } else if Incomplete(s) {
      MissingCompletes(s);
      OneScalar(s + Missing(s));
    } else {
      CompletionCompletes(s[ScalarLength(s)..]);
      ScalarThenText(s, Completion(s));
    }
  }

  lemma {:induction false} Utf8Append(a: Data, b: Data)
    requires ValidUtf8(a) && ValidUtf8(b)
    ensures ValidUtf8(a + b)
  {
    if a == [] {
      assert a + b == b;
    } else {
      Utf8Append(a[ScalarLength(a)..], b);
      ScalarThenText(a, b);
    }
  }

  /** Only completable strings begin UTF-8. */
  lemma {:induction false} PrefixIsCompletable(s: Data, more: Data)
    requires ValidUtf8(s + more)
    ensures Completable(s)
  {
    var t := s + more;
    if s != [] {
      var n := ScalarLength(t);
      if n <= |s| {
        assert t[..n] == s[..n];
        ScalarPrefix(t, s);
        assert t[n..] == s[n..] + more;
        PrefixIsCompletable(s[n..], more);
      } else {
        CutScalar(t, |s|);
        assert t[..|s|] == s;
      }
    }
  }

  lemma CutScalar(t: Data, k: nat)
    requires 0 < k < ScalarLength(t)
    ensures Incomplete(t[..k])
  {
    var s := t[..k];
    if k >= 2 {
      var u := s[..2] + LastBytes(s[0]);
      assert u[0] == t[0] && u[1] == t[1];
    }
  }

  /** No shorter string completes `s` than its completion. */
  lemma {:induction false} CompletionIsShortest(s: Data, more: Data)
    requires ValidUtf8(s + more) && Completable(s)
    ensures |Completion(s)| <= |more|
  {
    var t := s + more;
    if s == [] {
    } else if ScalarLength(s) > 0 {
      var n := ScalarLength(s);
      ScalarPrefix(s, t);
      DropWithin(s, more, n);
      NotIncomplete(s);
      CompletionIsShortest(s[n..], more);
    } else {
      assert Incomplete(s);
      MissingIsLeast(s, t);
    }
  }

  lemma NotIncomplete(s: Data)
    requires ScalarLength(s) > 0
    ensures !Incomplete(s)
  {
  }

  lemma MissingIsLeast(s: Data, t: Data)
    requires Incomplete(s) && s <= t && ScalarLength(t) > 0
    ensures |s| + |Missing(s)| <= ScalarLength(t)
  {
    assert s[0] == t[0] && (|s| >= 2 ==> s[1] == t[1]) && (|s| >= 3 ==> s[2] == t[2]);
  }
}
