/**
 * Reading the proxy's answer to HTTP CONNECT (section 9.3.6 of RFC 9110). Two
 * readers, one that never reads past a possible head end and one that peeks
 * before it consumes, agree with one specification for every chunking.
 */
module ConnectResponse {
  import opened Wrappers
  import opened Bytes
  import opened Streams
  import opened HeaderEnd

  const BUDGET: nat := 4096
  const HTTP11: Data := [72, 84, 84, 80, 47, 49, 46, 49, 32]
  const HTTP10: Data := [72, 84, 84, 80, 47, 49, 46, 48, 32]
  const SPACE: byte := 32

  // ---- The specification ----

  datatype Outcome = Accepted | Rejected(code: Option<nat>, line: Data) | TooLarge | ClosedEarly

  /** What the reader answers and how many bytes it takes off the stream. */
  datatype Response = Response(outcome: Outcome, consumed: nat)

  /** The bytes before the first CR. */
  function FirstLine(head: Data): Data {
    if head == [] || head[0] == CR then [] else [head[0]] + FirstLine(head[1..])
  }

  predicate ValidStatusLine(line: Data) {
    && |line| >= 13 && (HTTP11 <= line || HTTP10 <= line)
    && IsDigit(line[9]) && IsDigit(line[10]) && IsDigit(line[11]) && line[12] == SPACE
  }

  function StatusCode(line: Data): nat
    requires ValidStatusLine(line)
  {
    (line[9] as nat - 48) * 100 + (line[10] as nat - 48) * 10 + (line[11] as nat - 48)
  }

  /** 2xx establishes the tunnel; other than 101, 1xx is skipped; anything else is a refusal. */
  datatype Verdict = Establish | SkipHead | Refuse(outcome: Outcome)

  function Judge(head: Data): Verdict {
    var line := FirstLine(head);
    if !ValidStatusLine(line) then Refuse(Rejected(None, line))
    else
      var code := StatusCode(line);
      if 200 <= code < 300 then Establish
      else if 100 <= code < 200 && code != 101 then SkipHead
      else Refuse(Rejected(Some(code), line))
  }

  /** The answer to the stream `s` when `budget` header bytes are left. */
  function Answer(s: Data, budget: nat): (r: Response)
    ensures r.consumed <= |s| && r.consumed <= budget
    decreases |s|
  {
    if budget == 0 then Response(TooLarge, 0)
    else
      var end := FirstEnd(s);
      if end.Some? && end.value <= budget then
        match Judge(s[..end.value])
        case Establish => Response(Accepted, end.value)
        case Refuse(outcome) => Response(outcome, end.value)
        case SkipHead =>
          var rest := Answer(s[end.value..], budget - end.value);
          Response(rest.outcome, end.value + rest.consumed)
      else if |s| >= budget then Response(TooLarge, budget)
      else Response(ClosedEarly, |s|)
  }

  // ---- What the answer means ----

  /** Exactly one head: it ends where its first CRLF CRLF does. */
  ghost predicate OneHead(head: Data) {
    FirstEnd(head) == Some(|head|)
  }

  ghost predicate Interim(heads: seq<Data>) {
    forall i :: 0 <= i < |heads| ==> OneHead(heads[i]) && Judge(heads[i]) == SkipHead
  }

  function VerdictOutcome(head: Data): Outcome {
    match Judge(head) case Refuse(outcome) => outcome case _ => Accepted
  }

  lemma OneHeadFirst(head: Data, rest: Data)
    requires OneHead(head)
    ensures FirstEnd(head + rest) == Some(|head|)
    ensures (head + rest)[..|head|] == head && (head + rest)[|head|..] == rest
  {
    var s := head + rest;
    forall j | 0 <= j <= |head| ensures EndsAt(s, j) <==> EndsAt(head, j) { EndsAtPrefix(head, s, j); }
    IsFirstEnd(s, |head|);
  }

  /** One head decided: the specification reads it, judges it, and goes on only past an interim one. */
  lemma AnswerOneHead(head: Data, rest: Data, budget: nat)
    requires OneHead(head) && |head| <= budget
    ensures Answer(head + rest, budget) ==
      if Judge(head) == SkipHead then
        var r := Answer(rest, budget - |head|); Response(r.outcome, |head| + r.consumed)
      else Response(VerdictOutcome(head), |head|)
  {
    OneHeadFirst(head, rest);
  }

  // The same in bytes.

  /** Ends in CR LF CR LF, and has none before. */
  ghost predicate OneHeadInBytes(head: Data) {
    |head| >= 4 && BlankAt(head, |head| - 4) && forall i: nat :: i < |head| - 4 ==> !BlankAt(head, i)
  }

  lemma HeadInBytes(head: Data)
    ensures OneHeadInBytes(head) <==> OneHead(head)
  {
    if OneHeadInBytes(head) {
      forall j: nat | j < |head| ensures !EndsAt(head, j) { EndsInBytes(head, j); }
      IsFirstEnd(head, |head|);
    }
    if OneHead(head) {
      forall i: nat | i < |head| - 4 ensures !BlankAt(head, i) { EndsInBytes(head, i + 4); }
    }
  }

  lemma {:induction false} FirstLineIs(line: Data, rest: Data)
    requires 13 !in line
    ensures FirstLine(line + [13] + rest) == line
  {
    var head := line + [13] + rest;
    if line != [] {
      assert head[1..] == line[1..] + [13] + rest;
      FirstLineIs(line[1..], rest);
    }
  }

  /** `HTTP/1.v abc `. */
  function StatusBytes(v: byte, a: byte, b: byte, c: byte): Data {
    [72, 84, 84, 80, 47, 49, 46, v, 32, a, b, c, 32]
  }

  ghost predicate StatusDigits(v: byte, a: byte, b: byte, c: byte) {
    48 <= v <= 49 && 48 <= a <= 57 && 48 <= b <= 57 && 48 <= c <= 57
  }

  ghost predicate HasStatus(line: Data, v: byte, a: byte, b: byte, c: byte) {
    StatusDigits(v, a, b, c) && StatusBytes(v, a, b, c) <= line
  }

  lemma StatusInBytes(line: Data)
    ensures ValidStatusLine(line) <==> |line| >= 13 && HasStatus(line, line[7], line[9], line[10], line[11])
  {
    if |line| >= 13 {
      assert line[..9] == [line[0], line[1], line[2], line[3], line[4], line[5], line[6], line[7], line[8]];
      assert line[..13] == line[..9] + [line[9], line[10], line[11], line[12]];
    }
  }

  /**
   * One head with a status line `HTTP/1.v abc ...` and anything after it: 2xx
   * is accepted with exactly the head consumed, 1xx but for 101 goes on to the
   * next head, and any other status is a refusal with its number.
   */
  lemma StatusDecides(v: byte, a: byte, b: byte, c: byte, reason: Data, headers: Data, payload: Data, budget: nat)
    requires StatusDigits(v, a, b, c) && 13 !in reason
    requires var head := StatusBytes(v, a, b, c) + reason + [13] + headers; OneHeadInBytes(head) && |head| <= budget
    ensures var line := StatusBytes(v, a, b, c) + reason;
      var head := line + [13] + headers;
      var r, next := Answer(head + payload, budget), Answer(payload, budget - |head|);
      if a == 50 then r == Response(Accepted, |head|)
      else if a == 49 && !(b == 48 && c == 49) then r == Response(next.outcome, |head| + next.consumed)
      else
        var code := 100 * (a as nat - 48) + 10 * (b as nat - 48) + (c as nat - 48);
        r == Response(Rejected(Some(code), line), |head|)
  {
    var line := StatusBytes(v, a, b, c) + reason;
    var head := line + [13] + headers;
    HeadInBytes(head);
    FirstLineIs(line, headers);
    StatusInBytes(line);
    AnswerOneHead(head, payload, budget);
  }

  /** A head with a first line of any other form is a refusal without a number. */
  lemma OtherLineIsRefused(line: Data, headers: Data, payload: Data, budget: nat)
    requires 13 !in line && forall v, a, b, c :: !HasStatus(line, v, a, b, c)
    requires var head := line + [13] + headers; OneHeadInBytes(head) && |head| <= budget
    ensures var head := line + [13] + headers;
      Answer(head + payload, budget) == Response(Rejected(None, line), |head|)
  {
    var head := line + [13] + headers;
    HeadInBytes(head);
    FirstLineIs(line, headers);
    StatusInBytes(line);
    AnswerOneHead(head, payload, budget);
  }

  /** Without a head end within the budget, the budget is used up or the stream is. */
  lemma NoHeadInBytes(s: Data, budget: nat)
    requires forall i: nat :: i + 4 <= budget ==> !BlankAt(s, i)
    ensures Answer(s, budget) == if |s| >= budget then Response(TooLarge, budget) else Response(ClosedEarly, |s|)
  {
    var end := FirstEnd(s);
    if end.Some? { EndsInBytes(s, end.value); }
  }

  /**
   * Any number of interim heads, a final head and payload: the verdict is the
   * final head's, and exactly the heads are consumed, so the payload is intact.
   */
  lemma {:induction false} PayloadIsIntact(heads: seq<Data>, final: Data, payload: Data, budget: nat)
    requires Interim(heads) && OneHead(final) && Judge(final) != SkipHead
    requires |Concat(heads)| + |final| <= budget
    ensures Answer(Concat(heads) + (final + payload), budget) ==
      Response(VerdictOutcome(final), |Concat(heads)| + |final|)
  {
    if heads == [] {
      assert Concat(heads) + (final + payload) == final + payload;
      AnswerOneHead(final, payload, budget);
    } else {
      Assoc(heads[0], Concat(heads[1..]), final + payload);
      AnswerOneHead(heads[0], Concat(heads[1..]) + (final + payload), budget);
      PayloadIsIntact(heads[1..], final, payload, budget - |heads[0]|);
    }
  }

  /** Whatever was not an early end or an overrun began with one head within the budget. */
  lemma AnswerHasHead(s: Data, budget: nat) returns (head: Data, rest: Data)
    requires Answer(s, budget).outcome == Accepted
    ensures s == head + rest && OneHead(head) && |head| <= budget
  {
    var end := FirstEnd(s).value;
    head, rest := s[..end], s[end..];
    forall j | 0 <= j <= end ensures EndsAt(head, j) <==> EndsAt(s, j) { EndsAtPrefix(head, s, j); }
    IsFirstEnd(head, end);
  }

  /** A head with a status of the class `a`. */
  ghost predicate HasClass(head: Data, a: byte) {
    |head| >= 13 && StatusDigits(head[7], a, head[10], head[11]) && StatusBytes(head[7], a, head[10], head[11]) <= head
  }

  lemma {:induction false} FirstLinePrefix(head: Data)
    ensures FirstLine(head) <= head
  {
    if head != [] && head[0] != CR { FirstLinePrefix(head[1..]); }
  }

  /** What establishes is 2xx; what is skipped is 1xx. */
  lemma ClassInBytes(head: Data)
    ensures Judge(head) == Establish ==> HasClass(head, 50)
    ensures Judge(head) == SkipHead ==> HasClass(head, 49)
  {
    var line := FirstLine(head);
    FirstLinePrefix(head);
    StatusInBytes(line);
  }

  /** A stream that is accepted starts with heads that are skipped and one that establishes. */
  lemma {:induction false} AcceptedHeads(s: Data, budget: nat) returns (heads: seq<Data>, final: Data, payload: Data)
    requires Answer(s, budget).outcome == Accepted
    ensures Interim(heads) && OneHead(final) && Judge(final) == Establish
    ensures s == Concat(heads) + (final + payload)
    ensures Answer(s, budget).consumed == |Concat(heads)| + |final|
    decreases |s|
  {
    var head, rest := AnswerHasHead(s, budget);
    assert EndsAt(head, |head|);
    AnswerOneHead(head, rest, budget);
    if Judge(head) == SkipHead {
      heads, final, payload := AcceptedHeads(rest, budget - |head|);
      Assoc(head, Concat(heads), final + payload);
      heads := [head] + heads;
    } else {
      heads, final, payload := [], head, rest;
      assert Concat(heads) + (final + payload) == s;
    }
  }

  /** Conversely, an accepted stream starts with interim 1xx heads and one final 2xx head, and no more was taken. */
  lemma AcceptedShape(s: Data, budget: nat) returns (heads: seq<Data>, final: Data, payload: Data)
    requires Answer(s, budget).outcome == Accepted
    ensures OneHeadInBytes(final) && HasClass(final, 50)
    ensures forall i :: 0 <= i < |heads| ==> OneHeadInBytes(heads[i]) && HasClass(heads[i], 49)
    ensures s == Concat(heads) + (final + payload)
    ensures Answer(s, budget).consumed == |Concat(heads)| + |final|
  {
    heads, final, payload := AcceptedHeads(s, budget);
    HeadInBytes(final);
    ClassInBytes(final);
    forall i | 0 <= i < |heads| ensures OneHeadInBytes(heads[i]) && HasClass(heads[i], 49) {
      HeadInBytes(heads[i]);
      ClassInBytes(heads[i]);
    }
  }

  // ---- The head buffer ----

  datatype Progress = More | Done | Stop(outcome: Outcome)

  /** What to do with the bytes buffered, and how many of them stay. */
  function Act(head: Data): (Progress, nat) {
    if !EndsAt(head, |head|) then (More, |head|)
    else
      match Judge(head)
      case Establish => (Done, |head|)
      case SkipHead => (More, 0)
      case Refuse(outcome) => (Stop(outcome), |head|)
  }

  class ResponseHead {
    const buf: array<byte>
    /** Bytes of the current head. */
    var filled: nat
    /** Bytes of all heads so far. */
    var total: nat

    ghost predicate Valid()
      reads this
    {
      buf.Length == BUDGET && filled <= total <= BUDGET
    }

    ghost function Head(): Data
      requires Valid()
      reads this, buf
    {
      buf[..filled]
    }

    constructor ()
      ensures Valid() && filled == 0 && total == 0 && fresh(buf)
    {
      buf := new byte[BUDGET](_ => 0);
      filled, total := 0, 0;
    }

    /** Bytes still allowed; `None` when the budget is spent. */
    method Remaining() returns (r: Option<nat>)
      requires Valid()
      ensures r == if total == BUDGET then None else Some(BUDGET - total)
    {
      var remaining := buf.Length - total;
      return if remaining == 0 then None else Some(remaining);
    }

    /** Put `chunk` after the bytes already there, as reading into the tail of the buffer does. */
    method Store(chunk: Data)
      requires Valid() && total + |chunk| <= BUDGET
      modifies buf
      ensures buf[..filled + |chunk|] == old(Head()) + chunk
    {
      forall i | 0 <= i < |chunk| {
        buf[filled + i] := chunk[i];
      }
    }

    /** Account for `n` more bytes; at the end of a head, act on its status line. */
    method Advance(n: nat) returns (progress: Progress)
      requires Valid() && total + n <= BUDGET
      modifies this`filled, this`total
      ensures Valid()
      ensures n == 0 ==> progress == Stop(ClosedEarly) && filled == old(filled) && total == old(total)
      ensures n > 0 ==> total == old(total) + n && (progress, filled) == Act(buf[..old(filled) + n])
    {
      if n == 0 { return Stop(ClosedEarly); }
      filled := filled + n;
      total := total + n;
      var head := buf[..filled];
      if !EndsAt(head, |head|) { return More; }
      var line := FirstLine(head);
      var valid := ValidStatusLine(line);
      if valid && line[9] == 50 { return Done; }
      if valid && line[9] == 49 && line[9..12] != [49, 48, 49] {
        assert line[9..12] == [line[9], line[10], line[11]];
        filled := 0;
        return More;
      }
      assert valid ==> line[9..12] == [line[9], line[10], line[11]];
      return Stop(Rejected(if valid then Some(StatusCode(line)) else None, line));
    }
  }

  // ---- One step of either reader, seen from the specification ----

  /** What is left after `start` bytes of skipped heads decides the whole answer. */
  ghost predicate Continues(all: Data, start: nat) {
    && start <= |all| && start <= BUDGET
    && var rest := Answer(all[start..], BUDGET - start);
       Answer(all, BUDGET) == Response(rest.outcome, start + rest.consumed)
  }

  /** `all[..start]` was skipped heads; `head` is what is buffered of the next, and it has not ended. */
  ghost predicate Reading(all: Data, start: nat, head: Data) {
    && Continues(all, start)
    && start + |head| <= |all| && start + |head| <= BUDGET
    && head == all[start..start + |head|]
    && forall j {:trigger EndsAt(head, j)} :: 0 <= j <= |head| ==> !EndsAt(head, j)
  }

  lemma Begin(all: Data)
    ensures Reading(all, 0, [])
  {
    assert all[0..] == all;
  }

  /** The end reached is the first one of the stream. */
  lemma EndReached(all: Data, start: nat, head: Data)
    requires start + |head| <= |all| && head == all[start..start + |head|]
    requires EndsAt(head, |head|) && forall j :: 0 <= j < |head| ==> !EndsAt(head, j)
    ensures FirstEnd(all[start..]) == Some(|head|)
    ensures all[start..][..|head|] == head && all[start..][|head|..] == all[start + |head|..]
  {
    var s := all[start..];
    assert head <= s;
    forall j | 0 <= j <= |head| ensures EndsAt(s, j) <==> EndsAt(head, j) { EndsAtPrefix(head, s, j); }
    IsFirstEnd(s, |head|);
  }

  /** At an end, the status line decides what the specification does. */
  lemma HeadEnds(all: Data, start: nat, head: Data)
    requires Continues(all, start) && start + |head| <= |all| && start + |head| <= BUDGET
    requires head == all[start..start + |head|]
    requires EndsAt(head, |head|) && NoEarlierEnd(head)
    ensures match Judge(head)
      case Establish => Answer(all, BUDGET) == Response(Accepted, start + |head|)
      case Refuse(outcome) => Answer(all, BUDGET) == Response(outcome, start + |head|)
      case SkipHead => Continues(all, start + |head|)
  {
    EndReached(all, start, head);
  }

  /** `head` lies in the stream after the skipped heads, and did not end before its last byte. */
  ghost predicate Window(all: Data, start: nat, head: Data) {
    && Continues(all, start) && start + |head| <= |all| && start + |head| <= BUDGET
    && head == all[start..start + |head|] && NoEarlierEnd(head)
  }

  ghost predicate NoEarlierEnd(head: Data) {
    forall j {:trigger EndsAt(head, j)} :: 0 <= j < |head| ==> !EndsAt(head, j)
  }

  /** After `total` bytes the reading has its answer, or goes on with `head` buffered from `start`. */
  ghost predicate GoesOn(all: Data, progress: Progress, total: nat, start: int, head: Data) {
    match progress
    case Done => Answer(all, BUDGET) == Response(Accepted, total)
    case Stop(outcome) => Answer(all, BUDGET) == Response(outcome, total)
    case More => start >= 0 && total == start + |head| && Reading(all, start, head)
  }

  lemma StepAtEnd(all: Data, start: nat, head: Data)
    requires Window(all, start, head) && EndsAt(head, |head|)
    ensures GoesOn(all, Act(head).0, start + |head|, start + |head|, [])
    ensures Act(head).0 == More ==> Act(head).1 == 0
  {
    HeadEnds(all, start, head);
    ActAtEnd(head);
    if Judge(head) == SkipHead { NextHead(all, start + |head|, head); }
  }

  lemma ActAtEnd(head: Data)
    requires EndsAt(head, |head|)
    ensures match Judge(head)
      case Establish => Act(head).0 == Done
      case Refuse(outcome) => Act(head).0 == Stop(outcome)
      case SkipHead => Act(head) == (More, 0)
  {
  }

  lemma StepWithin(all: Data, start: nat, head: Data)
    requires Window(all, start, head) && !EndsAt(head, |head|)
    ensures Act(head) == (More, |head|) && Reading(all, start, head)
  {
  }

  /** After a step the reading either goes on or has its answer. */
  lemma Step(all: Data, start: nat, head: Data, total: nat)
    returns (progress: Progress, filled: nat, start': int, buffered: Data)
    requires Window(all, start, head) && total == start + |head|
    ensures (progress, filled) == Act(head) && filled <= |head|
    ensures start' == total - filled && buffered == if progress == More then head[..filled] else []
    ensures GoesOn(all, progress, total, start', buffered)
  {
    progress, filled := Act(head).0, Act(head).1;
    start', buffered := total - filled, if progress == More then head[..filled] else [];
    if EndsAt(head, |head|) {
      StepAtEnd(all, start, head);
    } else {
      StepWithin(all, start, head);
      assert head[..|head|] == head;
    }
  }

  lemma Grown(all: Data, start: nat, head: Data, chunk: Data)
    requires Reading(all, start, head) && NoEarlierEnd(head + chunk)
    requires start + |head| + |chunk| <= |all| && start + |head| + |chunk| <= BUDGET
    requires chunk == all[start + |head|..start + |head| + |chunk|]
    ensures Window(all, start, head + chunk)
  {
    SliceJoin(all, start, start + |head|, start + |head| + |chunk|);
  }

  lemma NextHead(all: Data, start: nat, head: Data)
    requires Continues(all, start)
    ensures Reading(all, start, head[..0])
  {
  }

  /** The budget is spent without an end. */
  lemma BudgetSpent(all: Data, start: nat, head: Data)
    requires Reading(all, start, head) && start + |head| == BUDGET
    ensures Answer(all, BUDGET) == Response(TooLarge, BUDGET)
  {
    NoEndWithin(all[start..], head);
  }

  /** The stream closed without an end. */
  lemma StreamClosed(all: Data, start: nat, head: Data)
    requires Reading(all, start, head) && start + |head| == |all| < BUDGET
    ensures Answer(all, BUDGET) == Response(ClosedEarly, |all|)
  {
    NoEndWithin(all[start..], head);
  }

  lemma NoEndWithin(s: Data, head: Data)
    requires head <= s && forall j :: 0 <= j <= |head| ==> !EndsAt(head, j)
    ensures FirstEnd(s).Some? ==> FirstEnd(s).value > |head|
  {
    forall j | 0 <= j <= |head| ensures !EndsAt(s, j) { EndsAtPrefix(head, s, j); }
  }

  /** The reader took the specified bytes, no more and no fewer, and gave the specified answer. */
  ghost predicate Answers(bytes: Data, from: nat, to: nat, outcome: Outcome) {
    from <= to && from <= |bytes| && Response(outcome, to - from) == Answer(bytes[from..], 4096)
  }

  lemma SliceOfTail(bytes: Data, from: nat, at: nat, n: nat)
    requires from + at + n <= |bytes|
    ensures bytes[from + at..from + at + n] == bytes[from..][at..at + n]
  {
  }

  /** The bytes after the ones of the head so far were read; none were left if there are none. */
  lemma ChunkRead(bytes: Data, from: nat, all: Data, start: nat, head: Data, chunk: Data)
    requires from <= |bytes| && all == bytes[from..] && Reading(all, start, head) && NoEarlierEnd(head + chunk)
    requires start + |head| + |chunk| <= BUDGET && start + |head| < BUDGET && from + start + |head| + |chunk| <= |bytes|
    requires chunk == bytes[from + start + |head|..from + start + |head| + |chunk|]
    requires chunk == [] ==> from + start + |head| == |bytes|
    ensures Window(all, start, head + chunk)
    ensures chunk == [] ==> Answer(all, BUDGET) == Response(ClosedEarly, start + |head|)
  {
    SliceOfTail(bytes, from, start + |head|, |chunk|);
    Grown(all, start, head, chunk);
    if chunk == [] { StreamClosed(all, start, head); }
  }

  /** Buffer one chunk and act on the head so far. */
  method Absorb(head: ResponseHead, chunk: Data) returns (progress: Progress)
    requires head.Valid() && head.total + |chunk| <= BUDGET
    modifies head`filled, head`total, head.buf
    ensures head.Valid() && head.total == old(head.total) + |chunk|
    ensures chunk == [] ==> progress == Stop(ClosedEarly)
    ensures chunk != [] ==>
      && (progress, head.filled) == Act(old(head.Head()) + chunk)
      && head.filled <= old(head.filled) + |chunk| && head.Head() == (old(head.Head()) + chunk)[..head.filled]
  {
    ghost var full := head.Head() + chunk;
    head.Store(chunk);
    assert head.buf[..head.filled + |chunk|] == full;
    progress := head.Advance(|chunk|);
    assert head.Head() == head.buf[..|full|][..head.filled];
  }

  /** Buffer one chunk and act on it: what both readers do with the bytes they consume. */
  method Take(head: ResponseHead, chunk: Data, ghost all: Data, ghost start: nat, ghost full: Data)
    returns (progress: Progress, ghost start': nat)
    requires head.Valid() && head.total == start + head.filled && head.total + |chunk| <= BUDGET
    requires full == head.Head() + chunk && Window(all, start, full)
    modifies head`filled, head`total, head.buf
    ensures head.Valid() && head.total == old(head.total) + |chunk|
    ensures if chunk == [] then progress == Stop(ClosedEarly)
            else GoesOn(all, progress, head.total, start', if progress == More then head.Head() else [])
  {
    ghost var expected, filled, next, buffered := Step(all, start, full, head.total + |chunk|);
    progress := Absorb(head, chunk);
    start' := head.total - head.filled;
    assert chunk != [] ==> progress == expected && head.filled == filled;
  }

  // ---- The suffix-limited reader ----

  /** Bytes that can be read without passing a head end, judging by how the buffer ends. */
  function SafeLength(head: Data): nat {
    var n := |head|;
    if n >= 3 && head[n - 3] == CR && head[n - 2] == LF && head[n - 1] == CR then 1
    else if n >= 2 && head[n - 2] == CR && head[n - 1] == LF then 2
    else if n >= 1 && head[n - 1] == CR then 3
    else 4
  }

  /** A read within the safe length can only end a head exactly at its last byte. */
  lemma NoOvershoot(head: Data, more: Data)
    requires forall j :: 0 <= j <= |head| ==> !EndsAt(head, j)
    requires |more| <= SafeLength(head)
    ensures NoEarlierEnd(head + more)
  {
    var full := head + more;
    assert forall i :: 0 <= i < |head| ==> full[i] == head[i];
    forall j | 0 <= j < |full| ensures !EndsAt(full, j) {
      if j <= |head| { EndsAtPrefix(head, full, j); }
    }
  }

  /** Read no further than the buffer's suffix allows. */
  method ReadSafely(stream: Inbound, head: ResponseHead, max: nat) returns (chunk: Data)
    requires stream.Valid() && head.Valid() && head.total + max <= BUDGET && max > 0
    requires forall j :: 0 <= j <= head.filled ==> !EndsAt(head.Head(), j)
    modifies stream`pos
    ensures stream.Valid() && stream.pos == old(stream.pos) + |chunk|
    ensures chunk == stream.bytes[old(stream.pos)..stream.pos]
    ensures |chunk| <= max && (chunk == [] <==> old(stream.pos) == |stream.bytes|)
    ensures NoEarlierEnd(head.Head() + chunk)
  {
    var safe := SafeLength(head.buf[..head.filled]);
    chunk := stream.Read(if safe < max then safe else max);
    NoOvershoot(head.Head(), chunk);
  }

  /** The reader for any stream: never asks for a byte beyond the end of the head. */
  method HttpConnectHandshake(stream: Inbound) returns (outcome: Outcome)
    requires stream.Valid()
    modifies stream`pos
    ensures stream.Valid() && Answers(stream.bytes, old(stream.pos), stream.pos, outcome)
  {
    var head := new ResponseHead();
    ghost var all, start: nat, from := stream.bytes[stream.pos..], 0, stream.pos;
    Begin(all);
    while true
      invariant stream.Valid() && head.Valid() && fresh(head) && fresh(head.buf)
      invariant stream.pos == from + head.total && head.total == start + head.filled
      invariant Reading(all, start, head.Head())
      decreases BUDGET - head.total
    {
      var remaining := head.Remaining();
      if remaining.None? {
        BudgetSpent(all, start, head.Head());
        return TooLarge;
      }
      var chunk := ReadSafely(stream, head, remaining.value);
      ChunkRead(stream.bytes, from, all, start, head.Head(), chunk);
      var progress;
      progress, start := Take(head, chunk, all, start, head.Head() + chunk);
      match progress
      case Done => return Accepted;
      case Stop(o) => return o;
      case More =>
    }
  }

  // ---- The peeking reader ----

  /** Peek, then consume the bytes that belong to the current head. */
  method ConsumePeeked(stream: Inbound, head: ResponseHead, max: nat) returns (chunk: Data)
    requires stream.Valid() && head.Valid() && head.total + max <= BUDGET
    requires forall j :: 0 <= j <= head.filled ==> !EndsAt(head.Head(), j)
    modifies stream`pos, head.buf
    ensures stream.Valid() && stream.pos == old(stream.pos) + |chunk|
    ensures chunk == stream.bytes[old(stream.pos)..stream.pos]
    ensures |chunk| <= max && (chunk == [] <==> max == 0 || old(stream.pos) == |stream.bytes|)
    ensures head.Head() == old(head.Head()) && NoEarlierEnd(head.Head() + chunk)
  {
    var peeked := stream.Peek(max);
    var upTo := ScanPeeked(head, peeked);
    var taken := stream.ReadExact(upTo);
    chunk := taken.value;
    assert chunk == peeked[..upTo];
  }

  /** The reader for a plain socket: peeks, then consumes up to the end of the head. */
  method ReadConnectResponseTcp(stream: Inbound) returns (outcome: Outcome)
    requires stream.Valid()
    modifies stream`pos
    ensures stream.Valid() && Answers(stream.bytes, old(stream.pos), stream.pos, outcome)
  {
    var head := new ResponseHead();
    ghost var all, start: nat, from := stream.bytes[stream.pos..], 0, stream.pos;
    Begin(all);
    while true
      invariant stream.Valid() && head.Valid() && fresh(head) && fresh(head.buf)
      invariant stream.pos == from + head.total && head.total == start + head.filled
      invariant Reading(all, start, head.Head())
      decreases BUDGET - head.total
    {
      var remaining := head.Remaining();
      if remaining.None? {
        BudgetSpent(all, start, head.Head());
        return TooLarge;
      }
      var chunk := ConsumePeeked(stream, head, remaining.value);
      ChunkRead(stream.bytes, from, all, start, head.Head(), chunk);
      var progress;
      progress, start := Take(head, chunk, all, start, head.Head() + chunk);
      match progress
      case Done => return Accepted;
      case Stop(o) => return o;
      case More =>
    }
  }

  /** How many of the peeked bytes belong to the current head: all of them, or those up to its end. */
  method ScanPeeked(head: ResponseHead, peeked: Data) returns (upTo: nat)
    requires head.Valid() && head.total + |peeked| <= BUDGET
    requires forall j :: 0 <= j <= head.filled ==> !EndsAt(head.Head(), j)
    modifies head.buf
    ensures head.Head() == old(head.Head())
    ensures upTo <= |peeked| && (upTo == 0 <==> peeked == [])
    ensures NoEarlierEnd(head.Head() + peeked[..upTo])
  {
    ghost var sofar := head.Head();
    var filled := head.filled;
    head.Store(peeked);
    assert head.Head() == head.buf[..filled + |peeked|][..filled] == sofar;
    var scanFrom := if filled < 3 then 0 else filled - 3;
    var window := head.buf[scanFrom..filled + |peeked|];
    var found := FindHeaderEnd(window);
    assert (sofar + peeked)[scanFrom..] == window;
    OverlapScan(sofar, peeked);
    var consumeTo := if found.Some? then scanFrom + found.value + 4 else filled + |peeked|;
    if FirstEnd(sofar + peeked).Some? { EndsLater(sofar, peeked, FirstEnd(sofar + peeked).value); }
    upTo := consumeTo - filled;
    ScannedUpTo(sofar, peeked, peeked[..upTo]);
  }

  /** A head that has not ended can only end with one of the new bytes. */
  lemma EndsLater(head: Data, peeked: Data, e: nat)
    requires forall j :: 0 <= j <= |head| ==> !EndsAt(head, j)
    requires EndsAt(head + peeked, e)
    ensures e > |head|
  {
    if e <= |head| { EndsAtPrefix(head, head + peeked, e); }
  }

  /** Cut at its first end, a scanned buffer has no earlier one. */
  lemma ScannedUpTo(head: Data, peeked: Data, more: Data)
    requires more <= peeked
    requires FirstEnd(head + peeked).Some? ==> FirstEnd(head + peeked).value >= |head + more|
    ensures NoEarlierEnd(head + more)
  {
    forall j | 0 <= j < |head + more| ensures !EndsAt(head + more, j) {
      EndsAtPrefix(head + more, head + peeked, j);
    }
  }
}
