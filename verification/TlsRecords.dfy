/**
 * TLS record walking: the first handshake message of a record stream,
 * reassembled across record boundaries (section 5.1 of RFC 8446).
 */
module TlsRecords {
  import opened Wrappers
  import opened Bytes

  const HANDSHAKE: byte := 0x16
  const CLIENT_HELLO: byte := 0x01

  // ---- What the loops compute ----

  /** The record at the head of `data`: its type and where its payload, clipped to the data, ends. */
  function RecordEnd(data: Data): (end: nat)
    requires |data| >= 5
    ensures 5 <= end <= |data|
  {
    var end := 5 + U16(data[3..5]);
    if end <= |data| then end else |data|
  }

  /** The handshake byte stream: payloads of the leading Handshake records, joined. */
  function Stream(data: Data): Data {
    if |data| < 5 || data[0] != HANDSHAKE then []
    else data[5..RecordEnd(data)] + Stream(data[RecordEnd(data)..])
  }

  /** What follows the leading Handshake records. */
  function Rest(data: Data): (rest: Data)
    ensures |rest| <= |data|
  {
    if |data| < 5 || data[0] != HANDSHAKE then data
    else Rest(data[RecordEnd(data)..])
  }

  function Declared(stream: Data): nat
    requires |stream| >= 4
  {
    4 + U24(stream[1..4])
  }

  predicate Complete(stream: Data) {
    |stream| >= 4 && |stream| >= Declared(stream)
  }

  /** The first message: up to its declared length, or everything so far. */
  function Message(stream: Data): (m: Data)
    ensures m <= stream
  {
    if Complete(stream) then stream[..Declared(stream)] else stream
  }

  /** What follows the record that completes the message, or all leading Handshake records when none does. */
  function After(data: Data, seen: Data): Data {
    if |data| < 5 || data[0] != HANDSHAKE then data
    else
      var end := RecordEnd(data);
      if Complete(seen + data[5..end]) then data[end..] else After(data[end..], seen + data[5..end])
  }

  /** Nothing, or another Handshake record. */
  predicate GoesOn(rest: Data) {
    rest != [] ==> rest[0] == HANDSHAKE
  }

  predicate StartsHandshake(data: Data) {
    |data| >= 5 && data[0] == HANDSHAKE
  }

  // ---- The walking methods ----

  /** A record and the bytes after it. */
  datatype Record = Record(contentType: byte, payload: Data, next: Data)

  datatype Prefix = Prefix(len: nat, kind: Option<byte>, complete: bool, extendable: bool)

  function RecordAt(rest: Data): Option<Record> {
    if |rest| < 5 then None
    else Some(Record(rest[0], rest[5..RecordEnd(rest)], rest[RecordEnd(rest)..]))
  }

  /** The record at the head of `rest`, if all five header bytes are there. */
  method NextRecord(rest: Data) returns (record: Option<Record>)
    ensures record == RecordAt(rest)
  {
    if |rest| < 5 { return None; }
    var len := U16([rest[3], rest[4]]);
    assert rest[3..5] == [rest[3], rest[4]];
    var end := if 5 + len <= |rest| then 5 + len else |rest|;
    return Some(Record(rest[0], rest[5..end], rest[end..]));
  }

  /** The loop's view of the stream bytes gathered so far. */
  ghost predicate Gathered(seen: Data, len: nat, kind: Option<byte>, header: Data) {
    && len == |seen|
    && header == (if |seen| < 4 then seen else seen[..4])
    && kind == (if seen == [] then None else Some(seen[0]))
  }

  /** `seen` is what the records before `rest` brought, short of the message. */
  ghost predicate Walked(data: Data, seen: Data, rest: Data) {
    Stream(data) == seen + Stream(rest) && After(data, []) == After(rest, seen)
  }

  lemma WalkOn(data: Data, seen: Data, rest: Data, record: Record)
    requires Walked(data, seen, rest) && RecordAt(rest) == Some(record) && record.contentType == HANDSHAKE
    ensures var now := seen + record.payload;
      if !Complete(now) then Walked(data, now, record.next)
      else (After(data, []) == record.next && now <= Stream(data) && Complete(Stream(data))
            && Message(Stream(data)) == Message(now))
  {
    Assoc(seen, record.payload, Stream(record.next));
    var now := seen + record.payload;
    if Complete(now) { MessageGrows(now, Stream(data)); }
  }

  /** The whole truth about the first message of `data`. */
  ghost predicate Describes(p: Prefix, data: Data) {
    && p.complete == Complete(Stream(data))
    && p.len == |Message(Stream(data))|
    && p.kind == (if Stream(data) == [] then None else Some(Stream(data)[0]))
    && p.extendable == GoesOn(After(data, []))
  }

  lemma NoMoreRecords(data: Data, seen: Data, rest: Data, len: nat, kind: Option<byte>, header: Data)
    requires Walked(data, seen, rest) && !StartsHandshake(rest)
    requires Gathered(seen, len, kind, header) && !Complete(seen)
    ensures Describes(Prefix(len, kind, false, GoesOn(rest)), data)
  {
    assert seen + [] == seen;
  }

  method HandshakePrefix(data: Data) returns (r: Option<Prefix>)
    ensures r.Some? <==> StartsHandshake(data)
    ensures r.Some? ==> Describes(r.value, data)
  {
    var record := NextRecord(data);
    if record.None? || record.value.contentType != HANDSHAKE { return None; }
    var len: nat, kind, complete, extendable := 0, None, false, true;
    var header: Data := [];
    var rest := data;
    ghost var seen: Data := [];
    while record.Some?
      invariant record == RecordAt(rest)
      invariant Walked(data, seen, rest)
      invariant Gathered(seen, len, kind, header) && !Complete(seen)
      invariant !complete && extendable
      decreases |rest|
    {
      if record.value.contentType != HANDSHAKE {
        extendable := false;
        break;
      }
      var payload := record.value.payload;
      header, len, kind, complete := Gather(header, len, kind, payload, seen);
      WalkOn(data, seen, rest, record.value);
      rest := record.value.next;
      seen := seen + payload;
      if complete {
        assert Describes(Prefix(len, kind, true, GoesOn(rest)), data);
        break;
      }
      record := NextRecord(rest);
    }
    if !complete { NoMoreRecords(data, seen, rest, len, kind, header); }
    if rest != [] && rest[0] != HANDSHAKE { extendable := false; }
    return Some(Prefix(len, kind, complete, extendable));
  }

  /** While the message is not complete, that is what follows all of them. */
  lemma {:induction false} AfterAll(data: Data, seen: Data)
    requires !Complete(seen + Stream(data))
    ensures After(data, seen) == Rest(data)
    decreases |data|
  {
    if StartsHandshake(data) {
      var end := RecordEnd(data);
      var now := seen + data[5..end];
      Assoc(seen, data[5..end], Stream(data[end..]));
      if Complete(now) { MessageGrows(now, seen + Stream(data)); }
      AfterAll(data[end..], now);
    }
  }

  lemma HeaderDeclares(seen: Data, header: Data)
    requires |seen| >= 4 && header == seen[..4]
    ensures 4 + U24(header[1..]) == Declared(seen)
  {
    assert header[1..] == seen[1..4];
  }

  /**
   * Take one payload: the header keeps the first four bytes, the kind the first;
   * once the header is whole, stop at the length it declares.
   */
  method Gather(header: Data, len: nat, kind: Option<byte>, payload: Data, ghost seen: Data)
    returns (header': Data, len': nat, kind': Option<byte>, complete: bool)
    requires Gathered(seen, len, kind, header)
    ensures complete <==> Complete(seen + payload)
    ensures complete ==> len' == |Message(seen + payload)| && kind' == Some((seen + payload)[0])
    ensures !complete ==> Gathered(seen + payload, len', kind', header')
  {
    var n := if |payload| < 4 - |header| then |payload| else 4 - |header|;
    header', len', kind', complete := header + payload[..n], len + |payload|, kind, false;
    if |header'| != 0 { kind' := Some(header'[0]); }
    if |header'| == 4 {
      HeaderDeclares(seen + payload, header');
      var declared := 4 + U24(header'[1..]);
      if len' >= declared {
        len', complete := declared, true;
      }
    }
  }

  lemma CutThere(message: Data, payload: Data, more: Data, len: nat)
    requires |message| < len <= |message| + |payload|
    ensures (message + payload + more)[..len] == message + payload[..len - |message|]
  {
    TakeWithin(message, payload, len - |message|);
    assert (message + payload + more)[..len] == (message + payload)[..len];
  }

  /** The first `len` bytes of the handshake stream, copied record by record. */
  method MessageBytes(data: Data, len: nat) returns (message: Data)
    requires StartsHandshake(data) && len <= |Stream(data)|
    ensures message == Stream(data)[..len]
  {
    var record := NextRecord(data);
    if len <= |record.value.payload| {
      return record.value.payload[..len];
    }
    message := [];
    ghost var rest := data;
    while record.Some?
      invariant record == RecordAt(rest)
      invariant |message| < len && Stream(data) == message + Stream(rest)
      decreases |rest|
    {
      var payload := record.value.payload;
      rest := record.value.next;
      Assoc(message, payload, Stream(rest));
      if |payload| >= len - |message| {
        CutThere(message, payload, Stream(rest), len);
        message := message + payload[..len - |message|];
        break;
      }
      message := message + payload;
      record := NextRecord(record.value.next);
    }
  }

  datatype Assembled = Assembled(message: Data, complete: bool)

  /** What `AssembleHandshakeMessage` returns. */
  function Assemble(data: Data): Option<Assembled> {
    if StartsHandshake(data) then Some(Assembled(Message(Stream(data)), Complete(Stream(data)))) else None
  }

  method AssembleHandshakeMessage(data: Data) returns (r: Option<Assembled>)
    ensures r == Assemble(data)
  {
    var prefix := HandshakePrefix(data);
    if prefix.None? { return None; }
    var message := MessageBytes(data, prefix.value.len);
    assert Stream(data)[..prefix.value.len] == Message(Stream(data));
    return Some(Assembled(message, prefix.value.complete));
  }

  method ClientHelloIsComplete(data: Data) returns (r: bool)
    ensures r <==> StartsHandshake(data) && Complete(Stream(data)) && Stream(data)[0] == CLIENT_HELLO
  {
    var prefix := HandshakePrefix(data);
    return prefix.Some? && prefix.value.complete && prefix.value.kind == Some(CLIENT_HELLO);
  }

  /** Could more bytes still change what the first message says? */
  predicate MightContinue(data: Data) {
    && (|data| > 0 ==> data[0] == HANDSHAKE)
    && (|data| > 1 ==> data[1] == 3)
    && (StartsHandshake(data) ==>
          && !Complete(Stream(data))
          && (Stream(data) != [] ==> Stream(data)[0] == CLIENT_HELLO)
          && GoesOn(Rest(data)))
  }

  method ClientHelloMightContinue(data: Data) returns (r: bool)
    ensures r <==> MightContinue(data)
  {
    if (|data| > 0 && data[0] != HANDSHAKE) || (|data| > 1 && data[1] != 3) { return false; }
    var prefix := HandshakePrefix(data);
    if prefix.None? { return |data| < 5; }
    var p := prefix.value;
    assert [] + Stream(data) == Stream(data);
    if !p.complete { AfterAll(data, []); }
    return (p.kind.None? || p.kind == Some(CLIENT_HELLO)) && !p.complete && p.extendable;
  }

  // ---- More bytes only ever extend the stream ----

  lemma {:induction false} StreamGrows(d: Data, s: Data)
    ensures Stream(d) <= Stream(d + s)
    ensures Rest(d) != [] && Rest(d)[0] != HANDSHAKE ==> Stream(d + s) == Stream(d)
    decreases |d|
  {
    if StartsHandshake(d) {
      var all := d + s;
      var end := RecordEnd(d);
      assert all[3..5] == d[3..5];
      if end < |d| || 5 + U16(d[3..5]) == |d| {
        assert RecordEnd(all) == end && all[end..] == d[end..] + s;
        assert all[5..end] == d[5..end];
        StreamGrows(d[end..], s);
      } else {
        assert d[end..] == [] && d[5..end] == all[5..|d|];
        assert all[5..|d|] <= all[5..RecordEnd(all)];
      }
    }
  }

  lemma DeclaredGrows(a: Data, b: Data)
    requires a <= b && |a| >= 4
    ensures Declared(a) == Declared(b)
  {
    assert a[1..4] == b[1..4];
  }

  /** A completed message is final, and an incomplete one is a prefix of what it will become. */
  lemma MessageGrows(a: Data, b: Data)
    requires a <= b
    ensures Complete(a) ==> Complete(b) && Message(b) == Message(a)
    ensures Message(a) <= Message(b)
  {
    if |a| >= 4 { DeclaredGrows(a, b); }
    if Complete(a) {
      assert a[..Declared(a)] == b[..Declared(a)];
    } else if Complete(b) && |a| >= 4 {
      assert a <= b[..Declared(b)];
    }
  }

  // ---- Splitting and reassembling ----

  /** One Handshake record: type, legacy version, length, payload. */
  function Frame(minor: byte, payload: Data): Data
    requires |payload| < 65536
  {
    [22, 3, minor, (|payload| / 256) as byte, (|payload| % 256) as byte] + payload
  }

  ghost predicate Fragments(parts: seq<Data>) {
    parts != [] && forall i :: 0 <= i < |parts| ==> |parts[i]| < 65536
  }

  function Frames(minor: byte, parts: seq<Data>): Data
    requires forall i :: 0 <= i < |parts| ==> |parts[i]| < 65536
  {
    if parts == [] then [] else Frame(minor, parts[0]) + Frames(minor, parts[1..])
  }

  /** A message that carries its own length, as every handshake message does. */
  ghost predicate WellFormed(message: Data) {
    |message| >= 4 && |message| == Declared(message)
  }

  lemma FrameHeader(minor: byte, payload: Data, more: Data)
    requires |payload| < 65536
    ensures var data := Frame(minor, payload) + more;
      |data| >= 5 && data[0] == HANDSHAKE && data[3..5] == [(|payload| / 256) as byte, (|payload| % 256) as byte]
  {
    var header := [HANDSHAKE, 3, minor, (|payload| / 256) as byte, (|payload| % 256) as byte];
    assert Frame(minor, payload) + more == header + (payload + more);
  }

  /** A frame is read back whole. */
  lemma FrameReads(minor: byte, payload: Data, more: Data)
    requires |payload| < 65536
    ensures var data := Frame(minor, payload) + more;
      StartsHandshake(data) && Stream(data) == payload + Stream(more)
  {
    var head := Frame(minor, payload);
    var data := head + more;
    FrameHeader(minor, payload, more);
    assert RecordEnd(data) == |head| && data[|head|..] == more && data[5..|head|] == payload;
  }

  lemma {:induction false} StreamOfFrames(minor: byte, parts: seq<Data>, tail: Data)
    requires forall i :: 0 <= i < |parts| ==> |parts[i]| < 65536
    ensures Stream(Frames(minor, parts) + tail) == Concat(parts) + Stream(tail)
    ensures parts != [] ==> StartsHandshake(Frames(minor, parts) + tail)
  {
    if parts == [] {
      assert Frames(minor, parts) + tail == tail;
      assert [] + Stream(tail) == Stream(tail);
    } else {
      var more := Frames(minor, parts[1..]);
      StreamOfFrames(minor, parts[1..], tail);
      Assoc(Frame(minor, parts[0]), more, tail);
      FrameReads(minor, parts[0], more + tail);
      Assoc(parts[0], Concat(parts[1..]), Stream(tail));
    }
  }

  /**
   * However a handshake message is split into records, whatever follows it in
   * its last record and on the wire, it is reassembled exactly; and from any
   * truncation of those bytes comes a prefix of it, marked incomplete unless whole.
   */
  lemma SplitMessageReassembles(minor: byte, parts: seq<Data>, message: Data, later: Data, tail: Data, d: Data)
    requires Fragments(parts) && WellFormed(message) && Concat(parts) == message + later
    requires d <= Frames(minor, parts) + tail
    ensures Assemble(Frames(minor, parts) + tail) == Some(Assembled(message, true))
    ensures Assemble(d).Some? ==>
      && Assemble(d).value.message <= message
      && (Assemble(d).value.complete <==> Assemble(d).value.message == message)
  {
    var all := Frames(minor, parts) + tail;
    WholeMessage(minor, parts, message, later, tail);
    if StartsHandshake(d) { TruncatedMessage(all, message, d); }
  }

  lemma WholeMessage(minor: byte, parts: seq<Data>, message: Data, later: Data, tail: Data)
    requires Fragments(parts) && WellFormed(message) && Concat(parts) == message + later
    ensures var all := Frames(minor, parts) + tail;
      StartsHandshake(all) && Complete(Stream(all)) && Message(Stream(all)) == message
  {
    StreamOfFrames(minor, parts, tail);
    Assoc(message, later, Stream(tail));
    MessageAtHead(message, later + Stream(tail));
  }

  lemma TruncatedMessage(all: Data, message: Data, d: Data)
    requires Complete(Stream(all)) && Message(Stream(all)) == message && WellFormed(message)
    requires d <= all && StartsHandshake(d)
    ensures Message(Stream(d)) <= message
    ensures Complete(Stream(d)) <==> Message(Stream(d)) == message
  {
    StreamGrows(d, all[|d|..]);
    assert d + all[|d|..] == all;
    MessageGrows(Stream(d), Stream(all));
    if !Complete(Stream(d)) { MessageAtHead(message, []); }
  }

  lemma MessageAtHead(message: Data, more: Data)
    requires WellFormed(message)
    ensures Complete(message + more) && Message(message + more) == message
    ensures Complete(message) && Message(message) == message
  {
    assert (message + more)[1..4] == message[1..4];
    assert (message + more)[..|message|] == message == message[..|message|];
  }

  // ---- A stream that goes on can be given any bytes ----

  lemma {:induction false} Framed(t: Data) returns (s: Data)
    ensures Stream(s) == t
  {
    if t == [] {
      s := [];
    } else {
      var n := if |t| < 65536 then |t| else 65535;
      var more := Framed(t[n..]);
      s := Frame(1, t[..n]) + more;
      FrameReads(1, t[..n], more);
    }
  }

  /** A record of which the header and a part of the payload are there, and what follows. */
  lemma RecordGrows(d: Data, t: Data, more: Data)
    requires StartsHandshake(d) && |d| <= 5 + U16(d[3..5])
    requires |d| + |t| == 5 + U16(d[3..5]) || (more == [] && |d| + |t| < 5 + U16(d[3..5]))
    ensures Stream(d) == d[5..] && Stream(d + (t + more)) == d[5..] + t + Stream(more)
  {
    var all := d + (t + more);
    assert all[3..5] == d[3..5];
    assert d[5..] + Stream([]) == d[5..];
    assert all == (d + t) + more;
    assert (d + t)[5..] == d[5..] + t;
  }

  lemma FillRecord(d: Data, t: Data) returns (s: Data)
    requires StartsHandshake(d) && |d| <= 5 + U16(d[3..5])
    ensures Stream(d + s) == Stream(d) + t
  {
    var k := 5 + U16(d[3..5]) - |d|;
    if |t| <= k {
      s := t + [];
      RecordGrows(d, t, []);
      assert d[5..] + t + Stream([]) == d[5..] + t;
    } else {
      var more := Framed(t[k..]);
      s := t[..k] + more;
      RecordGrows(d, t[..k], more);
      assert d[5..] + t[..k] + t[k..] == d[5..] + t;
    }
  }

  /** A header that begins as `d` does. */
  lemma CompleteRecordHeader(d: Data) returns (pad: Data)
    requires |d| < 5 && GoesOn(d)
    ensures var h := d + pad;
      |h| == 5 && StartsHandshake(h) && (|d| < 2 ==> h[1] == 3) && Stream(h) == Stream(d) == []
  {
    pad := [HANDSHAKE, 3, 3, 0, 0][|d|..];
    var h := d + pad;
    assert h[5..RecordEnd(h)] == [] && h[RecordEnd(h)..] == [];
  }

  lemma PastRecord(d: Data, s: Data)
    requires StartsHandshake(d) && 5 + U16(d[3..5]) <= |d|
    ensures var end := 5 + U16(d[3..5]);
      RecordEnd(d) == end && Stream(d + s) == d[5..end] + Stream(d[end..] + s)
  {
    var all, end := d + s, 5 + U16(d[3..5]);
    assert all[3..5] == d[3..5];
    assert all[5..end] == d[5..end] && all[end..] == d[end..] + s;
  }

  /** Unless another record type interrupts it, the handshake stream can be continued by any bytes. */
  lemma {:induction false} StreamCanGrow(d: Data, t: Data) returns (s: Data)
    requires GoesOn(Rest(d))
    ensures Stream(d + s) == Stream(d) + t
    ensures StartsHandshake(d + s) && (|d| < 2 ==> (d + s)[1] == 3)
    decreases |d|
  {
    if |d| < 5 {
      var pad := CompleteRecordHeader(d);
      var more := FillRecord(d + pad, t);
      s := pad + more;
      Assoc(d, pad, more);
    } else if |d| <= 5 + U16(d[3..5]) {
      s := FillRecord(d, t);
    } else {
      var end := RecordEnd(d);
      s := StreamCanGrow(d[end..], t);
      PastRecord(d, s);
      Assoc(d[5..end], Stream(d[end..]), t);
    }
  }
}
