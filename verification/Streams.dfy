/** The receiving end of a byte stream that may deliver its bytes in any chunks. */
module Streams {
  import opened Wrappers
  import opened Bytes

  class Inbound {
    /** Everything the peer will have sent when it closes. */
    const bytes: Data
    var pos: nat

    ghost predicate Valid()
      reads this
    {
      pos <= |bytes|
    }

    /** The bytes not consumed yet. */
    ghost function Left(): Data
      requires Valid()
      reads this
    {
      bytes[pos..]
    }

    constructor (bytes: Data)
      ensures Valid() && this.bytes == bytes && pos == 0
    {
      this.bytes, pos := bytes, 0;
    }

    /** How many bytes happen to be there: anything from one to `max`, none only at the end. */
    method Available(max: nat) returns (n: nat)
      requires Valid()
      ensures n <= max && pos + n <= |bytes|
      ensures n == 0 <==> max == 0 || pos == |bytes|
    {
      var left := |bytes| - pos;
      if max == 0 || left == 0 { return 0; }
      n :| 1 <= n <= max && n <= left;
    }

    method Read(max: nat) returns (chunk: Data)
      requires Valid()
      modifies this`pos
      ensures Valid() && pos == old(pos) + |chunk| && chunk == bytes[old(pos)..pos]
      ensures |chunk| <= max && (chunk == [] <==> max == 0 || old(pos) == |bytes|)
    {
      var n := Available(max);
      chunk := bytes[pos..pos + n];
      pos := pos + n;
    }

    /** Look at what is there without consuming it. */
    method Peek(max: nat) returns (chunk: Data)
      requires Valid()
      ensures pos + |chunk| <= |bytes| && chunk == bytes[pos..pos + |chunk|]
      ensures |chunk| <= max && (chunk == [] <==> max == 0 || pos == |bytes|)
    {
      var n := Available(max);
      chunk := bytes[pos..pos + n];
    }

    /** All `n` bytes, or `None` (consuming what there was) when the stream ends first. */
    method ReadExact(n: nat) returns (chunk: Option<Data>)
      requires Valid()
      modifies this`pos
      ensures Valid()
      ensures chunk.Some? <==> old(pos) + n <= |bytes|
      ensures chunk.Some? ==> pos == old(pos) + n && chunk.value == bytes[old(pos)..pos]
      ensures chunk.None? ==> pos == |bytes|
    {
      if pos + n > |bytes| {
        pos := |bytes|;
        return None;
      }
      chunk := Some(bytes[pos..pos + n]);
      pos := pos + n;
    }
  }

  /** The sending end: everything written so far. */
  class Outbound {
    var sent: Data

    method WriteAll(data: Data)
      modifies this
      ensures sent == old(sent) + data
    {
      sent := sent + data;
    }
  }
}
