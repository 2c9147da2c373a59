/** What it means for a segment to carry its part of a byte stream. */
module Carriage {
  import opened Words
  import opened WrappingIntegers
  import opened Segments
  import opened ReassemblyRuns

  /** Where in the stream the payload of a segment at absolute number `v` starts. */
  function Start(v: nat): nat { if v == 0 then 0 else v - 1 }

  /** The segment carries what `stream` holds at the absolute number `v`; a SYN only at number 0,
      a FIN only after the last byte of a stream that is `closed`. */
  predicate Carries(seg: Segment, v: nat, isn: U32, stream: seq<Byte>, closed: bool) {
    && v + seg.Length() <= |stream| + 2
    && v < TWO_64
    && seg.header.seqno == Wrap(v, isn)
    && (seg.header.syn ==> v == 0)
    && (v == 0 && !seg.header.syn ==> seg.Length() == 0)
    && Slice(seg.payload, Start(v), stream)
    && (seg.header.fin ==> closed && Start(v) + |seg.payload| == |stream|)
  }

  /** An acknowledgment of everything before the number `c`, one of those up to `limit`. */
  predicate AckFor(ackno: U32, c: nat, isn: U32, limit: nat) {
    1 <= c <= limit && c < TWO_64 && ackno == Wrap(c, isn)
  }

  /** The acknowledgment names some number up to `limit`. */
  ghost predicate Known(ackno: U32, isn: U32, limit: nat) { exists c: nat :: AckFor(ackno, c, isn, limit) }

  lemma KnownExtends(ackno: U32, isn: U32, limit: nat, more: nat)
    requires Known(ackno, isn, limit) && limit <= more
    ensures Known(ackno, isn, more)
  {
    hide Wrap;
    var c: nat :| AckFor(ackno, c, isn, limit);
    assert AckFor(ackno, c, isn, more);
  }

  /** Writing more to a stream that is still open leaves every segment true. */
  lemma CarriesExtends(seg: Segment, v: nat, isn: U32, stream: seq<Byte>, closed: bool, more: seq<Byte>, closed': bool)
    requires Carries(seg, v, isn, stream, closed)
    requires stream <= more && (closed ==> stream == more && closed')
    ensures Carries(seg, v, isn, more, closed')
  {
  }
}
