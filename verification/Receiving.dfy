/** The receiving half of an endpoint (libsponge/tcp_receiver.cc). */
module Receiving {
  import opened Words
  import opened WrappingIntegers
  import opened Segments
  import opened ByteStreams
  import opened Reassembly

  datatype ReceiverState = Listen | SynRecv | FinRecv | RecvError

  datatype Receiver = Receiver(
    reassembler: Reassembler, isn: U32, isSet: bool, ended: bool, checkpoint: U64)
  {
    ghost predicate Valid() { reassembler.Valid() && reassembler.Settled() }

    function Output(): Stream { reassembler.output }

    /** A SYN (re)starts the numbering. */
    function Synchronized(seg: Segment): Receiver {
      if seg.header.syn then this.(isn := seg.header.seqno, isSet := true, checkpoint := 0) else this
    }

    /** The acknowledgment number after a segment at `index` has been pushed. */
    function Acknowledged(index: U64, length: nat): U64 {
      if index == 0 || index == checkpoint then
        var next := Low64(index + length);
        var left := Low64(reassembler.firstUnassembled + 1);
        if next < left then
          if ended && Low64(reassembler.firstUnacceptable - reassembler.firstUnassembled) == 0
          then Low64(left + 1) else left
        else next
      else checkpoint
    }

    /** Where in the stream the payload of a segment at `index` starts. */
    static function StreamIndex(index: U64, seg: Segment): U64 {
      Low64(Low64(index - 1) + if seg.header.syn then 1 else 0)
    }

    /** Take in a segment whose absolute number is `index`. */
    function Absorbed(index: U64, seg: Segment): (r: Receiver)
      requires Valid()
      ensures r.Valid() && r.isSet == isSet
    {
      var pushed := this.(
        ended := ended || seg.header.fin,
        reassembler := reassembler.Push(seg.payload, StreamIndex(index, seg), seg.header.fin));
      pushed.(checkpoint := pushed.Acknowledged(index, seg.Length()))
    }

    function SegmentReceived(seg: Segment): (r: Receiver)
      requires Valid()
      ensures r.Valid()
      ensures r.isSet <==> isSet || seg.header.syn
    {
      var r := Synchronized(seg);
      if r.isSet then r.Absorbed(Unwrap(seg.header.seqno, r.isn, r.checkpoint), seg) else r
    }

    function Ackno(): Option<U32> {
      if isSet then Some(Wrap(checkpoint, isn)) else None
    }

    function WindowSize(): nat
      requires Valid()
    {
      reassembler.capacity - Output().BufferSize()
    }

    /** The reader takes up to `len` bytes. */
    function ReadOut(len: nat): (r: Receiver)
      requires Valid()
      ensures r.Valid()
    {
      this.(reassembler := reassembler.ReadOut(len))
    }

    function WithError(): (r: Receiver)
      requires Valid()
      ensures r.Valid()
    {
      this.(reassembler := reassembler.(output := Output().(error := true)))
    }
  }

  function NewReceiver(capacity: nat): (r: Receiver)
    ensures r.Valid()
  {
    Receiver(NewReassembler(capacity), 0, false, false, 0)
  }

  /** Before the SYN nothing is heard. */
  lemma IgnoredUnset(r: Receiver, seg: Segment)
    requires r.Valid() && !r.isSet && !seg.header.syn
    ensures r.SegmentReceived(seg) == r
  {
  }

  class TCPReceiver {
    const reassembler: StreamReassembler
    var isn: U32
    var isSet: bool
    var ended: bool
    var checkpoint: U64

    ghost function Repr(): set<object> { {this} + reassembler.Repr() }

    ghost predicate Valid()
      reads this, reassembler, reassembler.output, reassembler.output.channel
    {
      reassembler.Valid() && reassembler.Model().Settled()
    }

    ghost function Model(): (r: Receiver)
      requires Valid()
      reads this, reassembler, reassembler.output, reassembler.output.channel
      ensures r.Valid() && r.isSet == isSet
    {
      Receiver(reassembler.Model(), isn, isSet, ended, checkpoint)
    }

    constructor (capacity: nat)
      ensures Valid() && fresh(Repr())
      ensures Model() == NewReceiver(capacity)
    {
      reassembler := new StreamReassembler(capacity);
      isn, isSet, ended, checkpoint := 0, false, false, 0;
    }

    method SegmentReceived(seg: Segment)
      requires Valid()
      requires reassembler.output.bytesRead + reassembler.capacity < TWO_64 - 1
      modifies Repr()
      ensures Valid()
      ensures Model() == old(Model().SegmentReceived(seg))
    {
      hide Receiver.Absorbed, Reassembler.Valid;
      if seg.header.syn {
        isn := seg.header.seqno;
        isSet := true;
        checkpoint := 0;
      }
      if !isSet {
        return;
      }
      assert Model() == old(Model().Synchronized(seg));
      Absorb(Unwrap(seg.header.seqno, isn, checkpoint), seg);
    }

    /** The rest of `segment_received`, once the absolute number is known. */
    method Absorb(index: U64, seg: Segment)
      requires Valid()
      requires reassembler.output.bytesRead + reassembler.capacity < TWO_64 - 1
      modifies Repr()
      ensures Valid()
      ensures Model() == old(Model().Absorbed(index, seg))
    {
      hide Reassembler.Push, Reassembler.Valid, Receiver.Acknowledged;
      var streamIndex: int := Low64(index as int - 1);
      if seg.header.syn {
        streamIndex := Low64(streamIndex + 1);
      }
      assert streamIndex == Receiver.StreamIndex(index, seg);
      if seg.header.fin {
        ended := true;
      }
      reassembler.PushSubstring(seg.payload, streamIndex, seg.header.fin);
      Acknowledge(index, seg.Length());
    }

    /** The end of `segment_received`: move the acknowledgment number. */
    method Acknowledge(index: U64, length: nat)
      requires Valid()
      modifies this`checkpoint
      ensures Model() == old(Model()).(checkpoint := old(Model().Acknowledged(index, length)))
    {
      hide Low64, Reassembler.Valid;
      if index == 0 || index == checkpoint {
        checkpoint := Low64(index + length);
        if checkpoint < Low64(reassembler.firstUnassembled + 1) {
          checkpoint := Low64(reassembler.firstUnassembled + 1);
          if ended && Low64(reassembler.firstUnacceptable - reassembler.firstUnassembled) == 0 {
            checkpoint := Low64(checkpoint + 1);
          }
        }
      }
    }

    method SetError()
      requires Valid()
      modifies reassembler.output
      ensures Valid()
      ensures Model() == old(Model().WithError())
    {
      reassembler.output.SetError();
    }

    function Ackno(): (a: Option<U32>)
      requires Valid()
      reads this, reassembler, reassembler.output, reassembler.output.channel
      ensures a == Model().Ackno()
    {
      if !isSet then None else Some(Wrap(checkpoint, isn))
    }

    function WindowSize(): (n: nat)
      requires Valid()
      reads this, reassembler, reassembler.output, reassembler.output.channel
      ensures n == Model().WindowSize()
      ensures n + reassembler.output.bytesWritten == reassembler.capacity + reassembler.output.bytesRead
    {
      reassembler.capacity - reassembler.output.BufferSize()
    }
  }
}
