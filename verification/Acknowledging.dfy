/** What a receiver's acknowledgments promise, over all deliveries of segments that carry one stream
    (libsponge/tcp_receiver.cc). */
module Acknowledging {
  import opened Words
  import opened WrappingIntegers
  import opened Segments
  import opened ByteStreams
  import opened Reassembly
  import opened ReassemblyRuns
  import opened Receiving
  import opened Carriage

  /** The receiver has stored only what `stream` holds, numbered from `isn`, and acknowledges nothing
      beyond `bound`. */
  ghost predicate Tracks(r: Receiver, isn: U32, stream: seq<Byte>, bound: nat) {
    && Agrees(r.reassembler, stream)
    && r.ended == r.reassembler.eofed
    && (r.isSet ==> r.isn == isn && 1 <= r.checkpoint <= bound)
    && (!r.isSet ==> r.checkpoint == 0)
  }

  /** The receiver has heard only of `stream`, numbered from `isn`. */
  ghost predicate InSync(r: Receiver, isn: U32, stream: seq<Byte>) { Tracks(r, isn, stream, |stream| + 2) }

  /** What delivering the segment pushes into the reassembler. */
  function Payload(seg: Segment, v: nat): Op
    requires Start(v) < TWO_64
  {
    PushOp(seg.payload, Start(v), seg.header.fin)
  }

  lemma PushedAtStart(ra: Reassembler, seg: Segment, v: nat)
    requires ra.Valid() && v < TWO_64 && (seg.header.syn ==> v == 0)
    requires v == 0 && !seg.header.syn ==> seg.payload == []
    ensures ra.Push(seg.payload, Receiver.StreamIndex(v, seg), seg.header.fin) == Step(ra, Payload(seg, v))
  {
    hide Reassembler.Push, Reassembler.Valid;
    if v == 0 && !seg.header.syn {
      PushNothingAnywhere(ra, Receiver.StreamIndex(v, seg), Start(v), seg.header.fin);
    } else {
      assert Receiver.StreamIndex(v, seg) == Start(v);
    }
  }

  /** The receiver takes the segment for what it is: unwrapping recovers its absolute number. */
  lemma DeliveryLocated(r: Receiver, seg: Segment, v: nat, isn: U32, stream: seq<Byte>, closed: bool)
    requires Tracks(r, isn, stream, TWO_31 - 1) && |stream| + 2 < TWO_31
    requires Carries(seg, v, isn, stream, closed)
    ensures var r0 := r.Synchronized(seg);
            var pushed := r0.(ended := r0.ended || seg.header.fin,
                              reassembler := Step(r0.reassembler, Payload(seg, v)));
            r.SegmentReceived(seg) ==
            if r0.isSet then pushed.(checkpoint := pushed.Acknowledged(v, seg.Length())) else r
    ensures Payload(seg, v).About(stream)
  {
    hide Reassembler.Push, Reassembler.Valid, Holds, Receiver.Acknowledged;
    var r0 := r.Synchronized(seg);
    if r0.isSet {
      UnwrapInvertsWrap(v, isn, r0.checkpoint);
      PushedAtStart(r0.reassembler, seg, v);
    }
  }

  /** The acknowledgment number in plain arithmetic, when nothing overflows. */
  lemma AcknowledgedPlainly(r: Receiver, v: nat, length: nat, bound: nat)
    requires r.reassembler.firstUnassembled <= r.reassembler.firstUnacceptable <= bound
    requires v + length <= bound + 2 && bound + 2 < TWO_31
    ensures r.Acknowledged(v, length) ==
            var left := r.reassembler.firstUnassembled + 1;
            if v != 0 && v != r.checkpoint then r.checkpoint
            else if v + length >= left then v + length
            else if r.ended && r.reassembler.Empty() then left + 1
            else left
  {
    hide Low64;
  }

  /** Delivering a segment keeps the receiver in agreement with the stream it carries. */
  lemma DeliveryTracks(r: Receiver, seg: Segment, v: nat, isn: U32, stream: seq<Byte>, closed: bool, bound: nat)
    requires Tracks(r, isn, stream, bound) && |stream| + 2 <= bound < TWO_31
    requires Carries(seg, v, isn, stream, closed)
    ensures Tracks(r.SegmentReceived(seg), isn, stream, bound)
  {
    hide Reassembler.Push, Reassembler.Valid, Holds, Receiver.Acknowledged, Receiver.SegmentReceived;
    DeliveryLocated(r, seg, v, isn, stream, closed);
    var r0 := r.Synchronized(seg);
    if r0.isSet {
      var op := Payload(seg, v);
      PushAgrees(r.reassembler, op.data, op.index, op.eof, stream);
      PushMarks(r.reassembler, op);
      AssembledWithinSeen(Step(r.reassembler, op), stream);
      var pushed := r0.(ended := r0.ended || seg.header.fin, reassembler := Step(r0.reassembler, op));
      AcknowledgedPlainly(pushed, v, seg.Length(), |stream|);
    }
  }

  lemma DeliveryInSync(r: Receiver, seg: Segment, v: nat, isn: U32, stream: seq<Byte>, closed: bool)
    requires InSync(r, isn, stream) && |stream| + 2 < TWO_31
    requires Carries(seg, v, isn, stream, closed)
    ensures InSync(r.SegmentReceived(seg), isn, stream)
  {
    hide Tracks, Carries;
    DeliveryTracks(r, seg, v, isn, stream, closed, |stream| + 2);
  }

  lemma TracksExtends(r: Receiver, isn: U32, stream: seq<Byte>, bound: nat, more: seq<Byte>, bound': nat)
    requires Tracks(r, isn, stream, bound) && stream <= more && bound <= bound'
    ensures Tracks(r, isn, more, bound')
  {
    AgreesExtends(r.reassembler, stream, more);
  }

  /** A segment without data, whatever its number, tells the receiver nothing new. */
  lemma EmptyTracks(r: Receiver, seg: Segment, isn: U32, stream: seq<Byte>, bound: nat)
    requires r.Valid() && Tracks(r, isn, stream, bound) && |stream| + 2 <= bound < TWO_31 && seg.Length() == 0
    ensures Tracks(r.SegmentReceived(seg), isn, stream, bound)
  {
    hide Reassembler.Push, Reassembler.Valid, Holds, Unwrap, Receiver.Acknowledged;
    if r.isSet {
      var index := Unwrap(seg.header.seqno, r.isn, r.checkpoint);
      var op := PushOp([], Receiver.StreamIndex(index, seg), false);
      PushAgrees(r.reassembler, [], op.index, false, stream);
      PushMarks(r.reassembler, op);
      AssembledWithinSeen(Step(r.reassembler, op), stream);
      var pushed := r.(reassembler := Step(r.reassembler, op));
      EmptyAcknowledged(pushed, index, stream);
    }
  }

  lemma EmptyAcknowledged(r: Receiver, index: U64, stream: seq<Byte>)
    requires r.reassembler.firstUnassembled <= r.reassembler.firstUnacceptable <= |stream| && |stream| + 2 < TWO_31
    ensures r.Acknowledged(index, 0) ==
            var left := r.reassembler.firstUnassembled + 1;
            if (index != 0 && index != r.checkpoint) || index >= left then r.checkpoint
            else if r.ended && r.reassembler.Empty() then left + 1
            else left
  {
    hide Low64;
  }

  /** A FIN beyond the end of the stream ends it at most too early; it brings no data. */
  lemma SurplusTracks(r: Receiver, seg: Segment, v: nat, isn: U32, stream: seq<Byte>, bound: nat)
    requires r.Valid() && Tracks(r, isn, stream, bound) && |stream| + 2 <= bound < TWO_31
    requires |stream| + 1 < v < bound && seg.header.seqno == Wrap(v, isn)
    requires seg.header.fin && !seg.header.syn && seg.payload == []
    ensures Tracks(r.SegmentReceived(seg), isn, stream, bound)
  {
    hide Reassembler.Push, Reassembler.Valid, Holds, Unwrap, Wrap, Receiver.Acknowledged;
    if r.isSet {
      UnwrapInvertsWrap(v, isn, r.checkpoint);
      var op := PushOp([], Receiver.StreamIndex(v, seg), true);
      PushAgrees(r.reassembler, [], op.index, true, stream);
      PushMarks(r.reassembler, op);
      AssembledWithinSeen(Step(r.reassembler, op), stream);
      var pushed := r.(ended := true, reassembler := Step(r.reassembler, op));
      AcknowledgedPlainly(pushed, v, 1, bound - 2);
    }
  }

  lemma InSyncExtends(r: Receiver, isn: U32, stream: seq<Byte>, more: seq<Byte>)
    requires InSync(r, isn, stream) && stream <= more
    ensures InSync(r, isn, more)
  {
    TracksExtends(r, isn, stream, |stream| + 2, more, |more| + 2);
  }

  /** Sequence numbers after the SYN that the receiver has really handed on. */
  function Delivered(r: Receiver): nat {
    |r.Output().written| + if r.Output().ended then 1 else 0
  }

  /** Nothing is acknowledged that has not been handed on. */
  predicate AckSafe(r: Receiver) {
    r.isSet ==> r.checkpoint <= 1 + Delivered(r)
  }

  ghost predicate AckInv(r: Receiver, isn: U32, stream: seq<Byte>) {
    InSync(r, isn, stream) && EofReached(r.reassembler, stream) && AckSafe(r)
  }

  /** The whole payload lies below the last index the receiver can store. */
  predicate FitsWindow(r: Receiver, seg: Segment, v: nat) {
    seg.payload == [] || Start(v) + |seg.payload| <= r.reassembler.Size()
  }

  /** A FIN without data comes only when the byte before it has been seen. */
  predicate FinNotEarly(r: Receiver, seg: Segment, v: nat) {
    seg.header.fin && seg.payload == [] ==> r.reassembler.firstUnacceptable == Start(v)
  }

  /** The segment, once pushed, accounts for every number it occupies. */
  lemma PushedIsDelivered(r: Receiver, seg: Segment, v: nat, isn: U32, stream: seq<Byte>, closed: bool)
    requires EofReached(r.reassembler, stream) && |stream| + 2 < TWO_31
    requires Carries(seg, v, isn, stream, closed)
    requires FitsWindow(r, seg, v) && FinNotEarly(r, seg, v)
    ensures var r' := r.(reassembler := Step(r.reassembler, Payload(seg, v)));
            && EofReached(r'.reassembler, stream)
            && Delivered(r') >= Delivered(r)
            && (v <= 1 + Delivered(r) ==> v + seg.Length() <= 1 + Delivered(r'))
  {
    hide Reassembler.Push, Reassembler.Valid, Holds, Wrap;
    var op := Payload(seg, v);
    PushKeepsEofReached(r.reassembler, op, stream);
    PushMarks(r.reassembler, op);
    AssembledWithinSeen(r.reassembler, stream);
    AssembledGrows(r.reassembler, op);
    if v <= 1 + Delivered(r) {
      InOrderIsAssembled(r.reassembler, op);
    }
  }

  lemma AckSafeStep(r: Receiver, seg: Segment, v: nat, isn: U32, stream: seq<Byte>, closed: bool)
    requires AckInv(r, isn, stream) && |stream| + 2 < TWO_31
    requires Carries(seg, v, isn, stream, closed)
    requires FitsWindow(r, seg, v) && FinNotEarly(r, seg, v)
    ensures AckInv(r.SegmentReceived(seg), isn, stream)
  {
    hide Reassembler.Push, Reassembler.Valid, Holds, Receiver.Acknowledged, Receiver.SegmentReceived;
    DeliveryInSync(r, seg, v, isn, stream, closed);
    DeliveryLocated(r, seg, v, isn, stream, closed);
    var r0 := r.Synchronized(seg);
    if r0.isSet {
      PushedIsDelivered(r0, seg, v, isn, stream, closed);
      var pushed := r0.(ended := r0.ended || seg.header.fin, reassembler := Step(r0.reassembler, Payload(seg, v)));
      AssembledWithinSeen(pushed.reassembler, stream);
      PushMarks(r.reassembler, Payload(seg, v));
      AcknowledgedPlainly(pushed, v, seg.Length(), |stream|);
    }
  }

  lemma TruncatedAckIsUnsafe(r: Receiver, seg: Segment, isn: U32, stream: seq<Byte>, closed: bool)
    requires AckInv(r, isn, stream) && |stream| + 2 < TWO_31 && r.isSet
    requires Carries(seg, r.checkpoint, isn, stream, closed)
    requires seg.payload != [] && !FitsWindow(r, seg, r.checkpoint)
    ensures !AckSafe(r.SegmentReceived(seg))
  {
    hide Reassembler.Push, Reassembler.Valid, Holds, Receiver.Acknowledged, Receiver.SegmentReceived, Wrap;
    var v := r.checkpoint;
    var op := Payload(seg, v);
    DeliveryLocated(r, seg, v, isn, stream, closed);
    AssembledWithinSeen(r.reassembler, stream);
    SizeCoversAssembled(r.reassembler);
    assert !r.Output().ended;
    TruncatedLeavesMark(r.reassembler, op, stream);
    PushAgrees(r.reassembler, op.data, op.index, op.eof, stream);
    var pushed := r.(ended := r.ended || seg.header.fin, reassembler := Step(r.reassembler, op));
    AssembledWithinSeen(pushed.reassembler, stream);
    AcknowledgedPlainly(pushed, v, seg.Length(), |stream|);
  }

  /** For data that arrives in order: the acknowledgment is safe if and only if all of it fits. */
  lemma AckSafeExactlyWhenItFits(r: Receiver, seg: Segment, isn: U32, stream: seq<Byte>, closed: bool)
    requires AckInv(r, isn, stream) && |stream| + 2 < TWO_31 && r.isSet
    requires Carries(seg, r.checkpoint, isn, stream, closed)
    requires seg.payload != []
    ensures AckSafe(r.SegmentReceived(seg)) <==> FitsWindow(r, seg, r.checkpoint)
  {
    hide Receiver.SegmentReceived, Carries, InSync, EofReached;
    if FitsWindow(r, seg, r.checkpoint) {
      AckSafeStep(r, seg, r.checkpoint, isn, stream, closed);
    } else {
      TruncatedAckIsUnsafe(r, seg, isn, stream, closed);
    }
  }

  /** What the window means: data that comes next in line is handed on in full, on the spot, if and only if
      it is no longer than the window that the receiver advertises. */
  lemma WindowIsWhatFits(r: Receiver, seg: Segment, isn: U32, stream: seq<Byte>, closed: bool)
    requires r.Valid() && Tracks(r, isn, stream, TWO_31 - 1) && |stream| + 2 < TWO_31
    requires r.isSet && !r.Output().ended && Carries(seg, 1 + |r.Output().written|, isn, stream, closed)
    ensures r.Output().written + seg.payload <= r.SegmentReceived(seg).Output().written
            <==> |seg.payload| <= r.WindowSize()
  {
    hide Wrap, Receiver.SegmentReceived, Receiver.Acknowledged, Reassembler.Push, Holds;
    var v := 1 + |r.Output().written|;
    var ra, op := r.reassembler, Payload(seg, v);
    DeliveryLocated(r, seg, v, isn, stream, closed);
    PushAgrees(ra, op.data, op.index, op.eof, stream);
    PushMarks(ra, op);
    AssembledGrows(ra, op);
    AssembledWithinSeen(Step(ra, op), stream);
    WrittenIsPrefix(ra, stream);
    WrittenIsPrefix(Step(ra, op), stream);
    if |seg.payload| <= r.WindowSize() {
      InOrderIsAssembled(ra, op);
    } else {
      TruncatedLeavesMark(ra, op, stream);
    }
  }

  /** Reading makes room: the window grows by exactly what is taken, which is what is asked for unless less
      is there. */
  lemma ReadingReopensWindow(r: Receiver, len: nat)
    requires r.Valid()
    ensures var t := r.ReadOut(len);
            && FifoStep(r.Output(), ReadCall(len), t.Output())
            && t.WindowSize() - r.WindowSize() == t.Output().readCount - r.Output().readCount
            && t.WindowSize() + t.Output().BufferSize() == r.reassembler.capacity
  {
  }

  lemma WrittenIsPrefix(ra: Reassembler, stream: seq<Byte>)
    requires Agrees(ra, stream)
    ensures ra.output.written <= stream
  {
  }

  /** A probe of a closed window is acknowledged although its byte is thrown away. */
  lemma ZeroWindowProbeIsLost(r: Receiver, seg: Segment, isn: U32, stream: seq<Byte>, closed: bool)
    requires AckInv(r, isn, stream) && |stream| + 2 < TWO_31 && r.isSet
    requires r.Valid() && r.WindowSize() == 0 && r.checkpoint == 1 + Delivered(r)
    requires Carries(seg, r.checkpoint, isn, stream, closed) && seg.payload != []
    ensures !AckSafe(r.SegmentReceived(seg))
  {
    hide Receiver.SegmentReceived, Holds, Wrap;
    AssembledWithinSeen(r.reassembler, stream);
    AckSafeExactlyWhenItFits(r, seg, isn, stream, closed);
  }

  /** After a FIN without data the end is seen neither early nor late, whatever follows, if and only if
      the byte before the FIN had been seen. */
  lemma BareFinExactlyWhenNotEarly(r: Receiver, seg: Segment, v: nat, isn: U32, stream: seq<Byte>)
    requires Agrees(r.reassembler, stream) && |stream| + 2 < TWO_31 && r.reassembler.capacity > 0
    requires !r.reassembler.eofed && !r.Output().ended
    requires Carries(seg, v, isn, stream, true) && seg.header.fin && seg.payload == []
    ensures (forall ops | AllAbout(ops, stream) ::
               EofExact(Run(r.reassembler.Push(seg.payload, Start(v), seg.header.fin), ops), stream))
            <==> FinNotEarly(r, seg, v)
  {
    hide Holds, Reassembler.Push, Run, Wrap, AllAbout;
    EndIsExact(r.reassembler, [], Start(v), stream);
  }

  // ---------------------------------------------------------------- runs of a receiver alone

  /** A receiver is handed a segment whose absolute number is `v`, or its application reads. */
  datatype Feed = Hand(seg: Segment, v: nat) | Take(len: nat)

  function Fed(r: Receiver, f: Feed): (r': Receiver)
    requires r.Valid()
    ensures r'.Valid()
  {
    match f
    case Hand(seg, _) => r.SegmentReceived(seg)
    case Take(len) => r.ReadOut(len)
  }

  function FedAll(r: Receiver, feeds: seq<Feed>): (r': Receiver)
    requires r.Valid()
    ensures r'.Valid()
  {
    if feeds == [] then r else Fed(FedAll(r, feeds[..|feeds| - 1]), feeds[|feeds| - 1])
  }

  /** Every segment carries its part of `stream`, fits when it arrives, and is no early bare FIN. */
  ghost predicate WellFed(r: Receiver, feeds: seq<Feed>, isn: U32, stream: seq<Byte>)
    requires r.Valid()
  {
    forall k | 0 <= k < |feeds| && feeds[k].Hand? ::
      && Carries(feeds[k].seg, feeds[k].v, isn, stream, true)
      && FitsWindow(FedAll(r, feeds[..k]), feeds[k].seg, feeds[k].v)
      && FinNotEarly(FedAll(r, feeds[..k]), feeds[k].seg, feeds[k].v)
  }

  lemma AckInvReads(r: Receiver, len: nat, isn: U32, stream: seq<Byte>)
    requires AckInv(r, isn, stream)
    ensures AckInv(r.ReadOut(len), isn, stream) && Delivered(r.ReadOut(len)) == Delivered(r)
  {
  }

  lemma {:induction false} RunKeepsAckInv(capacity: nat, feeds: seq<Feed>, isn: U32, stream: seq<Byte>)
    requires |stream| + 2 < TWO_31 && WellFed(NewReceiver(capacity), feeds, isn, stream)
    ensures AckInv(FedAll(NewReceiver(capacity), feeds), isn, stream)
  {
    hide Carries, FitsWindow, FinNotEarly, Receiver.SegmentReceived;
    if feeds != [] {
      var n := |feeds| - 1;
      forall k | 0 <= k < n ensures feeds[..n][..k] == feeds[..k] {}
      RunKeepsAckInv(capacity, feeds[..n], isn, stream);
      var r := FedAll(NewReceiver(capacity), feeds[..n]);
      if feeds[n].Hand? {
        AckSafeStep(r, feeds[n].seg, feeds[n].v, isn, stream, true);
      } else {
        AckInvReads(r, feeds[n].len, isn, stream);
      }
    }
  }

  /** However the peer cuts the stream into segments, and in whatever order they come, a receiver that
      is well fed never acknowledges more than the SYN, the bytes it has handed on, and the end once
      it has handed that on; and it sees the end exactly when it has everything. */
  lemma WellFedAcksAreSafe(capacity: nat, feeds: seq<Feed>, isn: U32, stream: seq<Byte>)
    requires |stream| + 2 < TWO_31 && WellFed(NewReceiver(capacity), feeds, isn, stream)
    ensures var r := FedAll(NewReceiver(capacity), feeds);
            && (r.isSet ==> r.checkpoint <= 1 + |r.Output().written| + if r.Output().ended then 1 else 0)
            && r.Output().written <= stream
            && EofExact(r.reassembler, stream)
  {
    hide WellFed, FedAll;
    RunKeepsAckInv(capacity, feeds, isn, stream);
  }

  // ---------------------------------------------------------------- a probe that is lost

  /** The bytes fill the receiver, and the next one is acknowledged and thrown away. */
  lemma FullReceiverLosesProbe(stream: seq<Byte>, isn: U32)
    requires |stream| >= 1 && |stream| + 2 < TWO_31
    ensures var n: nat := |stream| - 1;
            var syn := Segment(BLANK.(syn := true, seqno := Wrap(0, isn)), []);
            var fill := Segment(BLANK.(seqno := Wrap(1, isn)), stream[..n]);
            var probe := Segment(BLANK.(seqno := Wrap(1 + n, isn)), stream[n..]);
            var r := FedAll(NewReceiver(n), [Hand(syn, 0), Hand(fill, 1)]);
            && r.Output().written == stream[..n] && AckSafe(r) && r.WindowSize() == 0
            && !AckSafe(r.SegmentReceived(probe))
  {
    hide Wrap, Receiver.SegmentReceived;
    var n: nat := |stream| - 1;
    var syn := Segment(BLANK.(syn := true, seqno := Wrap(0, isn)), []);
    var fill := Segment(BLANK.(seqno := Wrap(1, isn)), stream[..n]);
    var probe := Segment(BLANK.(seqno := Wrap(1 + n, isn)), stream[n..]);
    var feeds := [Hand(syn, 0), Hand(fill, 1)];
    assert feeds[..1] == [Hand(syn, 0)] && [Hand(syn, 0)][..0] == [];
    var r1 := NewReceiver(n).SegmentReceived(syn);
    FreshSyn(n, isn, stream);
    assert FedAll(NewReceiver(n), [Hand(syn, 0)]) == r1;
    assert FedAll(NewReceiver(n), feeds) == r1.SegmentReceived(fill);
    FillsUp(r1, fill, isn, stream, n);
    ZeroWindowProbeIsLost(r1.SegmentReceived(fill), probe, isn, stream, false);
  }

  lemma FreshSyn(capacity: nat, isn: U32, stream: seq<Byte>)
    requires |stream| + 2 < TWO_31
    ensures var r := NewReceiver(capacity).SegmentReceived(Segment(BLANK.(syn := true, seqno := Wrap(0, isn)), []));
            && AckInv(r, isn, stream) && r.isSet && r.checkpoint == 1 && Delivered(r) == 0
            && r.reassembler.capacity == capacity && r.Output().readCount == 0 && !r.ended
  {
    hide Wrap, Unwrap, Receiver.Acknowledged, Receiver.SegmentReceived, Reassembler.Push;
    var syn := Segment(BLANK.(syn := true, seqno := Wrap(0, isn)), []);
    var r, op := NewReceiver(capacity), Payload(Segment(BLANK.(syn := true, seqno := Wrap(0, isn)), []), 0);
    FreshAckInv(capacity, isn, stream);
    AckSafeStep(r, syn, 0, isn, stream, false);
    DeliveryLocated(r, syn, 0, isn, stream, false);
    PushMarks(r.reassembler, op);
    PushKeepsReads(r.reassembler, op);
    PushStores(r.reassembler, op, 0);
    AcknowledgedPlainly(r.Synchronized(syn).(reassembler := Step(r.reassembler, op)), 0, 1, |stream|);
  }

  lemma FreshAckInv(capacity: nat, isn: U32, stream: seq<Byte>)
    ensures AckInv(NewReceiver(capacity), isn, stream)
  {
  }

  lemma FillsUp(r: Receiver, seg: Segment, isn: U32, stream: seq<Byte>, n: nat)
    requires n <= |stream| && |stream| + 2 < TWO_31
    requires AckInv(r, isn, stream) && r.isSet && r.checkpoint == 1 && Delivered(r) == 0
    requires r.reassembler.capacity == n && r.Output().readCount == 0 && !r.ended
    requires seg == Segment(BLANK.(seqno := Wrap(1, isn)), stream[..n])
    ensures var t := r.SegmentReceived(seg);
            && AckInv(t, isn, stream) && t.isSet && t.checkpoint == 1 + Delivered(t)
            && t.Output().written == stream[..n] && t.Valid() && t.WindowSize() == 0
  {
    hide Wrap, Receiver.SegmentReceived, Receiver.Acknowledged, Reassembler.Push;
    AckSafeStep(r, seg, 1, isn, stream, false);
    DeliveryLocated(r, seg, 1, isn, stream, false);
    PushedIsDelivered(r, seg, 1, isn, stream, false);
    AssembledWithinSeen(Step(r.reassembler, Payload(seg, 1)), stream);
    AcknowledgedPlainly(r.(reassembler := Step(r.reassembler, Payload(seg, 1))), 1, n, |stream|);
    PushKeepsReads(r.reassembler, Payload(seg, 1));
    PushMarks(r.reassembler, Payload(seg, 1));
  }

  lemma PushKeepsReads(ra: Reassembler, op: Op)
    requires ra.Valid() && op.PushOp?
    ensures Step(ra, op).output.readCount == ra.output.readCount && Step(ra, op).capacity == ra.capacity
  {
  }
}
