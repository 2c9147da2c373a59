/** Because this sender never cuts a segment anew, the acknowledgment number is not merely safe but
    exact (libsponge/tcp_receiver.cc, libsponge/tcp_sender.cc). */
module Alignment {
  import opened Words
  import opened WrappingIntegers
  import opened Segments
  import opened Reassembly
  import opened ReassemblyRuns
  import opened Receiving
  import opened Carriage
  import opened Acknowledging
  import opened Sending
  import opened SenderInvariants
  import opened Tiling
  import opened Transmission
  import opened Protocol
  import opened Delivery

  /** The receiver holds all of a segment's payload or none of it, and has noted its FIN if so. */
  ghost predicate Whole(ra: Reassembler, seg: Segment, lo: nat) {
    && (forall k: nat | lo <= k < lo + |seg.payload| :: Holding(ra, k) <==> Holding(ra, lo))
    && (seg.payload != [] && seg.header.fin && Holding(ra, lo) ==> ra.eofed)
  }

  /** The highest index seen is one that is held. */
  ghost predicate MarkHeld(ra: Reassembler) {
    ra.firstUnacceptable > 0 ==> Holding(ra, ra.firstUnacceptable - 1)
  }

  /** The acknowledgment number counts exactly what has been handed on; an empty stream that has
      ended is the exception. */
  predicate AckExact(r: Receiver, stream: seq<Byte>) {
    if !r.isSet then Delivered(r) == 0
    else r.checkpoint == 1 + Delivered(r) || (stream == [] && r.Output().ended)
  }

  /** Assembling goes on only from the first missing byte. */
  lemma AdvanceCoversGap(ra: Reassembler, op: Op)
    requires ra.Valid() && ra.Settled() && op.PushOp? && (op.data == [] || op.index + |op.data| <= ra.Size())
    requires Step(ra, op).firstUnassembled > ra.firstUnassembled
    ensures op.Covers(ra.firstUnassembled) && !Holding(ra, ra.firstUnassembled)
  {
    PushHolding(ra, op, ra.firstUnassembled);
    assert Holding(Step(ra, op), ra.firstUnassembled);
  }

  lemma AssembledIsHeld(ra: Reassembler, k: nat)
    requires ra.Valid() && k < ra.firstUnassembled
    ensures Holding(ra, k)
  {
  }

  /** A whole segment moves the assembled count only when it starts at the first missing byte, and
      in that case it is new. */
  lemma WholeAdvances(ra: Reassembler, seg: Segment, v: nat)
    requires ra.Valid() && ra.Settled() && Start(v) < TWO_64 && Whole(ra, seg, Start(v))
    requires seg.payload == [] || Start(v) + |seg.payload| <= ra.Size()
    requires Step(ra, Payload(seg, v)).firstUnassembled > ra.firstUnassembled
    ensures seg.payload != [] && Start(v) == ra.firstUnassembled && !Holding(ra, Start(v))
  {
    hide Reassembler.Valid, Reassembler.Push, Holding;
    AdvanceCoversGap(ra, Payload(seg, v));
    if Start(v) < ra.firstUnassembled {
      AssembledIsHeld(ra, Start(v));
    }
  }

  /** The segment, as this sender makes them, meets a receiver that can take it. */
  ghost predicate Meets(r: Receiver, seg: Segment, v: nat, isn: U32, stream: seq<Byte>, closed: bool) {
    && EofReached(r.reassembler, stream) && |stream| + 2 < TWO_31
    && Carries(seg, v, isn, stream, closed)
    && (seg.header.syn ==> seg.Length() == 1)
    && FitsWindow(r, seg, v) && FinNotEarly(r, seg, v)
    && Whole(r.reassembler, seg, Start(v)) && MarkHeld(r.reassembler)
  }

  ghost function Pushed(r: Receiver, seg: Segment, v: nat): Receiver
    requires r.reassembler.Valid() && Start(v) < TWO_64
  {
    r.(reassembler := Step(r.reassembler, Payload(seg, v)))
  }

  /** Only a segment that is next in line changes what has been handed on. */
  lemma OnlyNextInLineDelivers(r: Receiver, seg: Segment, v: nat, isn: U32, stream: seq<Byte>, closed: bool)
    requires Meets(r, seg, v, isn, stream, closed) && r.reassembler.Valid()
    requires Delivered(Pushed(r, seg, v)) != Delivered(r)
    ensures v == 1 + Delivered(r)
  {
    hide Reassembler.Push, Reassembler.Valid, Holds, Wrap, Holding;
    var ra, op := r.reassembler, Payload(seg, v);
    PushKeepsEofReached(ra, op, stream);
    PushMarks(ra, op);
    AssembledGrows(ra, op);
    AssembledWithinSeen(ra, stream);
    if Step(ra, op).firstUnassembled > ra.firstUnassembled {
      WholeAdvances(ra, seg, v);
    } else if seg.payload != [] {
      AssembledIsHeld(ra, Start(v));
    }
  }

  /** A segment that is next in line and reaches the end of what is assembled accounts for all of it. */
  lemma NextInLineAccounts(r: Receiver, seg: Segment, v: nat, isn: U32, stream: seq<Byte>, closed: bool)
    requires Meets(r, seg, v, isn, stream, closed) && r.reassembler.Valid() && v == 1 + Delivered(r)
    requires v + seg.Length() >= Pushed(r, seg, v).reassembler.firstUnassembled + 1
    ensures v + seg.Length() == 1 + Delivered(Pushed(r, seg, v))
  {
    hide Reassembler.Push, Reassembler.Valid, Holds, Wrap, Holding;
    var ra, op := r.reassembler, Payload(seg, v);
    PushedIsDelivered(r, seg, v, isn, stream, closed);
    PushMarks(ra, op);
    AssembledGrows(ra, op);
    AssembledWithinSeen(ra, stream);
    NotHeldAtGap(ra);
    if !seg.header.fin && Pushed(r, seg, v).Output().ended && seg.payload != [] {
      assert Holding(ra, |stream| - 1);
    }
  }

  lemma NotHeldAtGap(ra: Reassembler)
    requires ra.Settled()
    ensures !Holding(ra, ra.firstUnassembled)
  {
  }

  lemma ExactStep(r: Receiver, seg: Segment, v: nat, isn: U32, stream: seq<Byte>, closed: bool)
    requires InSync(r, isn, stream) && Meets(r, seg, v, isn, stream, closed) && AckExact(r, stream)
    requires r.isSet || seg.header.syn
    ensures AckExact(r.SegmentReceived(seg), stream)
  {
    hide Reassembler.Push, Reassembler.Valid, Holds, Wrap, Holding, Whole, MarkHeld, Receiver.Acknowledged,
         Receiver.SegmentReceived;
    DeliveryLocated(r, seg, v, isn, stream, closed);
    var r0, op := r.Synchronized(seg), Payload(seg, v);
    var pushed := r0.(ended := r0.ended || seg.header.fin, reassembler := Step(r0.reassembler, op));
    PushKeepsEofReached(r.reassembler, op, stream);
    PushMarks(r.reassembler, op);
    AssembledWithinSeen(r.reassembler, stream);
    AssembledWithinSeen(pushed.reassembler, stream);
    AcknowledgedPlainly(pushed, v, seg.Length(), |stream|);
    assert Delivered(pushed) == Delivered(Pushed(r, seg, v));
    if Delivered(pushed) != Delivered(r) {
      OnlyNextInLineDelivers(r, seg, v, isn, stream, closed);
    }
    if v == 1 + Delivered(r) && v + seg.Length() >= pushed.reassembler.firstUnassembled + 1 {
      NextInLineAccounts(r, seg, v, isn, stream, closed);
    }
  }

  /** The exception of `AckExact`: a SYN that is repeated takes the acknowledgment number back if and only
      if the stream is empty and has ended. */
  lemma RepeatedSynExactly(r: Receiver, seg: Segment, isn: U32, stream: seq<Byte>)
    requires AckInv(r, isn, stream) && |stream| + 2 < TWO_31 && r.isSet && r.checkpoint == 1 + Delivered(r)
    requires Carries(seg, 0, isn, stream, true) && seg.header.syn && seg.Length() == 1
    ensures var t := r.SegmentReceived(seg);
            && Delivered(t) == Delivered(r)
            && (t.checkpoint == 1 + Delivered(t) <==> !(stream == [] && r.Output().ended))
            && (stream == [] && r.Output().ended ==> r.checkpoint == 2 && t.checkpoint == 1)
  {
    hide Reassembler.Push, Reassembler.Valid, Holds, Receiver.Acknowledged, Receiver.SegmentReceived, Wrap;
    var op := Payload(seg, 0);
    DeliveryLocated(r, seg, 0, isn, stream, true);
    PushKeepsEofReached(r.reassembler, op, stream);
    PushMarks(r.reassembler, op);
    AssembledWithinSeen(r.reassembler, stream);
    AssembledWithinSeen(Step(r.reassembler, op), stream);
    AssembledGrows(r.reassembler, op);
    if Step(r.reassembler, op).firstUnassembled > r.reassembler.firstUnassembled {
      AdvanceCoversGap(r.reassembler, op);
    }
    var pushed := r.Synchronized(seg).(reassembler := Step(r.reassembler, op));
    AcknowledgedPlainly(pushed, 0, 1, |stream|);
  }

  // ---------------------------------------------------------------- along the run

  function Lo(log: seq<Segment>, i: nat): nat
    requires i < |log|
  {
    Start(Span(log[..i]))
  }

  ghost predicate Aligned(n: Net, log: seq<Segment>) {
    && (forall i | 0 <= i < |log| :: Whole(n.receiver.reassembler, log[i], Lo(log, i)))
    && (forall k: nat | Holding(n.receiver.reassembler, k) :: k < n.sender.stream.readCount)
    && MarkHeld(n.receiver.reassembler)
    && AckExact(n.receiver, n.Source())
  }

  lemma LogEntry(s: Sender, log: seq<Segment>, i: nat)
    requires Logged(s, log) && i < |log|
    ensures InPlace(log, i, s)
  {
  }

  /** Later first transmissions start where earlier ones end, or beyond. */
  lemma LogIsDisjoint(s: Sender, log: seq<Segment>, i: nat, j: nat)
    requires Logged(s, log) && i < j < |log|
    ensures Lo(log, i) + |log[i].payload| <= Lo(log, j)
  {
    hide Bytes, Wrap;
    assert InPlace(log, i, s);
    assert log[..j][..i] == log[..i] && log[..j][..i + 1] == log[..i] + [log[i]];
    SpanAppend(log[..i], log[i]);
    SpanSplit(log[..j], i + 1);
  }

  /** What the log covers has been read from the stream; what comes next starts after that. */
  lemma LogWithinRead(s: Sender, log: seq<Segment>, i: nat)
    requires Core(s) && Logged(s, log) && i < |log|
    ensures log[i].payload != [] ==> Lo(log, i) + |log[i].payload| <= s.stream.readCount
  {
    hide Bytes, Wrap, Clocked, Handshaking;
    assert InPlace(log, i, s);
    assert log[..i + 1] == log[..i] + [log[i]];
    SpanAppend(log[..i], log[i]);
    SpanSplit(log, i + 1);
  }

  lemma NewStartsAfterRead(s: Sender, log: seq<Segment>, more: seq<Segment>, i: nat)
    requires Core(s) && Logged(s, log) && |log| <= i < |log + more|
    ensures Lo(log + more, i) >= s.stream.readCount
  {
    hide Bytes, Wrap, Clocked, Handshaking;
    assert (log + more)[..i][..|log|] == log;
    SpanSplit((log + more)[..i], |log|);
  }

  lemma ReactAligned(n: Net, e: Event, log: seq<Segment>)
    requires Sound(n, log) && Aligned(n, log)
    ensures Aligned(n.(sender := React(n.sender, e)), log + New(n.sender, e))
  {
    hide Core, Tiled, Logged, React, New, Holds, Holding, MarkHeld, AckSafe, Span;
    var n', log' := n.(sender := React(n.sender, e)), log + New(n.sender, e);
    SourceGrows(n.sender, e);
    forall i | 0 <= i < |log'| ensures Whole(n.receiver.reassembler, log'[i], Lo(log', i)) {
      if i < |log| {
        assert log'[..i] == log[..i];
      } else {
        NewStartsAfterRead(n.sender, log, New(n.sender, e), i);
      }
    }
  }

  lemma DeliverWhole(ra: Reassembler, op: Op, seg: Segment, lo: nat, same: bool)
    requires ra.Valid() && op.PushOp? && (op.data == [] || op.index + |op.data| <= ra.Size())
    requires Whole(ra, seg, lo)
    requires if same then lo < TWO_64 && op == PushOp(seg.payload, lo, seg.header.fin)
             else op.data == [] || op.index + |op.data| <= lo || lo + |seg.payload| <= op.index
    ensures Whole(Step(ra, op), seg, lo)
  {
    hide Reassembler.Valid, Reassembler.Push, Holding;
    PushMarks(ra, op);
    forall k: nat ensures Holding(Step(ra, op), k) <==> Holding(ra, k) || op.Covers(k) {
      PushHolding(ra, op, k);
    }
  }

  lemma DeliverMark(ra: Reassembler, op: Op)
    requires ra.Valid() && op.PushOp? && MarkHeld(ra)
    requires op.data == [] || op.index + |op.data| <= ra.Size()
    requires op.index + |op.data| < TWO_64
    ensures MarkHeld(Step(ra, op))
  {
    hide Reassembler.Valid, Reassembler.Push, Holding;
    PushMarks(ra, op);
    var k := Step(ra, op).firstUnacceptable;
    if k > 0 {
      PushHolding(ra, op, k - 1);
    }
  }

  lemma DeliverAligned(n: Net, i: nat, log: seq<Segment>)
    requires Sound(n, log) && Aligned(n, log) && Small(n) && i < |n.sender.out| && Careful(n, Deliver(i))
    ensures Aligned(Apply(n, Deliver(i)), log)
  {
    var seg, isn, ra := n.sender.out[i], n.sender.window.isn, n.receiver.reassembler;
    var v := OnTheWire(n, log, i);
    DeliveryLocated(n.receiver, seg, v, isn, n.Source(), n.sender.stream.ended);
    if n.receiver.isSet || seg.header.syn {
      PlaceIs(seg, v, isn);
      TakenAligned(n, seg, v, log);
    }
  }

  /** What the log says about a segment on the wire. */
  ghost predicate FromLog(seg: Segment, v: nat, log: seq<Segment>) {
    seg.Length() > 0 ==> exists j :: 0 <= j < |log| && log[j] == seg && v == Span(log[..j])
  }

  lemma TakenWhole(s: Sender, ra: Reassembler, seg: Segment, v: nat, log: seq<Segment>, i: nat)
    requires Logged(s, log) && ra.Valid() && FromLog(seg, v, log) && i < |log| && Start(v) < TWO_64
    requires seg.payload == [] || Start(v) + |seg.payload| <= ra.Size()
    requires Whole(ra, log[i], Lo(log, i))
    ensures Whole(Step(ra, Payload(seg, v)), log[i], Lo(log, i))
  {
    hide Logged, Reassembler.Valid, Reassembler.Push, Whole, Span;
    if seg.Length() > 0 {
      var j :| 0 <= j < |log| && log[j] == seg && v == Span(log[..j]);
      if i < j { LogIsDisjoint(s, log, i, j); }
      if j < i { LogIsDisjoint(s, log, j, i); }
      DeliverWhole(ra, Payload(seg, v), log[i], Lo(log, i), i == j);
    } else {
      DeliverWhole(ra, Payload(seg, v), log[i], Lo(log, i), false);
    }
  }

  /** What a segment from the log covers has been read from the stream. */
  lemma TakenWithinRead(s: Sender, ra: Reassembler, seg: Segment, v: nat, log: seq<Segment>, k: nat)
    requires Core(s) && Logged(s, log) && ra.Valid() && FromLog(seg, v, log) && Start(v) < TWO_64
    requires seg.payload == [] || Start(v) + |seg.payload| <= ra.Size()
    requires Holding(ra, k) ==> k < s.stream.readCount
    ensures Holding(Step(ra, Payload(seg, v)), k) ==> k < s.stream.readCount
  {
    hide Core, Logged, Reassembler.Valid, Reassembler.Push, Holding, Span;
    PushHolding(ra, Payload(seg, v), k);
    if Payload(seg, v).Covers(k) {
      var j :| 0 <= j < |log| && log[j] == seg && v == Span(log[..j]);
      LogWithinRead(s, log, j);
    }
  }

  /** A segment from the log meets the receiver as the receiver needs it. */
  lemma TakenMeets(n: Net, seg: Segment, v: nat, log: seq<Segment>)
    requires Sound(n, log) && Aligned(n, log) && Small(n) && FromLog(seg, v, log)
    requires Carries(seg, v, n.sender.window.isn, n.Source(), n.sender.stream.ended)
    requires FitsWindow(n.receiver, seg, v) && FinNotEarly(n.receiver, seg, v)
    ensures Meets(n.receiver, seg, v, n.sender.window.isn, n.Source(), n.sender.stream.ended)
  {
    hide Core, Tiled, Logged, Wrap, Holds, Holding, Span;
    if seg.Length() > 0 {
      var j :| 0 <= j < |log| && log[j] == seg && v == Span(log[..j]);
      LogEntry(n.sender, log, j);
      assert Whole(n.receiver.reassembler, log[j], Lo(log, j));
    }
  }

  /** The case that the receiver takes the segment in. */
  lemma TakenAligned(n: Net, seg: Segment, v: nat, log: seq<Segment>)
    requires Sound(n, log) && Aligned(n, log) && Small(n) && FromLog(seg, v, log)
    requires n.receiver.isSet || seg.header.syn
    requires Carries(seg, v, n.sender.window.isn, n.Source(), n.sender.stream.ended)
    requires FitsWindow(n.receiver, seg, v) && FinNotEarly(n.receiver, seg, v)
    ensures Aligned(n.(receiver := n.receiver.SegmentReceived(seg)), log)
  {
    hide Core, Tiled, Logged, Wrap, Holds, Reassembler.Valid, Reassembler.Push, Receiver.SegmentReceived,
         Receiver.Acknowledged, Holding, Span, FromLog, Whole, MarkHeld, AckExact, Meets;
    var isn, ra, op := n.sender.window.isn, n.receiver.reassembler, Payload(seg, v);
    DeliveryLocated(n.receiver, seg, v, isn, n.Source(), n.sender.stream.ended);
    DeliverMark(ra, op);
    forall i | 0 <= i < |log| ensures Whole(Step(ra, op), log[i], Lo(log, i)) {
      TakenWhole(n.sender, ra, seg, v, log, i);
    }
    forall k: nat | Holding(Step(ra, op), k) ensures k < n.sender.stream.readCount {
      TakenWithinRead(n.sender, ra, seg, v, log, k);
    }
    TakenMeets(n, seg, v, log);
    ExactStep(n.receiver, seg, v, isn, n.Source(), n.sender.stream.ended);
  }

  lemma MoveAligned(n: Net, m: Move, log: seq<Segment>)
    requires Sound(n, log) && Aligned(n, log) && Enabled(n, m) && Small(n) && Careful(n, m)
    ensures Aligned(Apply(n, m), log + Fresh(n, m))
  {
    hide Core, Tiled, Logged, InSync, AckInv, Backed, React, New, Receiver.SegmentReceived, Careful, Small, Aligned;
    assert log + [] == log;
    match m
    case Local(e) => ReactAligned(n, e, log);
    case DeliverAck(a) => ReactAligned(n, AckEvent(a.ackno, a.win), log);
    case Deliver(i) => DeliverAligned(n, i, log);
    case Read(len) => ReadAligned(n, len, log);
    case Reply => ReplyAligned(n, Apply(n, m), log);
  }

  lemma ReplyAligned(n: Net, n': Net, log: seq<Segment>)
    requires Aligned(n, log) && n'.sender == n.sender && n'.receiver == n.receiver
    ensures Aligned(n', log)
  {
  }

  lemma ReadAligned(n: Net, len: nat, log: seq<Segment>)
    requires n.Valid() && Aligned(n, log)
    ensures Aligned(n.(receiver := n.receiver.ReadOut(len)), log)
  {
    var ra, ra' := n.receiver.reassembler, n.receiver.ReadOut(len).reassembler;
    assert forall k: nat :: Holding(ra', k) <==> Holding(ra, k);
    forall i | 0 <= i < |log| ensures Whole(ra', log[i], Lo(log, i)) {
      assert Whole(ra, log[i], Lo(log, i));
    }
  }

  lemma {:induction false} RunAligned(nets: seq<Net>, moves: seq<Move>, k: nat,
      sendCapacity: nat, rto: U16, isn: U32, recvCapacity: nat)
    requires IsRun(nets, moves) && k <= |moves|
    requires nets[0] == NewNet(sendCapacity, rto, isn, recvCapacity)
    requires forall i | 0 <= i < |nets| :: Small(nets[i])
    requires forall i | 0 <= i < |moves| :: Careful(nets[i], moves[i])
    ensures Aligned(nets[k], Log(nets, moves, k))
  {
    hide Sound, Small, Fresh, Apply, Careful;
    if k > 0 {
      RunAligned(nets, moves, k - 1, sendCapacity, rto, isn, recvCapacity);
      RunSound(nets, moves, k - 1, sendCapacity, rto, isn, recvCapacity);
      assert nets[k - 1 + 1] == Apply(nets[k - 1], moves[k - 1]);
      MoveAligned(nets[k - 1], moves[k - 1], Log(nets, moves, k - 1));
    }
  }

  /** In every state of every careful run the acknowledgment number is one for the SYN, plus the
      bytes handed on, plus one for the end once it has been handed on. */
  lemma AckNumberIsExact(nets: seq<Net>, moves: seq<Move>, k: nat,
      sendCapacity: nat, rto: U16, isn: U32, recvCapacity: nat)
    requires IsRun(nets, moves) && k < |nets|
    requires nets[0] == NewNet(sendCapacity, rto, isn, recvCapacity)
    requires forall i | 0 <= i < |nets| :: Small(nets[i])
    requires forall i | 0 <= i < |moves| :: Careful(nets[i], moves[i])
    ensures var n := nets[k];
            n.receiver.isSet && !(n.Source() == [] && n.receiver.Output().ended) ==>
              n.receiver.checkpoint == 1 + |n.Sink()| + if n.receiver.Output().ended then 1 else 0
  {
    hide Small, Careful;
    RunAligned(nets, moves, k, sendCapacity, rto, isn, recvCapacity);
  }
}
