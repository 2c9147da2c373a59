/** Two endpoints open and close a connection, for all initial sequence numbers, capacities and timeouts,
    and after any amount of data: both cases of both diagrams in libsponge/tcp_connection.cc, lines
    51-71 and 160-180. */
module Handshake {
  import opened Words
  import opened WrappingIntegers
  import opened Segments
  import opened Reassembly
  import opened ReassemblyRuns
  import opened Receiving
  import opened SendingWindows
  import opened Sending
  import opened SenderInvariants
  import opened Connections
  import opened Lifecycle
  import opened Alignment
  import opened Stranding
  import opened Naming
  import opened SenderRuns
  import opened Transmission
  import opened Wire

  // ---------------------------------------------------------------- the sender

  /** A sender that has nothing left to send, of which at most the last number, a SYN or FIN or byte, is
      not acknowledged. */
  ghost predicate Sends(s: Sender, isn: U32, first: nat, next: nat) {
    && s.Valid() && s.stream.BufferSize() == 0 && !s.stream.error
    && next < TWO_64 && s.window.isn == isn && s.window.first == first && s.window.next == next
    && next == (if next == 0 && !s.stream.ended && s.stream.written == [] then 0
                else |s.stream.written| + if s.stream.ended then 2 else 1)
    && 1 <= s.window.size < TWO_16 && !s.window.faulted && s.retransmissions == 0
    && s.out == []
    && if first == next then s.window.buffer == []
       else |s.window.buffer| == 1 && next == first + 1
            && s.window.buffer[0].segment.Length() == 1
            && s.window.buffer[0].segment.header.seqno == Wrap(first, isn)
  }

  /** With the next number at 2^32 the window misreads the number before it. */
  predicate Legible(next: nat) { next != TWO_32 }

  lemma NothingToFill(s: Sender, isn: U32, first: nat, next: nat, out: seq<Segment>)
    requires first >= 1 && Sends(s.(out := []), isn, first, next) && s.out == out
    ensures s.FillWindow() == s
  {
  }

  /** The last number is acknowledged. */
  lemma LastIsAcked(s: Sender, isn: U32, next: nat, win: U16)
    requires next >= 1 && Legible(next) && Sends(s, isn, next - 1, next)
    ensures Sends(s.AckReceived(Wrap(next, isn), win), isn, next, next)
  {
    hide Wrap, Unwrap, Sender.FillWindow;
    UnwrapAtCheckpoint(next, isn);
    UnwrapInvertsWrap(next - 1, isn, next);
    var w := s.window.Acked(Wrap(next, isn), Max(win, 1));
    assert s.window.Search(next, 1) == 0;
    assert w == s.window.(buffer := [], first := next, size := Max(win, 1));
    assert Rearmed([], s.initialRto) == [];
    NothingToFill(s.Acknowledged(Wrap(next, isn), win), isn, next, next, []);
  }

  /** An acknowledgment that repeats what is known only sets the window. */
  lemma RepeatIsHarmless(s: Sender, isn: U32, first: nat, next: nat, win: U16)
    requires first >= 1 && (first == next || Legible(next)) && Sends(s, isn, first, next)
    ensures Sends(s.AckReceived(Wrap(first, isn), win), isn, first, next)
  {
    hide Wrap, Unwrap, Sender.FillWindow;
    UnwrapAtCheckpoint(next, isn);
    UnwrapInvertsWrap(first, isn, next);
    NothingToFill(s.Acknowledged(Wrap(first, isn), win), isn, first, next, []);
  }

  lemma SynGoesOut(s: Sender, isn: U32)
    requires Sends(s, isn, 0, 0)
    ensures s.FillWindow().out == [s.Syn()]
    ensures Sends(s.FillWindow().(out := []), isn, 0, 1)
  {
    UnwrapAtCheckpoint(0, isn);
  }

  lemma FinGoesOut(s: Sender, isn: U32, v: nat)
    requires v >= 1 && Sends(s, isn, v, v) && !s.stream.ended && v + 1 < TWO_64
    ensures var t := s.(stream := s.stream.(ended := true)).FillWindow();
            && Sends(t.(out := []), isn, v, v + 1) && t.stream.ended
            && t.out == [Segment(BLANK.(seqno := Wrap(v, isn), fin := true), [])]
  {
    hide Wrap, Unwrap;
    var e := s.(stream := s.stream.(ended := true));
    UnwrapAtCheckpoint(v, isn);
    assert e.NextSegment() == Segment(BLANK.(seqno := Wrap(v, isn), fin := true), []);
    var t := e.SentNext();
    assert e.CanSend() && e.Opened() == e;
    assert t.window.next == v + 1;
    assert !t.CanSend();
    assert e.Filled() == t.Filled() == t;
  }

  // ---------------------------------------------------------------- the receiver

  /** A receiver that has heard everything before the number `at` and, if `over`, the FIN. */
  ghost predicate Hears(r: Receiver, isn: U32, at: nat, over: bool) {
    && r.Valid() && r.isSet && r.isn == isn && r.ended == over && r.checkpoint == at
    && at == r.reassembler.firstUnassembled + (if over then 2 else 1)
    && InStep(r.reassembler, over)
  }

  /** Nothing is waiting, and the end has been handed on if it has been flagged. */
  ghost predicate InStep(ra: Reassembler, over: bool) {
    ra.Valid() && ra.Settled() && ra.Empty() && !ra.output.error && ra.eofed == over && ra.output.ended == over
  }

  lemma PushNothing(ra: Reassembler, over: bool, i: U64, eof: bool)
    requires InStep(ra, over)
    ensures InStep(ra.Push([], i, eof), over || eof)
    ensures ra.Push([], i, eof).firstUnassembled == ra.firstUnassembled
  {
    var op := PushOp([], i, eof);
    PushMarks(ra, op);
    AssembledGrows(ra, op);
    if Step(ra, op).firstUnassembled > ra.firstUnassembled {
      AdvanceCoversGap(ra, op);
    }
  }

  lemma HearSyn(r: Receiver, seg: Segment)
    requires r.Valid() && !r.isSet && !r.ended && InStep(r.reassembler, false) && r.reassembler.firstUnassembled == 0
    requires seg.header.syn && !seg.header.fin && seg.payload == []
    ensures Hears(r.SegmentReceived(seg), seg.header.seqno, 1, false)
  {
    hide Reassembler.Push, Reassembler.Valid;
    assert Wrap(0, seg.header.seqno) == seg.header.seqno;
    UnwrapAtCheckpoint(0, seg.header.seqno);
    PushNothing(r.reassembler, false, Receiver.StreamIndex(0, seg), false);
  }

  lemma HearNothing(r: Receiver, isn: U32, at: nat, over: bool, seg: Segment)
    requires Hears(r, isn, at, over) && seg.Length() == 0
    ensures Hears(r.SegmentReceived(seg), isn, at, over)
  {
    hide Reassembler.Push, Reassembler.Valid, Unwrap;
    var index := Unwrap(seg.header.seqno, r.isn, r.checkpoint);
    PushNothing(r.reassembler, over, Receiver.StreamIndex(index, seg), false);
  }

  lemma HearFin(r: Receiver, isn: U32, at: nat, seg: Segment)
    requires Hears(r, isn, at, false) && BareFin(seg, at, isn) && at + 1 < TWO_64
    ensures Hears(r.SegmentReceived(seg), isn, at + 1, true)
  {
    hide Reassembler.Push, Reassembler.Valid, Unwrap, Wrap;
    UnwrapAtCheckpoint(at, isn);
    PushNothing(r.reassembler, false, Receiver.StreamIndex(at, seg), true);
  }

  // ---------------------------------------------------------------- the endpoint

  ghost predicate Stands(c: Connection, isn: U32, first: nat, next: nat, peer: U32, at: nat, over: bool) {
    c.Valid() && c.active && Sends(c.sender, isn, first, next) && Hears(c.receiver, peer, at, over)
  }

  /** The segment acknowledges everything before `ack`. */
  predicate Acks(seg: Segment, ack: nat, isn: U32) {
    seg.header.ack && ack < TWO_64 && seg.header.ackno == Wrap(ack, isn) && !seg.header.rst
  }

  /** A FIN without data at the number `v`. */
  predicate BareFin(seg: Segment, v: nat, isn: U32) {
    && v < TWO_64 && seg.header.seqno == Wrap(v, isn)
    && seg.header.fin && !seg.header.syn && !seg.header.rst && seg.payload == []
  }

  lemma ProbeIsHarmless(c: Connection, isn: U32, v: nat, peer: U32, at: nat, over: bool, seg: Segment)
    requires v >= 1 && c.Valid() && Sends(c.sender, isn, v, v) && Hears(c.receiver, peer, at, over)
    ensures var d := c.KeptAlive(seg);
            Sends(d.sender, isn, v, v) && d == c.(sender := d.sender, out := d.out) && c.out <= d.out
            && d.sender.stream == c.sender.stream
  {
    hide Wrap, Low32, Sender.FillWindow;
    NothingToFill(c.sender.SentEmpty(), isn, v, v, c.sender.SentEmpty().out);
  }

  /** What the state depends on. */
  lemma StandsIn(c: Connection, isn: U32, first: nat, next: nat, peer: U32, at: nat, over: bool)
    requires first >= 1 && Stands(c, isn, first, next, peer, at, over)
    ensures var st := if !c.sender.stream.ended then SynAcked else if first < next then FinSent else FinAcked;
            c.State() == TcpState(st, if over then FinRecv else SynRecv, true, c.linger)
  {
    hide Reassembler.Valid, Wrap;
  }

  lemma FreshStands(rto: U16, recvCapacity: nat, sendCapacity: nat, isn: U32)
    ensures var c := NewConnection(rto, recvCapacity, sendCapacity, isn);
            && Sends(c.sender, isn, 0, 0) && InStep(c.receiver.reassembler, false) && c.In(LISTEN)
  {
  }

  // ---------------------------------------------------------------- opening

  /** CLOSED to SYN_SENT: `connect` sends a SYN. */
  lemma OpensActively(rto: U16, recvCapacity: nat, sendCapacity: nat, isn: U32)
    ensures var c := NewConnection(rto, recvCapacity, sendCapacity, isn).Collected();
            && c.In(SYN_SENT) && Sends(c.sender, isn, 0, 1)
            && c.receiver == NewReceiver(recvCapacity)
            && c.out == [Segment(BLANK.(syn := true, seqno := isn), [])]
  {
    var c := NewConnection(rto, recvCapacity, sendCapacity, isn);
    FreshStands(rto, recvCapacity, sendCapacity, isn);
    SynGoesOut(c.sender, isn);
    assert StampedAll([c.sender.Syn()], c.receiver) == [c.sender.Syn()];
  }

  /** LISTEN to SYN_RCVD: a SYN is answered with a SYN that acknowledges it. */
  lemma OpensPassively(rto: U16, recvCapacity: nat, sendCapacity: nat, isn: U32, seg: Segment)
    requires seg.header.syn && !seg.header.fin && !seg.header.rst && seg.payload == []
    ensures var c := NewConnection(rto, recvCapacity, sendCapacity, isn).SegmentReceived(seg);
            && c.In(SYN_RCVD) && c.linger && Stands(c, isn, 0, 1, seg.header.seqno, 1, false)
            && |c.out| == 1 && Acks(c.out[0], 1, seg.header.seqno)
            && c.out[0].header.syn && !c.out[0].header.fin && c.out[0].payload == [] && c.out[0].header.seqno == isn
  {
    hide Receiver.SegmentReceived, Sender.FillWindow, Reassembler.Valid;
    var c := NewConnection(rto, recvCapacity, sendCapacity, isn);
    FreshStands(rto, recvCapacity, sendCapacity, isn);
    HearSyn(c.receiver, seg);
    SynGoesOut(c.sender, isn);
    var t := c.Taken(seg);
    assert StampedAll([c.sender.Syn()], t.receiver) == [Stamped(c.sender.Syn(), t.receiver)];
  }

  /** SYN_SENT to ESTABLISHED: the answer is acknowledged. */
  lemma AnswerEstablishes(c: Connection, isn: U32, seg: Segment)
    requires c.Valid() && c.In(SYN_SENT) && Sends(c.sender, isn, 0, 1)
    requires !c.receiver.ended && InStep(c.receiver.reassembler, false) && c.receiver.reassembler.firstUnassembled == 0
    requires seg.header.syn && !seg.header.fin && seg.payload == [] && Acks(seg, 1, isn)
    ensures var d := c.SegmentReceived(seg);
            && d.In(ESTABLISHED) && d.linger && Stands(d, isn, 1, 1, seg.header.seqno, 1, false)
            && |d.out| == |c.out| + 1 && Acks(d.out[|c.out|], 1, seg.header.seqno) && d.out[|c.out|].Length() == 0
  {
    hide Receiver.SegmentReceived, Sender.AckReceived, Reassembler.Valid, Wrap;
    HearSyn(c.receiver, seg);
    LastIsAcked(c.sender, isn, 1, seg.header.win);
  }

  /** SYN_SENT to SYN_RCVD: the peer's SYN crosses ours, and is acknowledged. */
  lemma SynCrosses(c: Connection, isn: U32, seg: Segment)
    requires c.Valid() && c.In(SYN_SENT) && Sends(c.sender, isn, 0, 1)
    requires !c.receiver.ended && InStep(c.receiver.reassembler, false) && c.receiver.reassembler.firstUnassembled == 0
    requires seg.header.syn && !seg.header.ack && !seg.header.fin && !seg.header.rst && seg.payload == []
    ensures var d := c.SegmentReceived(seg);
            && d.In(SYN_RCVD) && d.linger && Stands(d, isn, 0, 1, seg.header.seqno, 1, false)
            && |d.out| == |c.out| + 1 && Acks(d.out[|c.out|], 1, seg.header.seqno) && d.out[|c.out|].Length() == 0
  {
    hide Receiver.SegmentReceived, Reassembler.Valid, Wrap;
    HearSyn(c.receiver, seg);
  }

  /** SYN_RCVD to ESTABLISHED. */
  lemma AckEstablishes(c: Connection, isn: U32, peer: U32, seg: Segment)
    requires c.In(SYN_RCVD) && Stands(c, isn, 0, 1, peer, 1, false)
    requires seg.Length() == 0 && Acks(seg, 1, isn)
    ensures var d := c.SegmentReceived(seg);
            d.In(ESTABLISHED) && d.linger && Stands(d, isn, 1, 1, peer, 1, false)
  {
    hide Receiver.SegmentReceived, Sender.AckReceived, Reassembler.Valid, Wrap, Connection.KeptAlive;
    var c0 := c.(sinceLast := 0);
    HearNothing(c.receiver, peer, 1, false, seg);
    LastIsAcked(c.sender, isn, 1, seg.header.win);
    ProbeIsHarmless(c0.Dispatched(seg), isn, 1, peer, 1, false, seg);
  }

  /** Case 1 of the opening exchange: SYN, SYN with ACK, ACK; both sides end up ESTABLISHED. */
  lemma ThreeWayHandshake(rtoA: U16, recvA: nat, sendA: nat, isnA: U32, rtoB: U16, recvB: nat, sendB: nat, isnB: U32)
    ensures var a1 := NewConnection(rtoA, recvA, sendA, isnA).Collected();
            && a1.In(SYN_SENT) && |a1.out| == 1
            && var b1 := NewConnection(rtoB, recvB, sendB, isnB).SegmentReceived(a1.out[0]);
            && b1.In(SYN_RCVD) && |b1.out| == 1
            && var a2 := a1.SegmentReceived(b1.out[0]);
            && a2.In(ESTABLISHED) && |a2.out| == 2
            && var b2 := b1.SegmentReceived(a2.out[1]);
            && b2.In(ESTABLISHED)
            && Stands(a2, isnA, 1, 1, isnB, 1, false) && Stands(b2, isnB, 1, 1, isnA, 1, false)
            && a2.linger && b2.linger
  {
    hide Connection.SegmentReceived, Connection.Collected, Connection.State, Wrap;
    OpensActively(rtoA, recvA, sendA, isnA);
    var a1 := NewConnection(rtoA, recvA, sendA, isnA).Collected();
    OpensPassively(rtoB, recvB, sendB, isnB, a1.out[0]);
    var b1 := NewConnection(rtoB, recvB, sendB, isnB).SegmentReceived(a1.out[0]);
    FreshStands(rtoA, recvA, sendA, isnA);
    AnswerEstablishes(a1, isnA, b1.out[0]);
    AckEstablishes(b1, isnB, isnA, a1.SegmentReceived(b1.out[0]).out[1]);
  }

  /** Case 2: the two SYNs cross, and both sides go through SYN_RCVD. */
  lemma SimultaneousOpen(rtoA: U16, recvA: nat, sendA: nat, isnA: U32, rtoB: U16, recvB: nat, sendB: nat, isnB: U32)
    ensures var a1 := NewConnection(rtoA, recvA, sendA, isnA).Collected();
            var b1 := NewConnection(rtoB, recvB, sendB, isnB).Collected();
            && a1.In(SYN_SENT) && b1.In(SYN_SENT) && |a1.out| == |b1.out| == 1
            && var a2, b2 := a1.SegmentReceived(b1.out[0]), b1.SegmentReceived(a1.out[0]);
            && a2.In(SYN_RCVD) && b2.In(SYN_RCVD) && |a2.out| == |b2.out| == 2
            && var a3, b3 := a2.SegmentReceived(b2.out[1]), b2.SegmentReceived(a2.out[1]);
            && a3.In(ESTABLISHED) && b3.In(ESTABLISHED)
            && Stands(a3, isnA, 1, 1, isnB, 1, false) && Stands(b3, isnB, 1, 1, isnA, 1, false)
            && a3.linger && b3.linger
  {
    hide Connection.SegmentReceived, Connection.Collected, Connection.State, Wrap;
    OpensActively(rtoA, recvA, sendA, isnA);
    OpensActively(rtoB, recvB, sendB, isnB);
    FreshStands(rtoA, recvA, sendA, isnA);
    FreshStands(rtoB, recvB, sendB, isnB);
    var a1 := NewConnection(rtoA, recvA, sendA, isnA).Collected();
    var b1 := NewConnection(rtoB, recvB, sendB, isnB).Collected();
    SynCrosses(a1, isnA, b1.out[0]);
    SynCrosses(b1, isnB, a1.out[0]);
    AckEstablishes(a1.SegmentReceived(b1.out[0]), isnA, isnB, b1.SegmentReceived(a1.out[0]).out[1]);
    AckEstablishes(b1.SegmentReceived(a1.out[0]), isnB, isnA, a1.SegmentReceived(b1.out[0]).out[1]);
  }

  // ---------------------------------------------------------------- closing

  /** Ending the outbound stream sends a FIN that also acknowledges what has been heard. */
  lemma EndSendsFin(c: Connection, isn: U32, v: nat, peer: U32, at: nat, over: bool)
    requires v >= 1 && v + 1 < TWO_64 && Stands(c, isn, v, v, peer, at, over) && !c.sender.stream.ended
    ensures var d := c.InputEnded();
            && Stands(d, isn, v, v + 1, peer, at, over) && d.linger == c.linger && d.sender.stream.ended
            && d.rtTimeout == c.rtTimeout
            && |d.out| == |c.out| + 1
            && BareFin(d.out[|c.out|], v, isn) && Acks(d.out[|c.out|], at, peer)
  {
    hide Sender.FillWindow, Reassembler.Valid, Wrap;
    FinGoesOut(c.sender, isn, v);
    var fin := Segment(BLANK.(seqno := Wrap(v, isn), fin := true), []);
    assert StampedAll([fin], c.receiver) == [Stamped(fin, c.receiver)];
  }

  /** ESTABLISHED to FIN_WAIT_1, and CLOSE_WAIT to LAST_ACK. */
  lemma EndMovesOn(c: Connection, isn: U32, v: nat, peer: U32, at: nat, over: bool)
    requires v >= 1 && v + 1 < TWO_64 && Stands(c, isn, v, v, peer, at, over) && !c.sender.stream.ended
    requires c.linger == !over
    ensures c.In(if over then CLOSE_WAIT else ESTABLISHED)
    ensures c.InputEnded().In(if over then LAST_ACK else FIN_WAIT_1)
  {
    hide Connection.InputEnded, Connection.State, Hears, Sends, Acks, BareFin;
    EndSendsFin(c, isn, v, peer, at, over);
    StandsIn(c, isn, v, v, peer, at, over);
    StandsIn(c.InputEnded(), isn, v, v + 1, peer, at, over);
  }

  /** The peer's FIN is taken in, and an acknowledgment of it goes out through the sender's queue. */
  lemma FinIsTaken(c: Connection, isn: U32, first: nat, next: nat, peer: U32, at: nat, seg: Segment)
    requires first >= 1 && Stands(c, isn, first, next, peer, at, false)
    requires BareFin(seg, at, peer) && at + 1 < TWO_64
    ensures var t := c.Taken(seg);
            t.receiver.isSet
            && var d := t.(sender := t.sender.Queued(t.PureAck())).Collected();
            && Stands(d, isn, first, next, peer, at + 1, true)
            && d == c.(receiver := d.receiver, out := d.out)
            && |d.out| == |c.out| + 1 && c.out <= d.out
            && Acks(d.out[|c.out|], at + 1, peer) && d.out[|c.out|].Length() == 0
  {
    hide Receiver.SegmentReceived, Sender.FillWindow, Reassembler.Valid, Wrap, InStep;
    HearFin(c.receiver, peer, at, seg);
    var t := c.Taken(seg);
    var q := t.(sender := t.sender.Queued(t.PureAck()));
    NothingToFill(q.sender, isn, first, next, q.sender.out);
    assert q.sender.out == [t.PureAck()];
    assert StampedAll([t.PureAck()], t.receiver) == [Stamped(t.PureAck(), t.receiver)];
  }

  /** An acknowledgment that repeats what is known, and the sending it could set off. */
  lemma RepeatIsCollected(c: Connection, isn: U32, first: nat, next: nat, peer: U32, at: nat, over: bool, seg: Segment)
    requires first >= 1 && (first == next || Legible(next)) && Stands(c, isn, first, next, peer, at, over)
    requires Acks(seg, first, isn)
    ensures var d := c.AckTaken(seg).Collected();
            && Stands(d, isn, first, next, peer, at, over)
            && d == c.(sender := d.sender) && d.sender.stream == c.sender.stream
  {
    hide Sender.AckReceived, Sender.FillWindow, Reassembler.Valid, Wrap, Hears;
    RepeatIsHarmless(c.sender, isn, first, next, seg.header.win);
    AckKeepsStream(c.sender, seg.header.ackno, seg.header.win, isn, first, next);
    NothingToFill(c.AckTaken(seg).sender, isn, first, next, []);
    assert StampedAll([], c.receiver) == [];
  }

  lemma AckKeepsStream(s: Sender, ackno: U32, win: U16, isn: U32, first: nat, next: nat)
    requires Sends(s, isn, first, next)
    ensures s.AckReceived(ackno, win).stream == s.stream
  {
    hide Sender.FillWindow, Window.Acked, Window.Advances;
    FillExtends(s.Acknowledged(ackno, win));
  }

  /** ESTABLISHED to CLOSE_WAIT, and FIN_WAIT_1 to CLOSING: the peer's FIN is acknowledged. */
  lemma FinIsHeard(c: Connection, isn: U32, first: nat, next: nat, peer: U32, at: nat, seg: Segment)
    requires first >= 1 && (first == next || Legible(next)) && Stands(c, isn, first, next, peer, at, false) && c.linger
    requires next == first + if c.sender.stream.ended then 1 else 0
    requires BareFin(seg, at, peer) && at + 1 < TWO_64 && Acks(seg, first, isn)
    ensures var d := c.SegmentReceived(seg);
            && d.In(if c.sender.stream.ended then CLOSING else CLOSE_WAIT) && d.linger == c.sender.stream.ended
            && Stands(d, isn, first, next, peer, at + 1, true) && d.sender.stream == c.sender.stream
            && d.rtTimeout == c.rtTimeout
            && |d.out| == |c.out| + 1 && Acks(d.out[|c.out|], at + 1, peer) && d.out[|c.out|].Length() == 0
  {
    hide Connection.Taken, Connection.AckTaken, Connection.Collected, Connection.State, Wrap, Hears, Sends,
         Connection.OnListen, Connection.OnSynSent, Connection.OnClosing;
    var c0 := c.(sinceLast := 0);
    StandsIn(c0, isn, first, next, peer, at, false);
    var c1 := c0.(linger := c.sender.stream.ended);
    FinIsTaken(c1, isn, first, next, peer, at, seg);
    var t := c1.Taken(seg);
    var d := t.(sender := t.sender.Queued(t.PureAck())).Collected();
    RepeatIsCollected(d, isn, first, next, peer, at + 1, true, seg);
    assert c.SegmentReceived(seg) == d.AckTaken(seg).Collected();
    StandsIn(d.AckTaken(seg).Collected(), isn, first, next, peer, at + 1, true);
  }

  /** FIN_WAIT_1 to FIN_WAIT_2. */
  lemma FinIsAcked(c: Connection, isn: U32, v: nat, peer: U32, at: nat, seg: Segment)
    requires v >= 1 && Legible(v + 1) && Stands(c, isn, v, v + 1, peer, at, false) && c.linger && c.sender.stream.ended
    requires seg.Length() == 0 && Acks(seg, v + 1, isn)
    ensures var d := c.SegmentReceived(seg);
            && d.In(FIN_WAIT_2) && d.linger && Stands(d, isn, v + 1, v + 1, peer, at, false) && d.sender.stream.ended
            && d.rtTimeout == c.rtTimeout && c.out <= d.out
  {
    hide Connection.Taken, Connection.AckTaken, Connection.Collected, Connection.State, Connection.KeptAlive, Wrap,
         Hears, Sends, Connection.OnListen, Connection.OnSynSent, Connection.OnClosing;
    var c0 := c.(sinceLast := 0);
    StandsIn(c0, isn, v, v + 1, peer, at, false);
    LastIsCollected(c0, isn, v + 1, peer, at, false, seg);
    var d := c0.AckTaken(seg).Collected();
    assert c0.Dispatched(seg) == d;
    ProbeIsHarmless(d, isn, v + 1, peer, at, false, seg);
    StandsIn(d.KeptAlive(seg), isn, v + 1, v + 1, peer, at, false);
  }

  /** The last number is acknowledged, and there is nothing more to send. */
  lemma LastIsCollected(c: Connection, isn: U32, next: nat, peer: U32, at: nat, over: bool, seg: Segment)
    requires next >= 1 && Legible(next) && Stands(c, isn, next - 1, next, peer, at, over) && Acks(seg, next, isn)
    ensures var d := c.AckTaken(seg);
            && Stands(d, isn, next, next, peer, at, over)
            && d == c.(sender := d.sender) && d.sender.stream == c.sender.stream && d.Collected() == d
  {
    hide Sender.AckReceived, Sender.FillWindow, Reassembler.Valid, Wrap, Hears;
    LastIsAcked(c.sender, isn, next, seg.header.win);
    AckKeepsStream(c.sender, seg.header.ackno, seg.header.win, isn, next - 1, next);
    NothingToFill(c.AckTaken(seg).sender, isn, next, next, []);
    assert StampedAll([], c.receiver) == [];
  }

  /** FIN_WAIT_2 to TIME_WAIT: the peer's FIN is acknowledged. */
  lemma LastFinIsHeard(c: Connection, isn: U32, v: nat, peer: U32, at: nat, seg: Segment)
    requires v >= 1 && Stands(c, isn, v, v, peer, at, false) && c.linger && c.sender.stream.ended
    requires BareFin(seg, at, peer) && at + 1 < TWO_64 && Acks(seg, v, isn)
    ensures var d := c.SegmentReceived(seg);
            && d.In(TIME_WAIT) && d.linger && Stands(d, isn, v, v, peer, at + 1, true) && d.sinceLast == 0
            && d.rtTimeout == c.rtTimeout && d.sender.stream.ended
            && |d.out| == |c.out| + 1 && Acks(d.out[|c.out|], at + 1, peer) && d.out[|c.out|].Length() == 0
  {
    hide Receiver.SegmentReceived, Sender.AckReceived, Reassembler.Valid, Wrap, Connection.State, InStep,
         Connection.OnListen, Connection.OnSynSent, Connection.OnOpen, Connection.OnLastAck;
    var c0 := c.(sinceLast := 0);
    StandsIn(c0, isn, v, v, peer, at, false);
    HearFin(c.receiver, peer, at, seg);
    RepeatIsHarmless(c.sender, isn, v, v, seg.header.win);
    AckKeepsStream(c.sender, seg.header.ackno, seg.header.win, isn, v, v);
    SynchronizedStates(c0);
    var d := c0.Taken(seg).AckTaken(seg).Replied();
    assert c0.Dispatched(seg) == d;
    assert c.SegmentReceived(seg) == d;
    StandsIn(d, isn, v, v, peer, at + 1, true);
  }

  /** LAST_ACK to CLOSED. */
  lemma LastAckCloses(c: Connection, isn: U32, v: nat, peer: U32, at: nat, seg: Segment)
    requires v >= 1 && Legible(v + 1) && Stands(c, isn, v, v + 1, peer, at, true) && !c.linger && c.sender.stream.ended
    requires seg.Length() == 0 && Acks(seg, v + 1, isn)
    ensures c.SegmentReceived(seg).In(CLOSED)
  {
    hide Connection.AckTaken, Connection.Collected, Connection.State, Connection.KeptAlive, Wrap, Hears, Sends,
         Sender.State;
    var c0 := c.(sinceLast := 0);
    StandsIn(c0, isn, v, v + 1, peer, at, true);
    LastIsCollected(c0, isn, v + 1, peer, at, true, seg);
    var d := c0.AckTaken(seg);
    AllAcked(d.sender, isn, v + 1);
    assert c0.Dispatched(seg) == d.(linger := false, active := false);
    ProbeIsHarmless(d.(linger := false, active := false), isn, v + 1, peer, at, true, seg);
    ClosedIn(c.SegmentReceived(seg), isn, v + 1, peer, at);
  }

  lemma AllAcked(s: Sender, isn: U32, v: nat)
    requires v >= 1 && Sends(s, isn, v, v) && s.stream.ended
    ensures s.State() == SenderSummary(s) == FinAcked
  {
  }

  lemma ClosedIn(c: Connection, isn: U32, v: nat, peer: U32, at: nat)
    requires v >= 1 && Sends(c.sender, isn, v, v) && c.sender.stream.ended && Hears(c.receiver, peer, at, true)
    requires !c.active
    ensures c.In(CLOSED)
  {
    hide Reassembler.Valid, Wrap;
  }

  /** CLOSING to TIME_WAIT. */
  lemma CrossedFinIsAcked(c: Connection, isn: U32, v: nat, peer: U32, at: nat, seg: Segment)
    requires v >= 1 && Legible(v + 1) && Stands(c, isn, v, v + 1, peer, at, true) && c.linger && c.sender.stream.ended
    requires seg.Length() == 0 && Acks(seg, v + 1, isn)
    ensures var d := c.SegmentReceived(seg);
            && d.In(TIME_WAIT) && d.linger && Stands(d, isn, v + 1, v + 1, peer, at, true) && d.sinceLast == 0
            && d.rtTimeout == c.rtTimeout && d.sender.stream.ended
  {
    hide Receiver.SegmentReceived, Connection.AckTaken, Connection.Collected, Connection.State, Connection.KeptAlive,
         Wrap, Hears, Sends, Connection.OnListen, Connection.OnSynSent, Connection.OnOpen, Connection.OnLastAck,
         Connection.Replied;
    var c0 := c.(sinceLast := 0);
    StandsIn(c0, isn, v, v + 1, peer, at, true);
    HearNothing(c.receiver, peer, at, true, seg);
    var t := c0.Taken(seg);
    LastIsCollected(t, isn, v + 1, peer, at, true, seg);
    var d := t.AckTaken(seg).Collected();
    assert c0.Dispatched(seg) == d;
    ProbeIsHarmless(d, isn, v + 1, peer, at, true, seg);
    StandsIn(d.KeptAlive(seg), isn, v + 1, v + 1, peer, at, true);
  }

  /** TIME_WAIT to CLOSED, when ten initial timeouts have passed. */
  lemma WaitingCloses(c: Connection, isn: U32, v: nat, peer: U32, at: nat, ms: nat)
    requires v >= 1 && Stands(c, isn, v, v, peer, at, true) && c.linger && c.sender.stream.ended
    requires c.sinceLast + ms >= 10 * c.rtTimeout
    ensures c.Ticked(ms).In(CLOSED)
  {
    hide Reassembler.Valid, Wrap, Connection.State, Connection.Collected, Hears;
    var before := c.(sinceLast := c.sinceLast + ms);
    StandsIn(before, isn, v, v, peer, at, true);
    assert Aged([], ms) == [] && Expired([], ms) == [];
    assert c.sender.Ticked(ms) == c.sender;
    assert c.Ticked(ms) == before.(linger := false, active := false);
    ClosedIn(c.Ticked(ms), isn, v, peer, at);
  }

  /** Both ends have everything that the other has sent, and neither has ended its stream. */
  ghost predicate Level(a: Connection, isnA: U32, va: nat, b: Connection, isnB: U32, vb: nat) {
    && Stands(a, isnA, va, va, isnB, vb, false) && Stands(b, isnB, vb, vb, isnA, va, false)
    && a.linger && b.linger && !a.sender.stream.ended && !b.sender.stream.ended
    && 1 <= va && 1 <= vb && va + 2 < TWO_64 && vb + 2 < TWO_64
    && Legible(va + 1) && Legible(vb + 1)
  }

  /** Case 1 of the closing exchange, after any amount of data: FIN, ACK, FIN, ACK. The side that ends
      first waits in TIME_WAIT for ten initial timeouts, the other is CLOSED. */
  lemma FourWayClose(a: Connection, isnA: U32, va: nat, b: Connection, isnB: U32, vb: nat)
    requires Level(a, isnA, va, b, isnB, vb)
    ensures var a1 := a.InputEnded();
            && a1.In(FIN_WAIT_1) && |a1.out| == |a.out| + 1
            && var b1 := b.SegmentReceived(a1.out[|a.out|]);
            && b1.In(CLOSE_WAIT) && |b1.out| == |b.out| + 1
            && var a2 := a1.SegmentReceived(b1.out[|b.out|]);
            && a2.In(FIN_WAIT_2)
            && var b2 := b1.InputEnded();
            && b2.In(LAST_ACK) && |b2.out| == |b1.out| + 1
            && var a3 := a2.SegmentReceived(b2.out[|b1.out|]);
            && a3.In(TIME_WAIT) && |a3.out| == |a2.out| + 1
            && b2.SegmentReceived(a3.out[|a2.out|]).In(CLOSED)
            && a3.Ticked(10 * a.rtTimeout).In(CLOSED)
  {
    hide Connection.SegmentReceived, Connection.InputEnded, Connection.State, Connection.Ticked, Wrap, Hears, Sends;
    EndMovesOn(a, isnA, va, isnB, vb, false);
    EndSendsFin(a, isnA, va, isnB, vb, false);
    var a1 := a.InputEnded();
    FinIsHeard(b, isnB, vb, vb, isnA, va, a1.out[|a.out|]);
    var b1 := b.SegmentReceived(a1.out[|a.out|]);
    FinIsAcked(a1, isnA, va, isnB, vb, b1.out[|b.out|]);
    var a2 := a1.SegmentReceived(b1.out[|b.out|]);
    EndMovesOn(b1, isnB, vb, isnA, va + 1, true);
    EndSendsFin(b1, isnB, vb, isnA, va + 1, true);
    var b2 := b1.InputEnded();
    LastFinIsHeard(a2, isnA, va + 1, isnB, vb, b2.out[|b1.out|]);
    var a3 := a2.SegmentReceived(b2.out[|b1.out|]);
    LastAckCloses(b2, isnB, vb, isnA, va + 1, a3.out[|a2.out|]);
    WaitingCloses(a3, isnA, va + 1, isnB, vb + 1, 10 * a.rtTimeout);
  }

  /** Case 2: the two FINs cross, and both sides go through CLOSING to TIME_WAIT, and close ten initial
      timeouts later. */
  lemma SimultaneousClose(a: Connection, isnA: U32, va: nat, b: Connection, isnB: U32, vb: nat)
    requires Level(a, isnA, va, b, isnB, vb)
    ensures var a1, b1 := a.InputEnded(), b.InputEnded();
            && a1.In(FIN_WAIT_1) && b1.In(FIN_WAIT_1) && |a1.out| == |a.out| + 1 && |b1.out| == |b.out| + 1
            && var a2, b2 := a1.SegmentReceived(b1.out[|b.out|]), b1.SegmentReceived(a1.out[|a.out|]);
            && a2.In(CLOSING) && b2.In(CLOSING) && |a2.out| == |a1.out| + 1 && |b2.out| == |b1.out| + 1
            && var a3, b3 := a2.SegmentReceived(b2.out[|b1.out|]), b2.SegmentReceived(a2.out[|a1.out|]);
            && a3.In(TIME_WAIT) && b3.In(TIME_WAIT)
            && a3.Ticked(10 * a.rtTimeout).In(CLOSED) && b3.Ticked(10 * b.rtTimeout).In(CLOSED)
  {
    hide Connection.SegmentReceived, Connection.InputEnded, Connection.State, Connection.Ticked, Wrap, Hears, Sends;
    EndMovesOn(a, isnA, va, isnB, vb, false);
    EndSendsFin(a, isnA, va, isnB, vb, false);
    EndMovesOn(b, isnB, vb, isnA, va, false);
    EndSendsFin(b, isnB, vb, isnA, va, false);
    var a1, b1 := a.InputEnded(), b.InputEnded();
    FinIsHeard(a1, isnA, va, va + 1, isnB, vb, b1.out[|b.out|]);
    FinIsHeard(b1, isnB, vb, vb + 1, isnA, va, a1.out[|a.out|]);
    var a2, b2 := a1.SegmentReceived(b1.out[|b.out|]), b1.SegmentReceived(a1.out[|a.out|]);
    CrossedFinIsAcked(a2, isnA, va, isnB, vb + 1, b2.out[|b1.out|]);
    CrossedFinIsAcked(b2, isnB, vb, isnA, va + 1, a2.out[|a1.out|]);
    WaitingCloses(a2.SegmentReceived(b2.out[|b1.out|]), isnA, va + 1, isnB, vb + 1, 10 * a.rtTimeout);
    WaitingCloses(b2.SegmentReceived(a2.out[|a1.out|]), isnB, vb + 1, isnA, va + 1, 10 * b.rtTimeout);
  }

  // ---------------------------------------------------------------- a FIN that overtakes a byte

  /** An endpoint in ESTABLISHED is stranded by a FIN whose one byte of data comes just ahead of one
      that is missing. */
  lemma FinOvertakesByte(c: Connection, isn: U32, v: nat, peer: U32, at: nat, seg: Segment)
    requires v >= 1 && Stands(c, isn, v, v, peer, at, false) && c.linger && !c.sender.stream.ended
    requires at + 2 < TWO_64 && |seg.payload| == 1 && seg.header.seqno == Wrap(at + 1, peer)
    requires seg.header.fin && !seg.header.syn && !seg.header.rst
    ensures c.In(ESTABLISHED) && Stranded(c.SegmentReceived(seg))
  {
    hide Wrap, Unwrap, Reassembler.Push, Connection.SegmentReceived, Receiver.SegmentReceived, Stranded;
    StandsIn(c, isn, v, v, peer, at, false);
    UnwrapInvertsWrap(at + 1, peer, at);
    TakingPushes(c.receiver, seg);
    GapKeepsOpen(c.receiver.reassembler, Pushing(c.receiver, seg));
    FinEndsOrStrands(c, seg);
  }

  /** It happens right after the opening exchange, when the peer sends two bytes in two segments and the
      second, with the FIN, comes first. */
  lemma StrandedAfterHandshake(rtoA: U16, recvA: nat, sendA: nat, isnA: U32, rtoB: U16, recvB: nat, sendB: nat,
      isnB: U32, x: Byte)
    ensures var a1 := NewConnection(rtoA, recvA, sendA, isnA).Collected();
            |a1.out| == 1 && a1.In(SYN_SENT)
            && var b1 := NewConnection(rtoB, recvB, sendB, isnB).SegmentReceived(a1.out[0]);
            |b1.out| == 1
            && var a2 := a1.SegmentReceived(b1.out[0]);
            |a2.out| == 2
            && var b2 := b1.SegmentReceived(a2.out[1]);
            var second := Segment(BLANK.(seqno := Wrap(2, isnA), fin := true), [x]);
            b2.In(ESTABLISHED) && Stranded(b2.SegmentReceived(second))
  {
    hide Connection.SegmentReceived, Connection.Collected, Connection.State, Wrap, Stranded, Hears;
    ThreeWayHandshake(rtoA, recvA, sendA, isnA, rtoB, recvB, sendB, isnB);
    var a1 := NewConnection(rtoA, recvA, sendA, isnA).Collected();
    var b1 := NewConnection(rtoB, recvB, sendB, isnB).SegmentReceived(a1.out[0]);
    var b2 := b1.SegmentReceived(a1.SegmentReceived(b1.out[0]).out[1]);
    FinOvertakesByte(b2, isnB, 1, isnA, 1, Segment(BLANK.(seqno := Wrap(2, isnA), fin := true), [x]));
  }

  // ---------------------------------------------------------------- a FIN that overtakes the last ACK

  /** SYN_RCVD to a state without a name: the ACK that should complete the opening is lost, and the peer's
      FIN, which acknowledges as well, comes instead. The endpoint lingers where CLOSE_WAIT does not; its
      own FIN, if it goes out, takes it to CLOSING. */
  lemma FinOvertakesAck(c: Connection, isn: U32, peer: U32, seg: Segment)
    requires c.In(SYN_RCVD) && Stands(c, isn, 0, 1, peer, 1, false) && c.linger && !c.sender.stream.ended
    requires BareFin(seg, 1, peer) && Acks(seg, 1, isn)
    ensures var d := c.SegmentReceived(seg);
            && Stands(d, isn, 1, 1, peer, 2, true) && Rescuable(d) && (forall o :: !d.In(o))
            && d.InputEnded().In(CLOSING)
  {
    hide Receiver.SegmentReceived, Sender.AckReceived, Reassembler.Valid, Wrap, Connection.KeptAlive,
         Connection.InputEnded;
    var c0 := c.(sinceLast := 0);
    HearFin(c.receiver, peer, 1, seg);
    LastIsAcked(c.sender, isn, 1, seg.header.win);
    AckKeepsStream(c.sender, seg.header.ackno, seg.header.win, isn, 0, 1);
    var d := c0.Taken(seg).AckTaken(seg);
    assert c0.Dispatched(seg) == d;
    ProbeIsHarmless(d, isn, 1, peer, 2, true, seg);
    var e := c.SegmentReceived(seg);
    assert e == d.KeptAlive(seg);
    StandsIn(e, isn, 1, 1, peer, 2, true);
    EndSendsFin(e, isn, 1, peer, 2, true);
    StandsIn(e.InputEnded(), isn, 1, 2, peer, 2, true);
  }

  // ---------------------------------------------------------------- after a RST

  /** An endpoint that has been reset goes on sending: when its application ends the stream, as the event
      loop may have it do, the whole window goes out as FINs. */
  lemma ResetEndpointFloods(c: Connection, isn: U32, v: nat, peer: U32, at: nat, over: bool, rst: Segment)
    requires v >= 1 && v + TWO_16 < TWO_64 && Stands(c, isn, v, v, peer, at, over) && rst.header.rst
    ensures var d := c.SegmentReceived(rst);
            && d.In(RESET)
            && Fins(FillNew(d.sender.(stream := d.sender.stream.(ended := true)))) == c.sender.window.size
  {
    hide Reassembler.Valid, Wrap, Unwrap, Hears, FilledNew;
    RstResets(c, rst);
    var d := c.SegmentReceived(rst);
    var e := d.sender.(stream := d.sender.stream.(ended := true));
    assert e.Opened() == e;
    ResetFloodsWithFins(e);
    assert [] + FilledNew(e) == FilledNew(e);
  }
}
