/** What leaves an endpoint, and when: retransmissions, answers, and what the application has written
    (libsponge/tcp_connection.cc). */
module Outflow {
  import opened Words
  import opened WrappingIntegers
  import opened Segments
  import opened ByteStreams
  import opened Receiving
  import opened SendingWindows
  import opened Sending
  import opened SenderInvariants
  import opened Tiling
  import opened SenderRuns
  import opened Connections
  import opened Lifecycle
  import opened Naming

  /** The segment `g` as it leaves: only its acknowledgment fields may differ. */
  predicate LeavesAs(g: Segment, t: Segment) {
    && t.payload == g.payload
    && t.header == g.header.(ack := t.header.ack, ackno := t.header.ackno, win := t.header.win)
  }

  /** All of `queue` has been sent, in order, after what had been sent before. */
  predicate PassedOn(out: seq<Segment>, out': seq<Segment>, queue: seq<Segment>) {
    && out <= out' && |out| + |queue| <= |out'|
    && (forall j | 0 <= j < |queue| :: LeavesAs(queue[j], out'[|out| + j]))
  }

  lemma {:induction false} FilledQueues(s: Sender)
    requires s.Valid()
    ensures s.out <= s.Filled().out
    decreases s.window.Space()
  {
    hide Unwrap, Sender.State, Window.Space;
    if s.CanSend() && s.NextSegment().Length() != 0 {
      SpaceShrinks(s);
      FilledQueues(s.SentNext());
    }
  }

  lemma FillQueues(s: Sender)
    requires s.Valid()
    ensures s.out <= s.FillWindow().out
  {
    hide Unwrap, Sender.Filled, Sender.State;
    FilledQueues(s.Opened());
  }

  /** Collecting empties the sender's queue onto the wire. */
  lemma CollectPasses(c: Connection)
    requires c.Valid()
    ensures c.Collected().sender.out == [] && PassedOn(c.out, c.Collected().out, c.sender.out)
  {
    hide Sender.FillWindow, StampedAll;
    FillQueues(c.sender);
    var q := c.sender.FillWindow().out;
    StampedLength(q, c.receiver);
    forall j | 0 <= j < |c.sender.out| ensures LeavesAs(q[j], StampedAll(q, c.receiver)[j]) {
      StampingLosesNothing(q, c.receiver, j);
    }
  }

  lemma {:induction false} StampedLength(segs: seq<Segment>, r: Receiver)
    requires r.Valid()
    ensures |StampedAll(segs, r)| == |segs|
  {
    if segs != [] {
      StampedLength(segs[1..], r);
    }
  }

  // ---------------------------------------------------------------- ticks

  /** The states in which a tick sends what waits to be sent. */
  predicate SendsOnTick(c: Connection) {
    || c.In(SYN_SENT) || c.In(SYN_RCVD) || c.In(ESTABLISHED) || c.In(FIN_WAIT_1) || c.In(CLOSE_WAIT)
    || c.In(LAST_ACK) || c.In(CLOSING)
  }

  predicate FrontRunsOut(s: Sender, ms: nat) { s.window.buffer != [] && s.window.buffer[0].remaining <= ms }

  /** What a tick puts on the sender's queue: the oldest outstanding segment, if its timer has run out. */
  lemma TickQueues(s: Sender, ms: nat)
    requires Clocked(s)
    ensures s.Ticked(ms).out == s.out + if FrontRunsOut(s, ms) then [s.window.buffer[0].segment] else []
    ensures s.Ticked(ms).retransmissions == s.retransmissions + if FrontRunsOut(s, ms) then 1 else 0
  {
    hide Backoff;
    ExpiryFromTheFront(s.window.buffer, ms);
  }

  /** In the seven states in which something can be outstanding, a tick sends everything that waits in the
      sender's queue, and after it, if the front timer has run out, the oldest outstanding segment again. */
  lemma TickResends(c: Connection, ms: nat)
    requires ConnInv(c) && c.Valid() && c.active && SendsOnTick(c)
    requires c.sender.retransmissions + (if FrontRunsOut(c.sender, ms) then 1 else 0) <= 8
    ensures var d := c.Ticked(ms);
            && d.sender.out == []
            && PassedOn(c.out, d.out, c.sender.out
                                      + if FrontRunsOut(c.sender, ms) then [c.sender.window.buffer[0].segment] else [])
  {
    hide Good, Sender.Ticked, Connection.Ticked, Connection.Collected, SenderSummary, ReceiverSummary, PassedOn,
         FrontRunsOut;
    var t := c.(sinceLast := c.sinceLast + ms, sender := c.sender.Ticked(ms));
    GoodClocked(c.sender, c.rtTimeout);
    TickQueues(c.sender, ms);
    TickShape(c, ms);
    CollectPasses(t);
  }

  lemma GoodClocked(s: Sender, rto: U16)
    requires Good(s, rto)
    ensures Clocked(s) && s.Valid() && s.retransmissions <= 8
  {
    hide Clocked, Tiled;
  }

  /** A sound active endpoint, in those states, has sent what waited and what has run out, or has given up. */
  ghost predicate Tended(c: Connection, ms: nat, d: Connection) {
    ConnInv(c) && c.active && SendsOnTick(c) ==>
      || d.In(RESET)
      || (d.sender.out == []
          && PassedOn(c.out, d.out, c.sender.out
                                    + if FrontRunsOut(c.sender, ms) then [c.sender.window.buffer[0].segment] else []))
  }

  lemma TickTends(c: Connection, ms: nat)
    requires c.Valid()
    ensures Tended(c, ms, c.Ticked(ms))
  {
    hide Good, Connection.State, Connection.Ticked, PassedOn, Sender.Ticked;
    if ConnInv(c) && c.active && SendsOnTick(c) {
      GoodClocked(c.sender, c.rtTimeout);
      TickQueues(c.sender, ms);
      if c.sender.retransmissions + (if FrontRunsOut(c.sender, ms) then 1 else 0) <= 8 {
        TickResends(c, ms);
      } else {
        GivingUpSendsRst(c, ms, c);
      }
    }
  }

  /** In all other states, those without a name included, a tick sends nothing, unless the endpoint gives up:
      there a retransmission never leaves the endpoint. */
  lemma TickSendsNothingElse(c: Connection, ms: nat)
    requires c.Valid() && !SendsOnTick(c) && c.sender.Ticked(ms).retransmissions <= 8
    ensures c.Ticked(ms).out == c.out
  {
    hide SenderSummary, ReceiverSummary, Sender.Ticked, Connection.Collected;
  }

  /** The tick that finds more than eight retransmissions in a row sends one last segment, a RST, which resets
      whoever receives it. */
  lemma GivingUpSendsRst(c: Connection, ms: nat, peer: Connection)
    requires ConnInv(c) && c.Valid() && c.active && peer.Valid()
    requires FrontRunsOut(c.sender, ms) && c.sender.retransmissions == 8
    ensures var d := c.Ticked(ms);
            && d.In(RESET) && |d.out| == |c.out| + 1 && c.out <= d.out
            && d.out[|c.out|].header.rst && d.out[|c.out|].Length() == 0
            && peer.SegmentReceived(d.out[|c.out|]).In(RESET)
  {
    hide Good, Sender.Ticked, Connection.Ticked, Connection.Collected, SenderSummary, ReceiverSummary,
         Connection.SegmentReceived;
    var t := c.(sinceLast := c.sinceLast + ms, sender := c.sender.Ticked(ms));
    GoodClocked(c.sender, c.rtTimeout);
    TickQueues(c.sender, ms);
    OutstandingIsNotTimeWait(c);
    TickShape(c, ms);
    AbortedIsReset(t);
    RstResets(peer, c.Ticked(ms).out[|c.out|]);
  }

  lemma OutstandingIsNotTimeWait(c: Connection)
    requires ConnInv(c) && c.active && c.sender.window.buffer != []
    ensures !c.In(TIME_WAIT)
  {
    hide Good;
    if SenderSummary(c.sender) == FinAcked {
      FinAckedIsIdle(c.sender, c.rtTimeout);
    }
  }

  // ---------------------------------------------------------------- what the application does

  /** Nothing more can be sent: the window is used up to its right edge or beyond, or nothing is buffered and
      the stream is open, or the FIN has been sent. */
  predicate AllSent(s: Sender)
    requires s.Valid()
  {
    || s.window.next >= s.window.first + s.window.size
    || (s.stream.BufferSize() == 0 && !s.stream.ended)
    || s.window.next == |s.stream.written| + 2
  }

  lemma FillSendsAll(s: Sender, rto: U16)
    requires Good(s, rto)
    ensures s.Valid() && AllSent(s.FillWindow()) && s.FillWindow().window.next > 0
  {
    hide Clocked, Tiled, Sender.FillWindow;
    FillCore(s);
    FillIsMaximal(s);
    FullMeansEdge(s.FillWindow());
  }

  /** Connecting, writing and ending send, at once, all that the window has room for. */
  lemma CallsSend(c: Connection, call: Call)
    requires ConnInv(c) && c.Valid() && !c.sender.stream.error && RegularCall(c, call)
    requires call.Connect? || call.Write? || call.EndInput?
    ensures var d := Answer(c, call);
            && d.sender.out == [] && PassedOn(c.out, d.out, c.sender.out)
            && AllSent(d.sender) && d.sender.window.next > 0
            && (call.EndInput? ==> d.sender.stream.ended)
  {
    hide Good, Connection.Collected, PassedOn, RegularCall, AllSent;
    var e := if call.Connect? then c
             else c.(sender := c.sender.(stream := if call.Write? then c.sender.stream.Write(call.data)
                                                   else c.sender.stream.(ended := true)));
    if !call.Connect? {
      GoodStream(c, e, call);
    }
    CollectPasses(e);
    FillSendsAll(e.sender, c.rtTimeout);
    CollectedSender(e);
  }

  lemma CollectedSender(c: Connection)
    requires c.Valid()
    ensures c.Collected().sender == c.sender.FillWindow().(out := [])
    ensures AllSent(c.sender.FillWindow()) ==> AllSent(c.Collected().sender)
    ensures c.Collected().sender.stream.ended == c.sender.stream.ended
  {
    hide Sender.FillWindow;
    FillExtends(c.sender);
  }

  /** Reading from the inbound stream takes the oldest bytes and leaves everything else alone. */
  lemma ReadingTakesBytes(c: Connection, len: nat)
    requires c.Valid()
    ensures var d := Answer(c, ReadInbound(len));
            && d == c.(receiver := d.receiver)
            && FifoStep(c.receiver.Output(), ReadCall(len), d.receiver.Output())
            && d.receiver.isSet == c.receiver.isSet && d.receiver.checkpoint == c.receiver.checkpoint
  {
  }

  // ---------------------------------------------------------------- answers

  /** The segment acknowledges what the receiver has got, and says how much more it can take. */
  predicate IsAnswer(t: Segment, r: Receiver) {
    && t.header.ack && t.header.ackno == Wrap(r.checkpoint, r.isn)
    && t.header.win == Low16(r.reassembler.capacity + r.Output().readCount - |r.Output().written|)
  }

  /** An answer has been sent since. */
  ghost predicate Answered(c: Connection, d: Connection) {
    c.out <= d.out && exists i :: |c.out| <= i < |d.out| && IsAnswer(d.out[i], d.receiver)
  }

  /** The states and segments that call for an answer. */
  predicate CallsForAnswer(c: Connection, seg: Segment) {
    var h := seg.header;
    if c.In(LISTEN) || c.In(SYN_SENT) then h.syn
    else if c.In(ESTABLISHED) || c.In(FIN_WAIT_1) then seg.Length() != 0 || !h.ack
    else if c.In(FIN_WAIT_2) || c.In(TIME_WAIT) then h.fin && h.ack
    else c.In(CLOSE_WAIT) && h.fin
  }

  /** What is collected once there is a SYN is an answer, whatever else it is. */
  lemma CollectAnswers(c: Connection, j: nat)
    requires c.Valid() && c.receiver.isSet && j < |c.sender.FillWindow().out|
    ensures c.out <= c.Collected().out && |c.out| + j < |c.Collected().out|
    ensures c.Collected().receiver == c.receiver && IsAnswer(c.Collected().out[|c.out| + j], c.receiver)
  {
    hide Sender.FillWindow, StampedAll, Wrap;
    StampingLosesNothing(c.sender.FillWindow().out, c.receiver, j);
  }

  lemma PureAckAnswers(c: Connection)
    requires c.Valid() && c.receiver.isSet
    ensures IsAnswer(c.PureAck(), c.receiver)
  {
    hide Wrap;
  }

  /** Sending more leaves an answer where it is. */
  lemma StaysAnswered(c: Connection, d: Connection, e: Connection)
    requires Answered(c, d) && d.out <= e.out && e.receiver == d.receiver
    ensures Answered(c, e)
  {
    hide IsAnswer;
    var i :| |c.out| <= i < |d.out| && IsAnswer(d.out[i], d.receiver);
    assert IsAnswer(e.out[i], e.receiver);
  }

  lemma ProbeAdds(c: Connection, seg: Segment)
    requires c.Valid()
    ensures c.out <= c.KeptAlive(seg).out && c.KeptAlive(seg).receiver == c.receiver
  {
    hide Connection.Collected, Sender.NextHeader, PassedOn, Onward;
    var q := c.(sender := c.sender.SentEmpty());
    CollectPasses(q);
    CollectOnward(q);
    PassedOnAdds(q.out, q.Collected().out, q.sender.out);
  }

  lemma PassedOnAdds(out: seq<Segment>, out': seq<Segment>, queue: seq<Segment>)
    requires PassedOn(out, out', queue)
    ensures out <= out'
  {
  }

  lemma TakenAnswers(c: Connection, seg: Segment)
    requires c.Valid() && c.receiver.isSet
    ensures c.Taken(seg).receiver.isSet
    ensures var t := c.Taken(seg);
            Answered(c, t.(sender := t.sender.Queued(t.PureAck())).Collected())
  {
    hide Connection.Collected, Receiver.SegmentReceived, IsAnswer, Connection.PureAck, Sender.FillWindow;
    var t := c.Taken(seg);
    var q := t.(sender := t.sender.Queued(t.PureAck()));
    FillQueues(q.sender);
    CollectAnswers(q, |c.sender.out|);
  }

  lemma AckStaysAnswered(c: Connection, d: Connection, seg: Segment)
    requires d.Valid() && Answered(c, d)
    ensures Answered(c, d.AckTaken(seg).Collected())
  {
    hide Connection.Collected, Answered, Onward, PassedOn, Sender.AckReceived;
    var a := d.AckTaken(seg);
    CollectPasses(a);
    CollectOnward(a);
    PassedOnAdds(a.out, a.Collected().out, a.sender.out);
    StaysAnswered(c, d, a.Collected());
  }

  lemma OpenAnswers(c: Connection, seg: Segment)
    requires c.Valid() && c.receiver.isSet && (seg.Length() != 0 || !seg.header.ack)
    ensures Answered(c, c.OnOpen(seg))
  {
    hide Connection.Collected, Connection.State, Connection.Taken, Connection.AckTaken, Answered, Connection.PureAck;
    var c0 := if seg.header.fin && !c.In(FIN_WAIT_1) then c.(linger := false) else c;
    TakenAnswers(c0, seg);
    var t := c0.Taken(seg);
    var d := t.(sender := t.sender.Queued(t.PureAck())).Collected();
    AnswerIgnoresFlags(c, c0, d);
    AckStaysAnswered(c, d, seg);
  }

  lemma AnswerIgnoresFlags(c: Connection, c0: Connection, d: Connection)
    requires Answered(c0, d) && c0.out == c.out
    ensures Answered(c, d)
  {
    hide IsAnswer;
    var i :| |c.out| <= i < |d.out| && IsAnswer(d.out[i], d.receiver);
  }

  lemma ReplyAnswers(c: Connection, d: Connection)
    requires d.Valid() && d.receiver.isSet && d.out == c.out
    ensures Answered(c, d.Replied())
  {
    hide IsAnswer, Connection.PureAck;
    PureAckAnswers(d);
    assert d.Replied().out[|c.out|] == d.PureAck();
  }

  lemma ListenAnswers(c: Connection, seg: Segment)
    requires ConnInv(c) && c.Valid() && c.active && c.In(LISTEN) && seg.header.syn
    ensures Answered(c, c.OnListen(seg))
  {
    hide Connection.Collected, Receiver.SegmentReceived, IsAnswer, Core, Tiled, Sender.FillWindow;
    var t := c.Taken(seg);
    CoreCanOpen(c.sender);
    SynIsQueued(c.sender);
    CollectAnswers(t, |c.sender.out|);
    assert Answered(c, t.Collected());
    StaysAnswered(c, t.Collected(), t.Collected().(active := true));
  }

  lemma SynIsQueued(s: Sender)
    requires s.Valid() && !(s.State().Closed? && s.window.Full()) && s.window.next == 0 && !s.stream.error
    ensures s.out + [s.Syn()] <= s.FillWindow().out
  {
    hide Unwrap, Sender.Filled, Window.Full;
    FilledQueues(s.Opened());
  }

  lemma SynSentAnswers(c: Connection, seg: Segment)
    requires c.Valid() && c.In(SYN_SENT) && seg.header.syn
    ensures Answered(c, c.Dispatched(seg))
  {
    hide Connection.State, Connection.Taken, Connection.AckTaken, Connection.Replied, Answered;
    OutUntouched(c, seg);
    if seg.header.ack {
      ReplyAnswers(c, c.Taken(seg).AckTaken(seg));
    } else {
      ReplyAnswers(c, c.Taken(seg));
    }
  }

  lemma ClosingAnswers(c: Connection, seg: Segment)
    requires c.Valid() && (c.In(FIN_WAIT_2) || c.In(TIME_WAIT) || c.In(CLOSE_WAIT)) && CallsForAnswer(c, seg)
    ensures Answered(c, c.Dispatched(seg))
  {
    hide Connection.State, Connection.Taken, Connection.AckTaken, Connection.Replied, Connection.Collected, Answered;
    SynchronizedStates(c);
    OutUntouched(c, seg);
    ReplyAnswers(c, if c.In(FIN_WAIT_2) then c.Taken(seg).AckTaken(seg) else c.AckTaken(seg));
  }

  lemma DispatchAnswers(c: Connection, seg: Segment)
    requires ConnInv(c) && c.Valid() && c.active && CallsForAnswer(c, seg)
    ensures Answered(c, c.Dispatched(seg))
  {
    hide ConnInv, Connection.State, Connection.OnOpen, Connection.OnListen, Connection.OnSynSent, Connection.OnClosing,
         Answered;
    SynchronizedStates(c);
    if c.In(LISTEN) {
      ListenAnswers(c, seg);
    } else if c.In(SYN_SENT) {
      SynSentAnswers(c, seg);
    } else if c.In(ESTABLISHED) || c.In(FIN_WAIT_1) {
      OpenAnswers(c, seg);
    } else {
      ClosingAnswers(c, seg);
    }
  }

  /** Every segment that takes up numbers in an open connection, every SYN while it opens, and every FIN after
      that is answered at once with the receiver's acknowledgment number and window. */
  lemma ArrivalsAreAnswered(c: Connection, seg: Segment)
    requires ConnInv(c) && c.Valid() && c.active && !seg.header.rst && CallsForAnswer(c, seg)
    ensures Answered(c, c.SegmentReceived(seg))
  {
    hide ConnInv, Connection.State, Connection.KeptAlive, Connection.Dispatched, Answered;
    var c0 := c.(sinceLast := 0);
    StateIgnoresClock(c, 0);
    ClockIsIrrelevant(c);
    DispatchAnswers(c0, seg);
    var d := c0.Dispatched(seg);
    AnswerIgnoresFlags(c, c0, d);
    ProbeAdds(d, seg);
    StaysAnswered(c, d, d.KeptAlive(seg));
  }

  lemma OutUntouched(c: Connection, seg: Segment)
    requires c.Valid()
    ensures c.Taken(seg).out == c.out && c.AckTaken(seg).out == c.out && c.Taken(seg).AckTaken(seg).out == c.out
    ensures c.AckTaken(seg).receiver == c.receiver && c.Taken(seg).AckTaken(seg).receiver == c.Taken(seg).receiver
  {
    hide Receiver.SegmentReceived, Sender.AckReceived;
  }

  lemma ClockIsIrrelevant(c: Connection)
    requires ConnInv(c)
    ensures ConnInv(c.(sinceLast := 0))
  {
    hide Good;
  }

  /** A keep-alive probe, which repeats the number before the one expected next, is answered in every state. */
  lemma ProbesAreAnswered(c: Connection, seg: Segment)
    requires c.Valid() && !seg.header.rst && seg.Length() == 0 && !TakesIn(c, seg)
    requires c.receiver.isSet && seg.header.seqno == Low32(Wrap(c.receiver.checkpoint, c.receiver.isn) - 1)
    ensures Answered(c, c.SegmentReceived(seg))
  {
    hide Connection.Collected, Connection.Dispatched, TakesIn, IsAnswer, Wrap, Low32, Sender.NextHeader, Onward,
         Sender.FillWindow;
    var c0 := c.(sinceLast := 0);
    StateIgnoresClock(c, 0);
    TakingIgnoresClock(c, seg);
    DispatchHears(c0, seg);
    DispatchAdds(c0, seg);
    var d := c0.Dispatched(seg);
    var q := d.(sender := d.sender.SentEmpty());
    FillQueues(q.sender);
    CollectAnswers(q, |d.sender.out|);
    assert c.SegmentReceived(seg) == q.Collected();
    assert IsAnswer(q.Collected().out[|q.out| + |d.sender.out|], q.Collected().receiver);
  }

  lemma TakingIgnoresClock(c: Connection, seg: Segment)
    ensures TakesIn(c.(sinceLast := 0), seg) == TakesIn(c, seg)
  {
    hide Connection.State;
    StateIgnoresClock(c, 0);
  }

  /** Handling a segment only ever adds to what has been sent. */
  lemma DispatchAdds(c: Connection, seg: Segment)
    requires c.Valid()
    ensures c.out <= c.Dispatched(seg).out
  {
    hide Connection.Collected, Connection.AckTaken, Connection.Taken, Connection.OnOpen, Connection.State, PassedOn,
         Connection.PureAck;
    SynchronizedStates(c);
    OutUntouched(c, seg);
    CollectPasses(c.Taken(seg));
    PassedOnAdds(c.out, c.Taken(seg).Collected().out, c.Taken(seg).sender.out);
    var t := c.Taken(seg).AckTaken(seg);
    CollectPasses(t);
    PassedOnAdds(c.out, t.Collected().out, t.sender.out);
    if c.receiver.isSet {
      OpenAdds(c, seg);
    }
  }

  lemma OpenAdds(c: Connection, seg: Segment)
    requires c.Valid() && c.receiver.isSet
    ensures c.out <= c.OnOpen(seg).out
  {
    hide Connection.Collected, Connection.State, Connection.AckTaken, Connection.Taken, IsAnswer, PassedOn;
    if seg.Length() != 0 || !seg.header.ack {
      OpenAnswers(c, seg);
    } else {
      var c0 := if seg.header.fin && !c.In(FIN_WAIT_1) then c.(linger := false) else c;
      OutUntouched(c0, seg);
      CollectPasses(c0.AckTaken(seg));
      PassedOnAdds(c.out, c0.AckTaken(seg).Collected().out, c0.AckTaken(seg).sender.out);
    }
  }

  // ---------------------------------------------------------------- what an acknowledgment sets off

  /** The segment makes the endpoint collect what it can send. */
  predicate SetsOffSending(c: Connection, seg: Segment) {
    || c.In(ESTABLISHED) || c.In(FIN_WAIT_1)
    || (c.In(LISTEN) && seg.header.syn) || (c.In(CLOSING) && seg.header.ack)
  }

  /** Nothing is left in the queue, and what was there has been sent. */
  predicate Emptied(c: Connection, d: Connection) { d.sender.out == [] && PassedOn(c.out, d.out, c.sender.out) }

  lemma AckThenCollect(c: Connection, d: Connection, seg: Segment)
    requires d.Valid() && Emptied(c, d)
    ensures Emptied(c, d.AckTaken(seg).Collected())
  {
    hide Connection.Collected, LeavesAs, Sender.AckReceived;
    CollectPasses(d.AckTaken(seg));
  }

  lemma ProbeEmpties(c: Connection, d: Connection, seg: Segment)
    requires d.Valid() && Emptied(c, d)
    ensures Emptied(c, d.KeptAlive(seg))
  {
    hide Connection.Collected, LeavesAs, Sender.NextHeader;
    CollectPasses(d.(sender := d.sender.SentEmpty()));
  }

  /** An acknowledgment alone: the queue after it begins with what was there. */
  lemma AckQueues(c: Connection, seg: Segment)
    requires c.Valid()
    ensures c.sender.out <= c.AckTaken(seg).sender.out && c.AckTaken(seg).out == c.out
  {
    hide Sender.FillWindow, Window.Acked, Window.Advances;
    FillQueues(c.sender.Acknowledged(seg.header.ackno, seg.header.win));
  }

  lemma PrefixPasses(out: seq<Segment>, out': seq<Segment>, queue: seq<Segment>, more: seq<Segment>)
    requires PassedOn(out, out', more) && queue <= more
    ensures PassedOn(out, out', queue)
  {
    hide LeavesAs;
  }

  lemma OpenEmpties(c: Connection, seg: Segment)
    requires c.Valid() && c.receiver.isSet
    ensures Emptied(c, c.OnOpen(seg))
  {
    hide Connection.Collected, Connection.State, Connection.Taken, Connection.AckTaken, PassedOn, Connection.PureAck,
         Onward;
    var c0 := if seg.header.fin && !c.In(FIN_WAIT_1) then c.(linger := false) else c;
    if seg.Length() != 0 || !seg.header.ack {
      TakeOnward(c0, seg);
      var t := c0.Taken(seg);
      var q := t.(sender := t.sender.Queued(t.PureAck()));
      CollectPasses(q);
      PrefixPasses(c.out, q.Collected().out, c.sender.out, q.sender.out);
      AckThenCollect(c, q.Collected(), seg);
    } else {
      AckQueues(c0, seg);
      var a := c0.AckTaken(seg);
      CollectPasses(a);
      PrefixPasses(c.out, a.Collected().out, c.sender.out, a.sender.out);
    }
  }

  /** In an open connection everything that a segment sets off is sent before the call returns: the queue is
      empty and what waited in it has gone out. */
  lemma ArrivalEmptiesQueue(c: Connection, seg: Segment)
    requires c.Valid() && !seg.header.rst && SetsOffSending(c, seg)
    ensures Emptied(c, c.SegmentReceived(seg))
  {
    hide Connection.State, Connection.KeptAlive, Connection.OnOpen, Connection.Taken, Connection.AckTaken,
         Connection.Collected, PassedOn, Onward;
    var c0 := c.(sinceLast := 0);
    StateIgnoresClock(c, 0);
    SynchronizedStates(c0);
    var d := c0.Dispatched(seg);
    if c.In(LISTEN) {
      TakeOnward(c0, seg);
      CollectPasses(c0.Taken(seg));
    } else if c.In(CLOSING) {
      TakeOnward(c0, seg);
      var t := c0.Taken(seg);
      AckQueues(t, seg);
      CollectPasses(t.AckTaken(seg));
      PrefixPasses(c.out, t.AckTaken(seg).Collected().out, c.sender.out, t.AckTaken(seg).sender.out);
    } else {
      OpenEmpties(c0, seg);
    }
    assert Emptied(c, d);
    ProbeEmpties(c, d, seg);
  }

  /** A segment that neither calls for an answer nor sets off sending is not answered, unless it is a probe. */
  lemma NothingElseIsSent(c: Connection, seg: Segment)
    requires c.Valid() && !seg.header.rst && !CallsForAnswer(c, seg) && !SetsOffSending(c, seg)
    ensures seg.Length() != 0 ==> c.SegmentReceived(seg).out == c.out
    ensures seg.Length() == 0 && !TakesIn(c, seg) && c.SegmentReceived(seg).out != c.out ==>
              c.receiver.isSet && seg.header.seqno == Low32(Wrap(c.receiver.checkpoint, c.receiver.isn) - 1)
  {
    hide Connection.State, Connection.Dispatched, Connection.Collected, TakesIn, Wrap, Low32, Sender.NextHeader;
    var c0 := c.(sinceLast := 0);
    StateIgnoresClock(c, 0);
    TakingIgnoresClock(c, seg);
    DispatchIsSilent(c0, seg);
    DispatchHears(c0, seg);
  }

  lemma DispatchIsSilent(c: Connection, seg: Segment)
    requires c.Valid() && !CallsForAnswer(c, seg) && !SetsOffSending(c, seg)
    ensures c.Dispatched(seg).out == c.out
  {
    hide Connection.State, Connection.Taken, Connection.AckTaken, Connection.Collected, Connection.OnOpen, Sender.State;
    SynchronizedStates(c);
    OutUntouched(c, seg);
  }
}
