/** Which segments take an endpoint to a state that has no name, and what becomes of it there
    (libsponge/tcp_connection.cc, libsponge/tcp_helpers/tcp_state.cc). */
module Naming {
  import opened Words
  import opened WrappingIntegers
  import opened Segments
  import opened Reassembly
  import opened ReassemblyRuns
  import opened Receiving
  import opened SendingWindows
  import opened Sending
  import opened SenderInvariants
  import opened Tiling
  import opened Transmission
  import opened SenderRuns
  import opened Connections
  import opened Lifecycle
  import opened Stranding

  // ---------------------------------------------------------------- the sender after an acknowledgment

  /** Where the left edge of the window stands once the segment's acknowledgment has been looked at. */
  function FirstAfter(w: Window, h: Header): U64 {
    if h.ack && w.Advances(h.ackno) then w.AckPosition(h.ackno) else w.first
  }

  /** And its right edge. */
  function EdgeAfter(w: Window, h: Header): nat {
    FirstAfter(w, h) + if h.ack && w.Accepts(h.ackno) then Max(h.win, 1) else w.size
  }

  /** How the sender looks once it has sent what it then can: the FIN is out if the stream has ended and
      either the window has room for it or it has moved left, so that nothing holds the sender back. */
  function SummaryAfter(s: Sender, h: Header): SenderState {
    var w, fin := s.window, |s.stream.written| + 2;
    if FirstAfter(w, h) == 0 then SynSent
    else if !s.stream.ended || w.next <= EdgeAfter(w, h) < fin then SynAcked
    else if FirstAfter(w, h) < fin then FinSent
    else FinAcked
  }

  /** The sender after filling its window, as the state summary sees it. */
  lemma FillSummary(s: Sender)
    requires Core(s) && Tiled(s.window) && s.window.next > 0
    ensures var t, fin := s.FillWindow(), |s.stream.written| + 2;
            SenderSummary(t) == if s.window.first == 0 then SynSent
                                else if !s.stream.ended || s.window.next <= s.window.first + s.window.size < fin
                                then SynAcked
                                else if s.window.first < fin then FinSent else FinAcked
  {
    hide Clocked, Tiled, Sender.FillWindow;
    FillCore(s);
    FillTiles(s);
    FillExtends(s);
    FillIsMaximal(s);
    FillKeepsInWindow(s);
    var t := s.FillWindow();
    if s.window.first > 0 {
      FullMeansEdge(t);
    }
  }

  /** A full window is used up to its right edge. */
  lemma FullMeansEdge(s: Sender)
    requires Core(s)
    ensures s.window.Full() ==> s.window.next == s.window.first + s.window.size
    ensures InWindow(s) <==> s.window.next <= s.window.first + s.window.size
  {
    hide Clocked, Numbered, Handshaking;
  }

  lemma AckSummary(s: Sender, rto: U16, h: Header)
    requires Good(s, rto) && s.window.next > 0
    requires h.ack ==> Admissible(s, h.ackno) && Readable(s.window, h.ackno)
    ensures SenderSummary(if h.ack then s.AckReceived(h.ackno, h.win) else s.FillWindow()) == SummaryAfter(s, h)
  {
    hide Core, Tiled, Window.Acked, Sender.FillWindow, Narrow, Straddled, Window.AckPosition;
    if h.ack {
      var t := s.Acknowledged(h.ackno, h.win);
      AcknowledgedCore(s, h.ackno, h.win);
      AcknowledgedTiles(s, h.ackno, h.win);
      AckedEdges(s, h);
      FillSummary(t);
    } else {
      FillSummary(s);
    }
  }

  lemma AckedEdges(s: Sender, h: Header)
    requires Core(s) && Tiled(s.window) && h.ack && Readable(s.window, h.ackno)
    ensures var w := s.Acknowledged(h.ackno, h.win).window;
            && w.first == FirstAfter(s.window, h) && w.next == s.window.next
            && w.first + w.size == EdgeAfter(s.window, h)
  {
    hide Clocked, Tiled, Readable, Window.AckPosition, Window.Search;
    var j := AckedTiles(s.window, h.ackno, Max(h.win, 1));
  }

  /** A sender that has filled its window has nothing more to send. */
  lemma FillTwice(s: Sender)
    requires Core(s) && Tiled(s.window)
    ensures s.FillWindow().FillWindow() == s.FillWindow()
  {
    hide Clocked, Tiled, Wrap, Unwrap, Sender.Filled;
    OpenedCore(s);
    if s.window.next == 0 {
      UnwrapAtCheckpoint(0, s.window.isn);
      AddedTiles(s.window, s.Syn(), Low32(s.rto));
    }
    FilledCore(s.Opened());
    FilledIsMaximal(s.Opened());
    StaysFilled(s.FillWindow());
  }

  lemma StaysFilled(s: Sender)
    requires s.Valid() && !s.CanSend() && s.window.next > 0
    ensures s.FillWindow() == s
  {
    hide Unwrap;
  }

  // ---------------------------------------------------------------- the receiver after a segment

  /** Taking in the segment ends the inbound stream: the end is flagged, now or before, and no byte is
      missing. */
  ghost predicate EndsInbound(r: Receiver, seg: Segment) {
    && (r.reassembler.eofed || seg.header.fin)
    && forall k: nat :: !Missing(r.reassembler, Pushing(r, seg), k)
  }

  /** What the theorems below need of the receiver, which every run gives them. */
  ghost predicate Orderly(c: Connection) { Addressable(c) && Marked(c.receiver) }

  /** FIN_RECV or SYN_RECV. */
  function EndOrNot(ended: bool): ReceiverState { if ended then FinRecv else SynRecv }

  lemma HeardSummary(c: Connection, seg: Segment)
    requires c.Valid() && Orderly(c) && (c.receiver.isSet || seg.header.syn)
    requires !c.receiver.Output().error && (c.receiver.isSet ==> !c.receiver.Output().ended)
    ensures ReceiverSummary(c.receiver.SegmentReceived(seg)) == EndOrNot(EndsInbound(c.receiver, seg))
  {
    hide HeldBelowMark, Receiver.SegmentReceived, Missing, Pushing, Reassembler.Push, Reassembler.Valid;
    TakeKeepsError(c.receiver, seg);
    TakingPushes(c.receiver, seg);
    PushingFlags(c.receiver, seg);
    PushEndsExactly(c.receiver.reassembler, Pushing(c.receiver, seg));
  }

  // ---------------------------------------------------------------- state by state

  /** A sound endpoint that has not been reset, and a segment that is regular for it and has no RST. */
  ghost predicate Meets(c: Connection, seg: Segment) {
    && ConnInv(c) && c.Valid() && c.active && Orderly(c)
    && RegularCall(c, Arrive(seg)) && !seg.header.rst
  }

  lemma CollectSummary(c: Connection)
    requires c.Valid()
    ensures SenderSummary(c.Collected().sender) == SenderSummary(c.sender.FillWindow())
  {
    hide Sender.FillWindow;
  }

  /** Nothing is left to send, whatever waits in the queue. */
  predicate Quiet(s: Sender)
    requires s.Valid()
  {
    !s.CanSend() && s.window.next > 0
  }

  lemma QuietCollect(c: Connection)
    requires c.Valid() && Quiet(c.sender)
    ensures c.Collected().State() == c.State() && Quiet(c.Collected().sender)
  {
    hide Unwrap;
    StaysFilled(c.sender);
    assert c.Collected().sender == c.sender.(out := []);
  }

  lemma QuietProbe(c: Connection, seg: Segment)
    requires c.Valid() && Quiet(c.sender)
    ensures c.KeptAlive(seg).State() == c.State()
  {
    hide Connection.Collected, SenderSummary, Sender.NextHeader;
    var q := c.(sender := c.sender.SentEmpty());
    SummaryIgnoresQueue(c.sender, q.sender.out);
    QuietIgnoresQueue(c.sender, q.sender.out);
    QuietCollect(q);
  }

  lemma QuietIgnoresQueue(s: Sender, out: seq<Segment>)
    requires s.Valid() && Quiet(s)
    ensures Quiet(s.(out := out))
  {
    hide Sender.State;
    StateIgnoresQueue(s, out);
  }

  lemma FilledIsQuiet(s: Sender, rto: U16)
    requires Good(s, rto)
    ensures s.Valid() && Quiet(s.FillWindow())
  {
    hide Clocked, Tiled, Wrap, Unwrap, Sender.Filled;
    OpenedCore(s);
    if s.window.next == 0 {
      UnwrapAtCheckpoint(0, s.window.isn);
      AddedTiles(s.window, s.Syn(), Low32(s.rto));
    }
    FilledCore(s.Opened());
    FilledIsMaximal(s.Opened());
  }

  lemma MeetsSound(c: Connection, seg: Segment)
    requires Meets(c, seg)
    ensures Good(c.sender, c.rtTimeout) && Core(c.sender) && Tiled(c.sender.window)
    ensures !c.sender.stream.error && !c.receiver.Output().error && Orderly(c)
  {
    hide Core, Tiled, RegularCall;
  }

  /** A new sender opens with its SYN. */
  lemma SynSummary(s: Sender)
    requires Core(s) && s.window.next == 0
    ensures SenderSummary(s.FillWindow()) == SynSent
  {
    hide Clocked, Sender.FillWindow;
    FillCore(s);
    FillExtends(s);
  }

  lemma ListenName(c: Connection, seg: Segment)
    requires Meets(c, seg) && c.In(LISTEN)
    ensures c.SegmentReceived(seg).State() ==
            if seg.header.syn then TcpState(SynSent, EndOrNot(EndsInbound(c.receiver, seg)), true, true)
            else Named(LISTEN)
  {
    hide Core, Tiled, Orderly, EndsInbound, RegularCall, Receiver.SegmentReceived, Sender.FillWindow,
         Connection.Collected, Onward;
    MeetsSound(c, seg);
    var c0 := c.(sinceLast := 0);
    if seg.header.syn {
      var t := c0.Taken(seg);
      assert c.SegmentReceived(seg) == t.Collected().(active := true);
      HeardSummary(c, seg);
      SynSummary(c.sender);
      CollectSummary(t);
      CollectOnward(t);
    } else {
      IgnoredArrive(c, seg);
    }
  }

  /** An acknowledgment is taken, and there is nothing more to send. */
  lemma AckTakenSummary(c: Connection, seg: Segment)
    requires c.Valid() && Good(c.sender, c.rtTimeout) && c.sender.window.next > 0
    requires Admissible(c.sender, seg.header.ackno) && Readable(c.sender.window, seg.header.ackno)
    ensures SenderSummary(c.AckTaken(seg).sender) == SummaryAfter(c.sender, seg.header.(ack := true))
    ensures Good(c.AckTaken(seg).sender, c.rtTimeout)
    ensures Quiet(c.AckTaken(seg).sender)
    ensures c.AckTaken(seg) == c.(sender := c.AckTaken(seg).sender)
  {
    hide Core, Tiled, Sender.FillWindow, Window.Acked, Narrow, Straddled, Window.AckPosition, SummaryAfter,
         SenderSummary, Quiet;
    AckSummary(c.sender, c.rtTimeout, seg.header.(ack := true));
    GoodAck(c.sender, c.rtTimeout, seg.header.ackno, seg.header.win);
    AcknowledgedCore(c.sender, seg.header.ackno, seg.header.win);
    AcknowledgedTiles(c.sender, seg.header.ackno, seg.header.win);
    FilledIsQuiet(c.sender.Acknowledged(seg.header.ackno, seg.header.win), c.rtTimeout);
  }

  lemma RegularAck(c: Connection, seg: Segment)
    requires Meets(c, seg) && (seg.header.ack || seg.header.fin)
    ensures Admissible(c.sender, seg.header.ackno) && Readable(c.sender.window, seg.header.ackno)
    ensures Readable(c.sender.FillWindow().window, seg.header.ackno)
  {
    hide ConnInv, Orderly, Admissible, Readable, Sender.FillWindow;
  }

  /** While the SYN is out there is nothing more to send. */
  lemma SynSentIsQuiet(s: Sender)
    requires Core(s) && SenderSummary(s) == SynSent
    ensures Quiet(s) && s.window.first == 0 && s.window.next > 0
    ensures forall h: Header | !h.ack :: SummaryAfter(s, h) == SynSent
  {
    hide Clocked;
  }

  lemma SynSentName(c: Connection, seg: Segment)
    requires Meets(c, seg) && c.In(SYN_SENT)
    ensures c.SegmentReceived(seg).State() ==
            if seg.header.syn
            then TcpState(SummaryAfter(c.sender, seg.header), EndOrNot(EndsInbound(c.receiver, seg)), true, true)
            else Named(SYN_SENT)
  {
    hide Core, Tiled, Orderly, EndsInbound, RegularCall, Receiver.SegmentReceived, Sender.AckReceived, SenderSummary,
         SummaryAfter, Quiet, Connection.Collected, Admissible, Readable;
    MeetsSound(c, seg);
    SynSentIsQuiet(c.sender);
    var c0 := c.(sinceLast := 0);
    if seg.header.syn {
      HeardSummary(c, seg);
      if seg.header.ack {
        RegularAck(c, seg);
        AckTakenSummary(c0.Taken(seg), seg);
        assert c.SegmentReceived(seg) == c0.Taken(seg).AckTaken(seg).Replied();
      } else {
        assert c.SegmentReceived(seg) == c0.Taken(seg).Replied();
      }
    } else {
      IgnoredArrive(c, seg);
    }
  }

  lemma SynRcvdName(c: Connection, seg: Segment)
    requires Meets(c, seg) && c.In(SYN_RCVD)
    ensures c.SegmentReceived(seg).State() ==
            if seg.header.ack
            then TcpState(SummaryAfter(c.sender, seg.header), EndOrNot(EndsInbound(c.receiver, seg)), true, true)
            else Named(SYN_RCVD)
  {
    hide Core, Tiled, Orderly, EndsInbound, RegularCall, Receiver.SegmentReceived, Sender.AckReceived, SenderSummary,
         SummaryAfter, Quiet, Connection.Collected, Admissible, Readable, Connection.KeptAlive;
    MeetsSound(c, seg);
    SynSentIsQuiet(c.sender);
    var c0 := c.(sinceLast := 0);
    if seg.header.ack {
      HeardSummary(c, seg);
      RegularAck(c, seg);
      AckTakenSummary(c0.Taken(seg), seg);
      QuietProbe(c0.Taken(seg).AckTaken(seg), seg);
      assert c.SegmentReceived(seg) == c0.Taken(seg).AckTaken(seg).KeptAlive(seg);
    } else {
      IgnoredArrive(c, seg);
      QuietProbe(c0, seg);
    }
  }

  // ---------------------------------------------------------------- ESTABLISHED and FIN_WAIT_1

  /** The sender that looks at the segment's acknowledgment. */
  function Ready(c: Connection, seg: Segment): Sender
    requires c.Valid()
  {
    if seg.Length() != 0 || !seg.header.ack then c.sender.FillWindow() else c.sender
  }

  /** The segment is taken in and an acknowledgment collected. */
  lemma AnsweredSender(c: Connection, seg: Segment)
    requires c.Valid() && Good(c.sender, c.rtTimeout) && c.receiver.isSet
    ensures var t := c.Taken(seg);
            t.receiver.isSet
            && var d := t.(sender := t.sender.Queued(t.PureAck())).Collected();
            && d.sender == c.sender.FillWindow().(out := [])
            && d == c.(sender := d.sender, receiver := c.receiver.SegmentReceived(seg), out := d.out)
  {
    hide Core, Tiled, Receiver.SegmentReceived, Sender.FillWindow;
    CoreCanOpen(c.sender);
    FillIgnoresQueue(c.sender, c.Taken(seg).sender.Queued(c.Taken(seg).PureAck()).out);
  }

  lemma SummariesIgnoreQueue(s: Sender, out: seq<Segment>, h: Header)
    ensures SummaryAfter(s.(out := out), h) == SummaryAfter(s, h)
    ensures SenderSummary(s.(out := out)) == SenderSummary(s)
  {
  }

  lemma OpenName(c: Connection, seg: Segment)
    requires c.Valid() && Good(c.sender, c.rtTimeout) && c.sender.window.first > 0 && c.receiver.isSet
    requires RegularCall(c, Arrive(seg))
    ensures var d := c.OnOpen(seg);
            && SenderSummary(d.sender) == SummaryAfter(Ready(c, seg), seg.header) && Quiet(d.sender)
            && d == c.(sender := d.sender, receiver := Heard(c.receiver, seg, seg.Length() != 0 || !seg.header.ack),
                       out := d.out, linger := c.linger && !(seg.header.fin && !c.In(FIN_WAIT_1)))
  {
    hide Good, Receiver.SegmentReceived, Sender.FillWindow, Connection.Collected, Connection.AckTaken, Connection.State,
         SenderSummary, SummaryAfter, Quiet, Admissible, Readable;
    var c0 := if seg.header.fin && !c.In(FIN_WAIT_1) then c.(linger := false) else c;
    var c1 := c0;
    OpenedNumbers(c.sender, c.rtTimeout);
    if seg.Length() != 0 || !seg.header.ack {
      AnsweredSender(c0, seg);
      var t := c0.Taken(seg);
      c1 := t.(sender := t.sender.Queued(t.PureAck())).Collected();
      SummariesIgnoreQueue(c.sender.FillWindow(), [], seg.header);
      GoodFill(c.sender, c.rtTimeout);
      GoodQueue(c.sender.FillWindow(), c.rtTimeout, []);
      FillQuiet(c.sender, c.rtTimeout, seg.header);
      OpenedNumbers(c.sender.FillWindow(), c.rtTimeout);
    }
    if seg.header.ack {
      OpenAck(c1, seg);
    }
  }

  lemma OpenedNumbers(s: Sender, rto: U16)
    requires Good(s, rto) && s.window.first > 0
    ensures s.Valid() && s.window.next > 0
    ensures s.FillWindow().window.first > 0
  {
    hide Tiled, Clocked, Sender.FillWindow;
    FillExtends(s);
  }

  /** Filling twice is filling once, as far as the summary goes. */
  lemma FillQuiet(s: Sender, rto: U16, h: Header)
    requires Good(s, rto) && s.window.first > 0
    ensures s.Valid() && Quiet(s.FillWindow().(out := []))
    ensures !h.ack ==> SenderSummary(s.FillWindow()) == SummaryAfter(s.FillWindow(), h)
  {
    hide Core, Tiled, SenderSummary, SummaryAfter, Quiet, Sender.FillWindow;
    OpenedNumbers(s, rto);
    FilledIsQuiet(s, rto);
    QuietIgnoresQueue(s.FillWindow(), []);
    GoodFill(s, rto);
    OpenedNumbers(s.FillWindow(), rto);
    FillTwice(s);
    if !h.ack {
      AckSummary(s.FillWindow(), rto, h);
    }
  }

  lemma OpenAck(c: Connection, seg: Segment)
    requires c.Valid() && Good(c.sender, c.rtTimeout) && c.sender.window.first > 0 && seg.header.ack
    requires Readable(c.sender.window, seg.header.ackno)
    ensures var d := c.AckTaken(seg).Collected();
            && SenderSummary(d.sender) == SummaryAfter(c.sender, seg.header) && Quiet(d.sender)
            && d == c.(sender := d.sender, out := d.out)
  {
    hide Good, Connection.AckTaken, Connection.Collected, SenderSummary, SummaryAfter, Quiet, Readable, Onward;
    OpenedNumbers(c.sender, c.rtTimeout);
    AckTakenSummary(c, seg);
    var t := c.AckTaken(seg);
    QuietCollect(t);
    CollectOnward(t);
    SenderPart(t, t.Collected());
  }

  lemma SenderPart(c: Connection, d: Connection)
    requires c.State() == d.State()
    ensures SenderSummary(c.sender) == SenderSummary(d.sender)
  {
    hide SenderSummary, ReceiverSummary;
  }

  lemma EstablishedName(c: Connection, seg: Segment)
    requires Meets(c, seg) && c.In(ESTABLISHED)
    ensures c.SegmentReceived(seg).State() ==
            TcpState(SummaryAfter(Ready(c, seg), seg.header),
                     EndOrNot(TakesIn(c, seg) && EndsInbound(c.receiver, seg)), true, !seg.header.fin)
  {
    hide Core, Tiled, Orderly, EndsInbound, Receiver.SegmentReceived, SenderSummary, SummaryAfter, Quiet,
         Connection.OnOpen, Admissible, Readable, Connection.KeptAlive, Ready, Sender.FillWindow;
    MeetsSound(c, seg);
    OpenMeansAcked(c);
    var c0 := c.(sinceLast := 0);
    HeardSummary(c, seg);
    OpenName(c0, seg);
    ReadyIgnoresClock(c, seg);
    QuietProbe(c0.OnOpen(seg), seg);
    assert c.SegmentReceived(seg) == c0.OnOpen(seg).KeptAlive(seg);
  }

  lemma ReadyIgnoresClock(c: Connection, seg: Segment)
    requires c.Valid()
    ensures Ready(c.(sinceLast := 0), seg) == Ready(c, seg)
    ensures RegularCall(c, Arrive(seg)) ==> RegularCall(c.(sinceLast := 0), Arrive(seg))
  {
    hide Admissible, Readable, Sender.FillWindow;
  }

  // ---------------------------------------------------------------- the states after a FIN

  /** A FIN that is out stays out. */
  lemma FinStaysOut(s: Sender, h: Header)
    requires Core(s) && (SenderSummary(s) == FinSent || SenderSummary(s) == FinAcked)
    ensures Quiet(s) && s.window.first > 0 && s.window.next > 0
    ensures SummaryAfter(s, h) == FinSent || SummaryAfter(s, h) == FinAcked
    ensures SenderSummary(s) == FinAcked ==> SummaryAfter(s, h) == FinAcked
  {
    hide Clocked, Window.AckPosition;
  }

  /** A FIN that has not been sent is not acknowledged by what the segment says. */
  lemma FinIsOwed(s: Sender, h: Header)
    requires Core(s) && SenderSummary(s) == SynAcked
    ensures s.window.first > 0 && s.window.next > 0
    ensures SummaryAfter(s, h) == SynAcked || SummaryAfter(s, h) == FinSent
  {
    hide Clocked, Window.AckPosition;
  }

  lemma FinWaitName(c: Connection, seg: Segment)
    requires Meets(c, seg) && c.In(FIN_WAIT_1)
    ensures exists o :: c.SegmentReceived(seg).In(o)
  {
    hide Core, Tiled, Orderly, Receiver.SegmentReceived, SenderSummary, SummaryAfter, Quiet, Connection.OnOpen,
         Admissible, Readable, Connection.KeptAlive, Sender.FillWindow;
    MeetsSound(c, seg);
    OpenMeansAcked(c);
    var c0, h := c.(sinceLast := 0), seg.header;
    FinStaysOut(c.sender, h);
    StaysFilled'(c.sender);
    ReadyIgnoresClock(c, seg);
    TakenSummary(c, seg);
    OpenName(c0, seg);
    var d := c0.OnOpen(seg);
    QuietProbe(d, seg);
    assert c.SegmentReceived(seg) == d.KeptAlive(seg);
    var syn := ReceiverSummary(d.receiver) == SynRecv;
    var o := if SenderSummary(d.sender) == FinSent then (if syn then FIN_WAIT_1 else CLOSING)
             else (if syn then FIN_WAIT_2 else TIME_WAIT);
    assert d.KeptAlive(seg).In(o);
  }

  lemma StaysFilled'(s: Sender)
    requires s.Valid() && Quiet(s)
    ensures s.FillWindow() == s
  {
    hide Sender.FillWindow;
    StaysFilled(s);
  }

  /** The receiver stays in its half of the states. */
  lemma TakenSummary(c: Connection, seg: Segment)
    requires c.Valid() && c.receiver.isSet && !c.receiver.Output().error
    ensures var r := ReceiverSummary(c.receiver.SegmentReceived(seg));
            r == FinRecv || (r == SynRecv && ReceiverSummary(c.receiver) == SynRecv)
  {
    hide Receiver.SegmentReceived, Reassembler.Push, Reassembler.Valid, Pushing;
    TakeKeepsError(c.receiver, seg);
    TakingPushes(c.receiver, seg);
    PushingFlags(c.receiver, seg);
    PushMarks(c.receiver.reassembler, Pushing(c.receiver, seg));
  }

  /** What these states ignore. */
  lemma WhatIsIgnored(c: Connection, seg: Segment)
    ensures (c.In(FIN_WAIT_2) || c.In(TIME_WAIT)) && !(seg.header.fin && seg.header.ack) ==> Ignores(c, seg)
    ensures (c.In(LAST_ACK) || c.In(CLOSING)) && !seg.header.ack ==> Ignores(c, seg)
    ensures c.In(CLOSE_WAIT) && !seg.header.fin ==> Ignores(c, seg)
  {
    hide Connection.State;
  }

  lemma FinWait2Name(c: Connection, seg: Segment)
    requires Meets(c, seg) && c.In(FIN_WAIT_2)
    ensures exists o :: c.SegmentReceived(seg).In(o)
  {
    hide Core, Tiled, Orderly, RegularCall, Receiver.SegmentReceived, SenderSummary, SummaryAfter, Quiet, Admissible,
         Readable, Connection.KeptAlive, Sender.AckReceived, Connection.Collected, Ignores, Connection.SegmentReceived;
    MeetsSound(c, seg);
    var c0, h := c.(sinceLast := 0), seg.header;
    FinStaysOut(c.sender, h.(ack := true));
    SynchronizedStates(c);
    WhatIsIgnored(c, seg);
    if h.fin && h.ack {
      RegularAck(c, seg);
      TakenSummary(c, seg);
      AckTakenSummary(c0.Taken(seg), seg);
      var d := c0.Taken(seg).AckTaken(seg).Replied();
      NoProbe(c, d, seg);
      assert d.In(if ReceiverSummary(d.receiver) == SynRecv then FIN_WAIT_2 else TIME_WAIT);
    } else {
      IgnoredKeepsName(c, seg);
    }
  }

  lemma TimeWaitName(c: Connection, seg: Segment)
    requires Meets(c, seg) && c.In(TIME_WAIT)
    ensures exists o :: c.SegmentReceived(seg).In(o)
  {
    hide Core, Tiled, Orderly, RegularCall, Receiver.SegmentReceived, SenderSummary, SummaryAfter, Quiet, Admissible,
         Readable, Connection.KeptAlive, Sender.AckReceived, Connection.Collected, Ignores, Connection.SegmentReceived;
    MeetsSound(c, seg);
    var c0, h := c.(sinceLast := 0), seg.header;
    FinStaysOut(c.sender, h.(ack := true));
    SynchronizedStates(c);
    WhatIsIgnored(c, seg);
    if h.fin && h.ack {
      RegularAck(c, seg);
      AckTakenSummary(c0, seg);
      var d := c0.AckTaken(seg).Replied();
      NoProbe(c, d, seg);
      assert d.In(TIME_WAIT);
    } else {
      IgnoredKeepsName(c, seg);
    }
  }

  /** A segment that takes up a number is no probe. */
  lemma NoProbe(c: Connection, d: Connection, seg: Segment)
    requires c.Valid() && d.Valid() && d == c.(sinceLast := 0).Dispatched(seg) && !seg.header.rst && seg.Length() != 0
    ensures c.SegmentReceived(seg) == d
  {
    hide Connection.Dispatched;
  }

  lemma IgnoredKeepsName(c: Connection, seg: Segment)
    requires c.Valid() && Ignores(c, seg) && !seg.header.rst && Quiet(c.sender) && (exists o :: c.In(o))
    ensures exists o :: c.SegmentReceived(seg).In(o)
  {
    hide Connection.State, Connection.KeptAlive, Connection.SegmentReceived, Ignores, Quiet;
    IgnoredArrive(c, seg);
    StateIgnoresClock(c, 0);
    QuietProbe(c.(sinceLast := 0), seg);
    var o :| c.In(o);
    assert c.SegmentReceived(seg).In(o);
  }

  lemma StateIgnoresClock(c: Connection, t: nat)
    ensures c.(sinceLast := t).State() == c.State()
  {
  }

  lemma ProbeKeepsName(c: Connection, d: Connection, seg: Segment, o: Official)
    requires c.Valid() && d.Valid() && d == c.(sinceLast := 0).Dispatched(seg) && !seg.header.rst
    requires Quiet(d.sender) && d.In(o)
    ensures exists o :: c.SegmentReceived(seg).In(o)
  {
    hide Connection.State, Connection.KeptAlive, Connection.Dispatched, Quiet;
    QuietProbe(d, seg);
    assert c.SegmentReceived(seg).In(o);
  }

  /** What acknowledges in CLOSING is handed to both halves. */
  lemma ClosingDispatch(c: Connection, seg: Segment)
    requires c.Valid() && c.In(CLOSING) && seg.header.ack
    ensures c.Dispatched(seg) == c.Taken(seg).AckTaken(seg).Collected()
  {
    hide Connection.State, Connection.Taken, Connection.AckTaken, Connection.Collected;
  }

  lemma ClosingName(c: Connection, seg: Segment)
    requires Meets(c, seg) && c.In(CLOSING)
    ensures exists o :: c.SegmentReceived(seg).In(o)
  {
    hide Core, Tiled, Orderly, RegularCall, Receiver.SegmentReceived, SenderSummary, SummaryAfter, Quiet, Admissible,
         Readable, Connection.Dispatched, Sender.AckReceived, Connection.Collected, Ignores,
         Connection.SegmentReceived, Onward;
    MeetsSound(c, seg);
    WhatIsIgnored(c, seg);
    var c0, h := c.(sinceLast := 0), seg.header;
    FinStaysOut(c.sender, h.(ack := true));
    if h.ack {
      RegularAck(c, seg);
      TakenSummary(c, seg);
      AckTakenSummary(c0.Taken(seg), seg);
      var d := c0.Taken(seg).AckTaken(seg);
      QuietCollect(d);
      ClosingDispatch(c0, seg);
      ProbeKeepsName(c, d.Collected(), seg, if SenderSummary(d.sender) == FinSent then CLOSING else TIME_WAIT);
    } else {
      IgnoredKeepsName(c, seg);
    }
  }

  lemma LastAckName(c: Connection, seg: Segment)
    requires Meets(c, seg) && c.In(LAST_ACK)
    ensures exists o :: c.SegmentReceived(seg).In(o)
  {
    hide Core, Tiled, Orderly, RegularCall, Receiver.SegmentReceived, SenderSummary, SummaryAfter, Quiet, Admissible,
         Readable, Sender.AckReceived, Ignores, Sender.State, Connection.SegmentReceived, Connection.Collected;
    MeetsSound(c, seg);
    WhatIsIgnored(c, seg);
    var c0, h := c.(sinceLast := 0), seg.header;
    FinStaysOut(c.sender, h.(ack := true));
    if h.ack {
      RegularAck(c, seg);
      AckTakenSummary(c0, seg);
      var d := c0.AckTaken(seg);
      ClassifiersAgree(d.sender);
      var e := if d.sender.State() == FinAcked then d.(linger := false, active := false) else d;
      assert c0.Dispatched(seg) == e;
      ProbeKeepsName(c, e, seg, if d.sender.State() == FinAcked then CLOSED else LAST_ACK);
    } else {
      IgnoredKeepsName(c, seg);
    }
  }

  lemma CloseWaitName(c: Connection, seg: Segment)
    requires Meets(c, seg) && c.In(CLOSE_WAIT)
    ensures exists o :: c.SegmentReceived(seg).In(o)
  {
    hide Core, Tiled, Orderly, RegularCall, Receiver.SegmentReceived, SenderSummary, SummaryAfter, Quiet, Admissible,
         Readable, Sender.AckReceived, Connection.Collected, Ignores, Connection.SegmentReceived;
    MeetsSound(c, seg);
    WhatIsIgnored(c, seg);
    var c0, h := c.(sinceLast := 0), seg.header;
    FinIsOwed(c.sender, h.(ack := true));
    SynchronizedStates(c);
    if h.fin {
      RegularAck(c, seg);
      AckTakenSummary(c0, seg);
      var d := c0.AckTaken(seg).Replied();
      NoProbe(c, d, seg);
      assert d.In(if SenderSummary(d.sender) == SynAcked then CLOSE_WAIT else LAST_ACK);
    } else {
      IgnoredArrive(c, seg);
      ProbedName(c0, seg);
    }
  }

  lemma ProbedName(c: Connection, seg: Segment)
    requires c.Valid() && c.In(CLOSE_WAIT) && Good(c.sender, c.rtTimeout)
    ensures exists o :: c.KeptAlive(seg).In(o)
  {
    hide Core, Tiled, SenderSummary, SummaryAfter, Connection.Collected, Sender.NextHeader, Onward, Sender.FillWindow;
    var q := c.(sender := c.sender.SentEmpty());
    SummaryIgnoresQueue(c.sender, q.sender.out);
    GoodQueue(c.sender, c.rtTimeout, q.sender.out);
    FinIsOwed(q.sender, BLANK);
    AckSummary(q.sender, c.rtTimeout, BLANK);
    CollectSummary(q);
    CollectOnward(q);
    if c.KeptAlive(seg) != c {
      assert c.KeptAlive(seg).In(if SenderSummary(q.Collected().sender) == SynAcked then CLOSE_WAIT else LAST_ACK);
    }
  }

  // ---------------------------------------------------------------- whose acknowledgments are heeded

  /** The states and segments in which the acknowledgment number of a segment without RST is looked at; in
      CLOSE_WAIT even without the ACK flag. */
  predicate HeedsAck(c: Connection, seg: Segment) {
    var h := seg.header;
    if c.In(SYN_SENT) then h.syn && h.ack
    else if c.In(FIN_WAIT_2) || c.In(TIME_WAIT) then h.fin && h.ack
    else if c.In(CLOSE_WAIT) then h.fin
    else h.ack && (c.In(SYN_RCVD) || c.In(ESTABLISHED) || c.In(FIN_WAIT_1) || c.In(LAST_ACK) || c.In(CLOSING))
  }

  /** The edges of the window. */
  predicate Edges(s: Sender, first: int, edge: int) {
    s.window.first == first && s.window.first + s.window.size == edge
  }

  lemma AckTakenEdges(c: Connection, seg: Segment)
    requires c.Valid() && Good(c.sender, c.rtTimeout) && Readable(c.sender.window, seg.header.ackno)
    ensures var h := seg.header.(ack := true);
            Edges(c.AckTaken(seg).sender, FirstAfter(c.sender.window, h), EdgeAfter(c.sender.window, h))
  {
    hide Core, Tiled, Readable, Sender.FillWindow, Window.Acked, FirstAfter, EdgeAfter, Window.Advances;
    AckedEdges(c.sender, seg.header.(ack := true));
    FillExtends(c.sender.Acknowledged(seg.header.ackno, seg.header.win));
  }

  lemma CollectEdges(c: Connection)
    requires c.Valid()
    ensures Edges(c.Collected().sender, c.sender.window.first, c.sender.window.first + c.sender.window.size)
  {
    hide Sender.FillWindow;
    FillExtends(c.sender);
  }

  lemma ProbeEdges(c: Connection, seg: Segment)
    requires c.Valid()
    ensures Edges(c.KeptAlive(seg).sender, c.sender.window.first, c.sender.window.first + c.sender.window.size)
  {
    hide Connection.Collected, Sender.NextHeader;
    CollectEdges(c.(sender := c.sender.SentEmpty()));
  }

  lemma OpenEdges(c: Connection, seg: Segment)
    requires c.Valid() && Good(c.sender, c.rtTimeout) && c.receiver.isSet
    requires seg.header.ack ==> Readable(Ready(c, seg).window, seg.header.ackno)
    ensures var w := Ready(c, seg).window;
            Edges(c.OnOpen(seg).sender, FirstAfter(w, seg.header), EdgeAfter(w, seg.header))
  {
    hide Good, Receiver.SegmentReceived, Sender.FillWindow, Connection.Collected, Connection.AckTaken, Connection.State,
         Readable, FirstAfter, EdgeAfter, Connection.PureAck, Connection.Taken;
    var c0 := if seg.header.fin && !c.In(FIN_WAIT_1) then c.(linger := false) else c;
    if seg.Length() != 0 || !seg.header.ack {
      AnsweredSender(c0, seg);
      var t := c0.Taken(seg);
      var c1 := t.(sender := t.sender.Queued(t.PureAck())).Collected();
      GoodFill(c.sender, c.rtTimeout);
      GoodQueue(c.sender.FillWindow(), c.rtTimeout, []);
      AckedOrNot(c1, seg);
    } else {
      AckedOrNot(c0, seg);
    }
  }

  lemma AckedOrNot(c: Connection, seg: Segment)
    requires c.Valid() && Good(c.sender, c.rtTimeout)
    requires seg.header.ack ==> Readable(c.sender.window, seg.header.ackno)
    ensures var w, d := c.sender.window, if seg.header.ack then c.AckTaken(seg).Collected() else c;
            Edges(d.sender, FirstAfter(w, seg.header), EdgeAfter(w, seg.header))
  {
    hide Good, Connection.AckTaken, Connection.Collected, Readable, FirstAfter, EdgeAfter;
    if seg.header.ack {
      AckTakenEdges(c, seg);
      CollectEdges(c.AckTaken(seg));
    } else {
      NoAckNoMove(c.sender.window, seg.header);
    }
  }

  lemma NoAckNoMove(w: Window, h: Header)
    requires !h.ack
    ensures FirstAfter(w, h) == w.first && EdgeAfter(w, h) == w.first + w.size
  {
  }

  /** What any segment without RST does to the edges of the window: if its acknowledgment is heeded they move
      as it says, and otherwise they stay. */
  lemma ArriveHeeds(c: Connection, seg: Segment)
    requires Meets(c, seg)
    ensures var w := if c.In(ESTABLISHED) || c.In(FIN_WAIT_1) then Ready(c, seg).window else c.sender.window;
            var h := seg.header.(ack := HeedsAck(c, seg));
            Edges(c.SegmentReceived(seg).sender, FirstAfter(w, h), EdgeAfter(w, h))
  {
    hide Core, Tiled, Orderly, Connection.State, Connection.Dispatched, Connection.KeptAlive, RegularCall, Ready,
         HeedsAck, FirstAfter, EdgeAfter;
    var c0 := c.(sinceLast := 0);
    MeetsSound(c, seg);
    StateIgnoresClock(c, 0);
    ReadyIgnoresClock(c, seg);
    HeedingIgnoresClock(c, seg);
    if c.In(ESTABLISHED) || c.In(FIN_WAIT_1) {
      OpenMeansAcked(c);
      OpenHeeds(c0, seg);
    } else {
      if seg.header.ack || seg.header.fin {
        RegularAck(c, seg);
      }
      DispatchEdges(c0, seg);
    }
    ProbeEdges(c0.Dispatched(seg), seg);
  }

  lemma HeedingIgnoresClock(c: Connection, seg: Segment)
    ensures HeedsAck(c.(sinceLast := 0), seg) == HeedsAck(c, seg)
  {
    hide Connection.State;
    StateIgnoresClock(c, 0);
  }

  lemma OpenHeeds(c: Connection, seg: Segment)
    requires c.Valid() && Good(c.sender, c.rtTimeout) && c.sender.window.first > 0 && c.receiver.isSet
    requires RegularCall(c, Arrive(seg)) && (c.In(ESTABLISHED) || c.In(FIN_WAIT_1))
    ensures var w, h := Ready(c, seg).window, seg.header.(ack := HeedsAck(c, seg));
            Edges(c.Dispatched(seg).sender, FirstAfter(w, h), EdgeAfter(w, h))
  {
    hide Good, Connection.State, Connection.OnOpen, FirstAfter, EdgeAfter, Readable, Admissible, Sender.FillWindow;
    OpenEdges(c, seg);
    assert HeedsAck(c, seg) == seg.header.ack;
  }

  /** The edges after a segment that finds the endpoint neither in ESTABLISHED nor in FIN_WAIT_1 are those of
      the sender alone, with or without the acknowledgment. */
  predicate EdgesLike(s: Sender, t: Sender) { s.window.first == t.window.first && s.window.size == t.window.size }

  lemma StepsKeepEdges(c: Connection, seg: Segment)
    requires c.Valid()
    ensures c.Taken(seg).sender == c.sender && c.Taken(seg).AckTaken(seg).sender == c.AckTaken(seg).sender
    ensures EdgesLike(c.Taken(seg).Collected().sender, c.sender)
    ensures EdgesLike(c.Taken(seg).AckTaken(seg).Collected().sender, c.AckTaken(seg).sender)
  {
    hide Connection.Collected, Receiver.SegmentReceived, Sender.AckReceived;
    CollectEdges(c.Taken(seg));
    CollectEdges(c.Taken(seg).AckTaken(seg));
  }

  lemma ClosingEdges(c: Connection, seg: Segment)
    requires c.Valid()
    requires c.In(FIN_WAIT_2) || c.In(LAST_ACK) || c.In(CLOSING) || c.In(CLOSE_WAIT) || c.In(TIME_WAIT)
    ensures EdgesLike(c.OnClosing(seg).sender, if HeedsAck(c, seg) then c.AckTaken(seg).sender else c.sender)
  {
    hide Connection.State, Connection.Taken, Connection.AckTaken, Connection.Collected, Connection.PureAck,
         Sender.State;
    SynchronizedStates(c);
    StepsKeepEdges(c, seg);
  }

  lemma OpeningEdges(c: Connection, seg: Segment)
    requires c.Valid() && (c.In(LISTEN) || c.In(SYN_SENT) || c.In(SYN_RCVD))
    ensures EdgesLike(c.Dispatched(seg).sender, if HeedsAck(c, seg) then c.AckTaken(seg).sender else c.sender)
  {
    hide Connection.State, Connection.Taken, Connection.AckTaken, Connection.Collected, Connection.PureAck,
         Connection.OnClosing, Connection.OnOpen;
    StepsKeepEdges(c, seg);
  }

  lemma NamedOrIgnored(c: Connection, seg: Segment)
    requires c.Valid() && !c.In(ESTABLISHED) && !c.In(FIN_WAIT_1)
    ensures EdgesLike(c.Dispatched(seg).sender, if HeedsAck(c, seg) then c.AckTaken(seg).sender else c.sender)
  {
    hide Connection.State, Connection.AckTaken, Connection.OnListen, Connection.OnSynSent, Connection.OnOpen,
         Connection.Taken, Connection.OnLastAck, Connection.Collected, Connection.Replied;
    SynchronizedStates(c);
    if c.In(LISTEN) || c.In(SYN_SENT) || c.In(SYN_RCVD) {
      OpeningEdges(c, seg);
    } else if c.In(FIN_WAIT_2) || c.In(LAST_ACK) || c.In(CLOSING) || c.In(CLOSE_WAIT) || c.In(TIME_WAIT) {
      ClosingEdges(c, seg);
    }
  }

  lemma DispatchEdges(c: Connection, seg: Segment)
    requires c.Valid() && Good(c.sender, c.rtTimeout) && !c.In(ESTABLISHED) && !c.In(FIN_WAIT_1)
    requires seg.header.ack || seg.header.fin ==> Readable(c.sender.window, seg.header.ackno)
    ensures var w, h := c.sender.window, seg.header.(ack := HeedsAck(c, seg));
            Edges(c.Dispatched(seg).sender, FirstAfter(w, h), EdgeAfter(w, h))
  {
    hide Good, Connection.State, Connection.AckTaken, Connection.Dispatched, Readable, FirstAfter, EdgeAfter;
    NamedOrIgnored(c, seg);
    if HeedsAck(c, seg) {
      AckTakenEdges(c, seg);
    } else {
      NoAckNoMove(c.sender.window, seg.header.(ack := false));
    }
  }

  // ---------------------------------------------------------------- exactly when the name is lost

  /** The endpoint is in a state without a name. */
  ghost predicate Nameless(c: Connection) { forall o :: !c.In(o) }

  /** The states that have names. */
  predicate HasName(st: TcpState) {
    match st.sender
    case Closed => st.receiver == Listen && st.active && st.linger
    case SynSent => (st.receiver == SynRecv || st.receiver == Listen) && st.active && st.linger
    case SynAcked => st.active && st.receiver == if st.linger then SynRecv else FinRecv
    case FinSent => st.active && (st.receiver == FinRecv || (st.receiver == SynRecv && st.linger))
    case FinAcked =>
      st.active == st.linger && (st.receiver == FinRecv || (st.receiver == SynRecv && st.active))
    case SendError => st.receiver == RecvError && !st.active && !st.linger
  }

  lemma NamelessIs(c: Connection)
    ensures Nameless(c) <==> !HasName(c.State())
  {
    hide Connection.State;
    if HasName(c.State()) {
      var st := c.State();
      var o := match st.sender
        case Closed => LISTEN
        case SynSent => if st.receiver == Listen then SYN_SENT else SYN_RCVD
        case SynAcked => if st.linger then ESTABLISHED else CLOSE_WAIT
        case FinSent => if st.receiver == SynRecv then FIN_WAIT_1 else if st.linger then CLOSING else LAST_ACK
        case FinAcked => if st.receiver == SynRecv then FIN_WAIT_2 else if st.active then TIME_WAIT else CLOSED
        case SendError => RESET;
      assert c.In(o);
    }
  }

  /** The guards under which a segment takes an endpoint out of all named states. */
  ghost predicate LosesName(c: Connection, seg: Segment)
    requires c.Valid()
  {
    var h, ends := seg.header, EndsInbound(c.receiver, seg);
    if c.In(LISTEN) then h.syn && ends
    else if c.In(SYN_SENT) then h.syn && ends && SummaryAfter(c.sender, h) != FinSent
    else if c.In(SYN_RCVD) then h.ack && ends && SummaryAfter(c.sender, h) != FinSent
    else if c.In(ESTABLISHED) then
      if h.fin then !ends || SummaryAfter(Ready(c, seg), h) == FinAcked
      else TakesIn(c, seg) && ends && SummaryAfter(Ready(c, seg), h) == SynAcked
    else false
  }

  /** What the sender can look like after an acknowledgment that arrives while it is opening or open. */
  lemma OpeningSummary(s: Sender, h: Header)
    requires Core(s) && SenderSummary(s) == SynSent
    ensures SummaryAfter(s, h) == SynSent || SummaryAfter(s, h) == SynAcked || SummaryAfter(s, h) == FinSent
  {
    hide Clocked, Window.AckPosition;
  }

  /** A segment takes a sound endpoint from a named state to one without a name if and only if: a SYN with
      the end comes while the endpoint listens or is connecting; or the end comes with the acknowledgment
      that should complete the opening; or, in ESTABLISHED, a FIN comes early, or data completes a
      stream whose FIN came before; each time unless its own FIN is out by then. */
  lemma NameIsLostExactly(c: Connection, seg: Segment)
    requires Meets(c, seg) && !Nameless(c)
    ensures Nameless(c.SegmentReceived(seg)) <==> LosesName(c, seg)
  {
    hide Core, Tiled, Orderly, RegularCall, EndsInbound, SenderSummary, ReceiverSummary, SummaryAfter, Ready, TakesIn,
         Connection.SegmentReceived, Nameless;
    MeetsSound(c, seg);
    NamelessIs(c);
    NamelessIs(c.SegmentReceived(seg));
    if c.In(LISTEN) {
      ListenName(c, seg);
    } else if c.In(SYN_SENT) {
      SynSentName(c, seg);
      OpeningSummary(c.sender, seg.header);
    } else if c.In(SYN_RCVD) {
      SynRcvdName(c, seg);
      OpeningSummary(c.sender, seg.header);
    } else if c.In(ESTABLISHED) {
      EstablishedName(c, seg);
      EstablishedSummary(c, seg);
    } else {
      ClosingKeepsName(c, seg);
    }
  }

  lemma EstablishedSummary(c: Connection, seg: Segment)
    requires Meets(c, seg) && c.In(ESTABLISHED)
    ensures SummaryAfter(Ready(c, seg), seg.header) in {SynAcked, FinSent, FinAcked}
    ensures seg.header.fin ==> TakesIn(c, seg)
  {
    hide Core, Tiled, Orderly, RegularCall, Sender.FillWindow, Window.AckPosition;
    MeetsSound(c, seg);
    OpenMeansAcked(c);
    FillExtends(c.sender);
  }

  /** In the other states the name is never lost. */
  lemma ClosingKeepsName(c: Connection, seg: Segment)
    requires Meets(c, seg) && !Nameless(c)
    requires !c.In(LISTEN) && !c.In(SYN_SENT) && !c.In(SYN_RCVD) && !c.In(ESTABLISHED)
    ensures !Nameless(c.SegmentReceived(seg))
  {
    hide Meets, Connection.State, Connection.SegmentReceived;
    StillHere(c, seg);
    var o :| c.In(o);
    match o
    case FIN_WAIT_1 => FinWaitName(c, seg);
    case FIN_WAIT_2 => FinWait2Name(c, seg);
    case TIME_WAIT => TimeWaitName(c, seg);
    case CLOSING => ClosingName(c, seg);
    case LAST_ACK => LastAckName(c, seg);
    case CLOSE_WAIT => CloseWaitName(c, seg);
    case _ =>
  }

  lemma StillHere(c: Connection, seg: Segment)
    requires Meets(c, seg)
    ensures !c.In(RESET) && !c.In(CLOSED)
  {
    hide ConnInv, Orderly, RegularCall, SenderSummary, ReceiverSummary;
  }

  /** In every regular run: the same for whatever state it reaches. */
  lemma NameIsLostInEveryRun(rtTimeout: U16, recvCapacity: nat, sendCapacity: nat, isn: U32, calls: seq<Call>,
      seg: Segment)
    requires RegularCalls(NewConnection(rtTimeout, recvCapacity, sendCapacity, isn), calls)
    requires forall k | 0 <= k <= |calls| ::
               Addressable(After(NewConnection(rtTimeout, recvCapacity, sendCapacity, isn), calls[..k]))
    requires var c := After(NewConnection(rtTimeout, recvCapacity, sendCapacity, isn), calls);
             c.active && RegularCall(c, Arrive(seg)) && !seg.header.rst && !Nameless(c)
    ensures var c := After(NewConnection(rtTimeout, recvCapacity, sendCapacity, isn), calls);
            Nameless(c.SegmentReceived(seg)) <==> LosesName(c, seg)
  {
    hide ConnInv, RegularCall, After, Nameless, LosesName, Marked, Addressable;
    var c0 := NewConnection(rtTimeout, recvCapacity, sendCapacity, isn);
    NewConnectionInv(rtTimeout, recvCapacity, sendCapacity, isn);
    RunKeepsConnInv(c0, calls);
    RunKeepsMark(rtTimeout, recvCapacity, sendCapacity, isn, calls);
    assert calls[..|calls|] == calls;
    NameIsLostExactly(After(c0, calls), seg);
  }

  // ---------------------------------------------------------------- what becomes of it

  /** The one state without a name that an endpoint can leave without being reset: it is like CLOSE_WAIT,
      but the endpoint lingers. */
  predicate Rescuable(c: Connection) { c.State() == TcpState(SynAcked, FinRecv, true, true) }

  ghost predicate Lost(c: Connection) {
    ConnInv(c) && c.Valid() && c.active && c.sender.window.next > 0 && !HasName(c.State())
  }

  /** A stranded endpoint is one of these. */
  lemma StrandedIsLost(c: Connection)
    requires ConnInv(c) && c.Valid() && Stranded(c) && c.sender.window.next > 0
    ensures Lost(c) && !Rescuable(c)
  {
    hide ConnInv, SenderSummary;
  }

  lemma LostIgnores(c: Connection, seg: Segment)
    requires Lost(c)
    ensures Ignores(c, seg)
  {
    hide ConnInv, SenderSummary, ReceiverSummary;
  }

  /** Sending can only bring the FIN out. */
  lemma CollectMoves(c: Connection)
    requires c.Valid() && Good(c.sender, c.rtTimeout) && c.sender.window.next > 0
    ensures var d, s := c.Collected(), SenderSummary(c.sender);
            && d == c.(sender := d.sender, out := d.out) && d.sender.window.next > 0
            && (SenderSummary(d.sender) == s || (s == SynAcked && SenderSummary(d.sender) == FinSent))
  {
    hide Clocked, Tiled, SummaryAfter, Quiet, Connection.Collected, Onward, Sender.FillWindow;
    CollectOnward(c);
    CollectSummary(c);
    FillCore(c.sender);
    CollectNext(c);
    match SenderSummary(c.sender)
    case SynAcked =>
      FinIsOwed(c.sender, BLANK);
      AckSummary(c.sender, c.rtTimeout, BLANK);
    case SynSent =>
      SynSentIsQuiet(c.sender);
      StaysFilled'(c.sender);
    case _ =>
      FinStaysOut(c.sender, BLANK);
      StaysFilled'(c.sender);
  }

  lemma CollectNext(c: Connection)
    requires c.Valid()
    ensures c.Collected().sender.window.next == c.sender.FillWindow().window.next
  {
    hide Sender.FillWindow;
  }

  /** The same endpoint, or one whose FIN has gone out. */
  predicate Drifts(c: Connection, d: Connection) {
    d.State() == c.State() || (c.State().sender == SynAcked && d.State() == c.State().(sender := FinSent))
  }

  lemma LostCollect(c: Connection)
    requires Lost(c)
    ensures ConnInv(c.Collected()) && c.Collected().active && c.Collected().sender.window.next > 0
    ensures Frozen(c, c.Collected()) && Drifts(c, c.Collected())
  {
    hide Good, SenderSummary, ReceiverSummary, Connection.Collected, HasName;
    CollectKeepsInv(c);
    CollectMoves(c);
    CollectFreezes(c);
  }

  /** What the application writes does not change the state. */
  lemma StreamKeepsSummary(s: Sender, t: Sender, call: Call)
    requires Core(s) && (call.Write? || call.EndInput?)
    requires t == s.(stream := if call.Write? then s.stream.Write(call.data) else s.stream.(ended := true))
    ensures SenderSummary(t) == SenderSummary(s)
  {
    hide Clocked;
  }

  lemma LostStream(c: Connection, d: Connection, call: Call)
    requires Lost(c) && RegularCall(c, call) && (call.Write? || call.EndInput?)
    requires d == c.(sender := c.sender.(stream := if call.Write? then c.sender.stream.Write(call.data)
                                                   else c.sender.stream.(ended := true)))
    ensures Lost(d) && d.State() == c.State() && Frozen(c, d)
  {
    hide Core, Tiled, SenderSummary, ReceiverSummary, HasName, RegularCall;
    GoodStream(c, d, call);
    StreamKeepsSummary(c.sender, d.sender, call);
  }

  lemma TickedSummary(s: Sender, ms: nat)
    ensures SenderSummary(s.Ticked(ms)) == SenderSummary(s)
    ensures s.Ticked(ms).window.first == s.window.first && s.Ticked(ms).window.next == s.window.next
  {
  }

  lemma LostTick(c: Connection, ms: nat)
    requires Lost(c)
    ensures var d := c.Ticked(ms);
            Frozen(c, d) && (d.In(RESET) || (Lost(d) && d.State() == c.State()))
  {
    hide Good, SenderSummary, ReceiverSummary, Sender.Ticked, Connection.Ticked, Connection.Collected;
    TickKeepsInv(c, ms);
    TickShape(c, ms);
    TickedSummary(c.sender, ms);
    AbortedIsReset(c.(sinceLast := c.sinceLast + ms, sender := c.sender.Ticked(ms)));
  }

  lemma LostArrive(c: Connection, seg: Segment)
    requires Lost(c) && !seg.header.rst
    ensures var d := c.SegmentReceived(seg);
            && Frozen(c, d) && Drifts(c, d) && ConnInv(d) && d.active && d.sender.window.next > 0
  {
    hide Good, SenderSummary, ReceiverSummary, Connection.Collected, Connection.SegmentReceived, Sender.NextHeader,
         HasName;
    LostIgnores(c, seg);
    IgnoredArrive(c, seg);
    var c0 := c.(sinceLast := 0);
    var c1 := c0.(sender := c0.sender.SentEmpty());
    GoodQueue(c0.sender, c.rtTimeout, c1.sender.out);
    SummaryIgnoresQueue(c0.sender, c1.sender.out);
    GoodIsSound(c1.sender, c.rtTimeout);
    LostCollect(c1);
  }

  /** Any call on an endpoint in a state without a name: nothing reaches its application and nothing is
      acknowledged; it stays where it is, unless it is reset or its own FIN goes out. */
  lemma LostAnswer(c: Connection, call: Call)
    requires Lost(c) && (!call.Arrive? ==> RegularCall(c, call))
    ensures var d := Answer(c, call);
            && Frozen(c, d)
            && (d.In(RESET) || (Drifts(c, d) && ConnInv(d) && d.active && d.sender.window.next > 0))
  {
    hide ConnInv, Connection.Collected, Connection.SegmentReceived, Connection.Ticked, Connection.State, HasName,
         RegularCall;
    match call
    case Connect => LostCollect(c);
    case Write(data) =>
      var d := c.(sender := c.sender.(stream := c.sender.stream.Write(data)));
      LostStream(c, d, call);
      LostCollect(d);
    case EndInput =>
      var d := c.(sender := c.sender.(stream := c.sender.stream.(ended := true)));
      LostStream(c, d, call);
      LostCollect(d);
    case Arrive(seg) =>
      if seg.header.rst {
        RstResets(c, seg);
        RstFreezes(c, seg);
      } else {
        LostArrive(c, seg);
      }
    case Tick(ms) => LostTick(c, ms);
    case ReadInbound(len) => LostRead(c, len);
  }

  lemma RstFreezes(c: Connection, seg: Segment)
    requires c.Valid() && seg.header.rst
    ensures Frozen(c, c.SegmentReceived(seg))
  {
  }

  lemma LostRead(c: Connection, len: nat)
    requires Lost(c)
    ensures var d := c.InboundRead(len);
            && Frozen(c, d) && Drifts(c, d) && ConnInv(d) && d.active && d.sender.window.next > 0
  {
    hide Good, SenderSummary, HasName;
  }

  /** A FIN that goes out gives a name back only to an endpoint that is like CLOSE_WAIT. */
  lemma DriftIsLost(c: Connection, d: Connection)
    requires Lost(c) && ConnInv(d) && d.Valid() && d.active && d.sender.window.next > 0 && Drifts(c, d)
    ensures if Rescuable(c) && !Rescuable(d) then d.In(CLOSING) else Lost(d) && Rescuable(d) == Rescuable(c)
  {
    hide ConnInv, SenderSummary, ReceiverSummary;
  }

  /** Over every sequence of calls, whatever the peer sends: until it is reset, an endpoint that has lost its
      name stays without one, its application gets neither a byte nor the end, and nothing it has sent
      is acknowledged; only if it is like CLOSE_WAIT does its own FIN take it on, to CLOSING. */
  lemma {:induction false} LostForEver(c: Connection, calls: seq<Call>)
    requires Lost(c)
    requires forall k | 0 <= k < |calls| && !calls[k].Arrive? :: RegularCall(After(c, calls[..k]), calls[k])
    requires Rescuable(c) ==> forall k | 0 <= k <= |calls| :: !After(c, calls[..k]).In(CLOSING)
    ensures var d := After(c, calls);
            Frozen(c, d) && (d.In(RESET) || (Lost(d) && Rescuable(d) == Rescuable(c)))
  {
    hide Answer, Lost, Connection.In, RegularCall, Rescuable;
    LostIsValid(c);
    if calls != [] {
      var n := |calls| - 1;
      forall k | 0 <= k <= n ensures calls[..n][..k] == calls[..k] {}
      assert calls[..n + 1] == calls;
      LostForEver(c, calls[..n]);
      LostStep(After(c, calls[..n]), calls[n]);
      assert Rescuable(c) ==> !After(c, calls[..n + 1]).In(CLOSING);
    }
  }

  lemma LostIsValid(c: Connection)
    requires Lost(c)
    ensures c.Valid()
  {
  }

  lemma LostStep(c: Connection, call: Call)
    requires c.Valid() && (c.In(RESET) || Lost(c)) && (Lost(c) && !call.Arrive? ==> RegularCall(c, call))
    ensures var d := Answer(c, call);
            && Frozen(c, d) && (c.In(RESET) ==> d.In(RESET))
            && (d.In(RESET) || (Rescuable(c) && d.In(CLOSING)) || (Lost(d) && Rescuable(d) == Rescuable(c)))
  {
    hide Answer, ConnInv, HasName, Connection.State, RegularCall, Drifts;
    if c.In(RESET) {
      ResetStays(c, call);
      ResetIsInactive(c);
      InactiveAnswer(c, call);
    } else {
      LostAnswer(c, call);
      if !Answer(c, call).In(RESET) {
        DriftIsLost(c, Answer(c, call));
      }
    }
  }
}
