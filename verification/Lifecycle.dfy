/** How an endpoint lives and ends, over every sequence of calls (libsponge/tcp_connection.cc,
    libsponge/tcp_helpers/tcp_state.cc). */
module Lifecycle {
  import opened Words
  import opened WrappingIntegers
  import opened Segments
  import opened Reassembly
  import opened Receiving
  import opened SendingWindows
  import opened Sending
  import opened SenderInvariants
  import opened Tiling
  import opened Transmission
  import opened SenderRuns
  import opened RetransmissionTimer
  import opened Connections

  // ---------------------------------------------------------------- the two classifiers

  /** Where the sender's own idea of its state and the summary's part ways. */
  predicate ClassifiersPart(s: Sender) {
    && !s.stream.error && s.window.next != 0 && s.window.next != s.window.InFlight()
    && if s.stream.Eof() then s.window.next > |s.stream.written| + 2 && s.window.InFlight() > 0
       else s.window.next < s.window.InFlight()
  }

  lemma ClassifiersAgreeExactly(s: Sender)
    ensures s.State() == SenderSummary(s) <==> !ClassifiersPart(s)
  {
  }

  /** In every state that regular runs reach they agree. */
  lemma ClassifiersAgree(s: Sender)
    requires Core(s)
    ensures s.State() == SenderSummary(s)
  {
    hide Clocked;
    ClassifiersAgreeExactly(s);
  }

  // ---------------------------------------------------------------- what no call undoes

  /** Timeout, timers and counter belong together, and the endpoint has not given up. */
  ghost predicate Patient(c: Connection) {
    && Clocked(c.sender) && c.sender.initialRto == c.rtTimeout
    && c.sender.retransmissions <= MAX_RETX_ATTEMPTS
  }

  /** Errors stay, an inactive endpoint stays inactive, and an active one stays patient. */
  ghost predicate Onward(c: Connection, c': Connection) {
    && (c.sender.stream.error ==> c'.sender.stream.error)
    && (c.receiver.Output().error ==> c'.receiver.Output().error)
    && (c'.active ==> c.active)
    && (c'.active && Patient(c) ==> Patient(c'))
    && c'.rtTimeout == c.rtTimeout
  }

  lemma TakeKeepsError(r: Receiver, seg: Segment)
    requires r.Valid()
    ensures r.SegmentReceived(seg).Output().error == r.Output().error
  {
    hide Unwrap, Low64, Overlay, Bump;
  }

  lemma CollectOnward(c: Connection)
    requires c.Valid()
    ensures Onward(c, c.Collected())
    ensures c.Collected() == c.(sender := c.Collected().sender, out := c.Collected().out)
  {
    hide Sender.FillWindow, Timed, Backoff;
    FillExtends(c.sender);
    if Patient(c) {
      FillClocked(c.sender);
    }
  }

  lemma AckOnward(c: Connection, seg: Segment)
    requires c.Valid()
    ensures Onward(c, c.AckTaken(seg))
    ensures c.AckTaken(seg) == c.(sender := c.AckTaken(seg).sender)
  {
    hide Sender.FillWindow, Window.Acked, Window.Advances, Timed, Backoff;
    var s := c.sender.Acknowledged(seg.header.ackno, seg.header.win);
    FillExtends(s);
    if Patient(c) {
      AcknowledgedClocked(c.sender, seg.header.ackno, seg.header.win);
      FillClocked(s);
    }
  }

  lemma TakeOnward(c: Connection, seg: Segment)
    requires c.Valid()
    ensures Onward(c, c.Taken(seg))
    ensures c.Taken(seg) == c.(receiver := c.Taken(seg).receiver)
  {
    hide Receiver.SegmentReceived, Clocked;
    TakeKeepsError(c.receiver, seg);
  }

  lemma OpenOnward(c: Connection, seg: Segment)
    requires c.Valid() && c.receiver.isSet
    ensures Onward(c, c.OnOpen(seg))
  {
    hide Connection.Collected, Connection.AckTaken, Connection.Taken, Connection.State, Timed, Backoff;
    var c0 := if seg.header.fin && !c.In(FIN_WAIT_1) then c.(linger := false) else c;
    var c1 := c0;
    if seg.Length() != 0 || !seg.header.ack {
      TakeOnward(c0, seg);
      var t := c0.Taken(seg);
      c1 := t.(sender := t.sender.Queued(t.PureAck()));
      CollectOnward(c1);
      c1 := c1.Collected();
    }
    if seg.header.ack {
      AckOnward(c1, seg);
      CollectOnward(c1.AckTaken(seg));
    }
  }

  lemma ClosingOnward(c: Connection, seg: Segment)
    requires c.Valid()
    ensures Onward(c, c.OnClosing(seg))
  {
    hide Connection.Collected, Connection.AckTaken, Connection.Taken, Connection.State, Named, Clocked;
    SynchronizedStates(c);
    TakeOnward(c, seg);
    AckOnward(c, seg);
    AckOnward(c.Taken(seg), seg);
    CollectOnward(c.Taken(seg).AckTaken(seg));
  }

  lemma DispatchOnward(c: Connection, seg: Segment)
    requires c.Valid()
    ensures Onward(c, c.Dispatched(seg))
  {
    hide Connection.Collected, Connection.AckTaken, Connection.Taken, Connection.OnOpen, Connection.OnClosing,
         Connection.State, Named, Clocked;
    SynchronizedStates(c);
    TakeOnward(c, seg);
    AckOnward(c.Taken(seg), seg);
    CollectOnward(c.Taken(seg));
    ClosingOnward(c, seg);
    if c.receiver.isSet {
      OpenOnward(c, seg);
    }
  }

  lemma ArriveOnward(c: Connection, seg: Segment)
    requires c.Valid()
    ensures Onward(c, c.SegmentReceived(seg))
  {
    hide Connection.Collected, Connection.Dispatched, Timed, Backoff;
    var c0 := c.(sinceLast := 0);
    DispatchOnward(c0, seg);
    var c1 := c0.Dispatched(seg);
    CollectOnward(c1.(sender := c1.sender.SentEmpty()));
  }

  lemma TickOnward(c: Connection, ms: nat)
    requires c.Valid()
    ensures Onward(c, c.Ticked(ms))
  {
    hide Connection.Collected, Connection.State, Collecting, Sender.Ticked, Timed, Backoff;
    var d := c.(sinceLast := c.sinceLast + ms).Lingered();
    var t := d.(sender := d.sender.Ticked(ms));
    TickedKeepsConfig(c.sender, ms);
    if Patient(c) {
      TickedClocked(c.sender, ms);
    }
    CollectOnward(t);
  }

  lemma AnswerOnward(c: Connection, call: Call)
    requires c.Valid()
    ensures Onward(c, Answer(c, call))
  {
    hide Connection.Collected, Connection.SegmentReceived, Connection.Ticked, Timed, Backoff;
    match call
    case Connect => CollectOnward(c);
    case Write(data) => CollectOnward(c.(sender := c.sender.(stream := c.sender.stream.Write(data))));
    case EndInput => CollectOnward(c.(sender := c.sender.(stream := c.sender.stream.(ended := true))));
    case Arrive(seg) => ArriveOnward(c, seg);
    case Tick(ms) => TickOnward(c, ms);
    case ReadInbound(len) =>
  }

  lemma {:induction false} AfterOnward(c: Connection, calls: seq<Call>)
    requires c.Valid()
    ensures Onward(c, After(c, calls))
  {
    hide Answer, Patient;
    if calls != [] {
      var n := |calls| - 1;
      AfterOnward(c, calls[..n]);
      AnswerOnward(After(c, calls[..n]), calls[n]);
    }
  }

  /** Once inactive, an endpoint is never active again, whatever is called. */
  lemma InactiveForEver(c: Connection, calls: seq<Call>)
    requires c.Valid() && !c.active
    ensures !After(c, calls).active
  {
    hide Patient;
    AfterOnward(c, calls);
  }

  lemma ResetStays(c: Connection, call: Call)
    requires c.Valid() && c.In(RESET)
    ensures Answer(c, call).In(RESET)
  {
    hide Answer, Patient;
    AnswerOnward(c, call);
  }

  /** RESET is left by no call. */
  lemma ResetForEver(c: Connection, calls: seq<Call>)
    requires c.Valid() && c.In(RESET)
    ensures After(c, calls).In(RESET)
  {
    hide After, Patient;
    AfterOnward(c, calls);
  }

  /** Whatever is called, and whatever any peer sends: while an endpoint is active it has retransmitted
      at most eight times in a row, so its timeout is at most 256 times the initial one, and every
      timer holds its value in full. */
  lemma ActiveIsBounded(rtTimeout: U16, recvCapacity: nat, sendCapacity: nat, isn: U32, calls: seq<Call>)
    ensures var c := After(NewConnection(rtTimeout, recvCapacity, sendCapacity, isn), calls);
            c.active ==>
              && c.sender.retransmissions <= MAX_RETX_ATTEMPTS
              && c.sender.rto <= 0x100 * rtTimeout < TWO_32
              && (forall i | 0 <= i < |c.sender.window.buffer| ::
                    c.sender.window.buffer[i].remaining <= c.sender.rto)
  {
    hide After, Low32;
    var c0 := NewConnection(rtTimeout, recvCapacity, sendCapacity, isn);
    BackoffStarts(rtTimeout);
    AfterOnward(c0, calls);
    if After(c0, calls).active {
      TimeoutBound(After(c0, calls).sender);
    }
  }

  lemma TimeoutBound(s: Sender)
    requires Clocked(s) && s.retransmissions <= MAX_RETX_ATTEMPTS
    ensures s.rto <= 0x100 * s.initialRto < TWO_32
  {
    hide Backoff, Timed;
    BackoffBound(s.rto, s.initialRto, s.retransmissions);
    DoubledGrows(s.initialRto, s.retransmissions, 8);
    DoubledSmall(s.initialRto);
  }

  // ---------------------------------------------------------------- what every call keeps

  /** The sender is sound, and has not given up. */
  ghost predicate Good(s: Sender, rto: U16) {
    && Core(s) && Tiled(s.window) && !s.window.faulted
    && s.retransmissions <= MAX_RETX_ATTEMPTS && s.initialRto == rto
  }

  ghost predicate ConnInv(c: Connection) {
    && c.Valid()
    && c.sender.stream.error == c.receiver.Output().error
    && (c.sender.stream.error ==> !c.active)
    && (!c.sender.stream.error ==> Good(c.sender, c.rtTimeout))
  }

  /** The call is one that the theorems below speak about: an acknowledgment does not name the bare
      SYN, the window can take it, and the byte counter does not overflow. */
  ghost predicate RegularCall(c: Connection, call: Call)
    requires c.Valid()
  {
    match call
    case Arrive(seg) =>
      seg.header.ack || seg.header.fin ==>
        && Admissible(c.sender, seg.header.ackno)
        && Readable(c.sender.window, seg.header.ackno)
        && Readable(c.sender.FillWindow().window, seg.header.ackno)
    case Write(data) => |c.sender.stream.Write(data).written| + 2 < TWO_64
    case _ => true
  }

  lemma GoodFill(s: Sender, rto: U16)
    requires Good(s, rto)
    ensures Good(s.FillWindow(), rto)
  {
    FillCore(s);
    FillTiles(s);
    hide Core, Tiled, Sender.FillWindow;
    FillExtends(s);
  }

  lemma GoodQueue(s: Sender, rto: U16, out: seq<Segment>)
    requires Good(s, rto)
    ensures Good(s.(out := out), rto)
  {
  }

  lemma GoodAck(s: Sender, rto: U16, ackno: U32, win: U16)
    requires Good(s, rto) && Admissible(s, ackno) && Readable(s.window, ackno)
    ensures Good(s.AckReceived(ackno, win), rto)
  {
    hide Core, Tiled, Window.Acked, Sender.FillWindow, Narrow, Straddled, Window.AckPosition;
    AcknowledgedCore(s, ackno, win);
    AcknowledgedTiles(s, ackno, win);
    GoodFill(s.Acknowledged(ackno, win), rto);
  }

  lemma GoodCollect(c: Connection)
    requires c.Valid() && Good(c.sender, c.rtTimeout)
    ensures Good(c.Collected().sender, c.rtTimeout)
    ensures c.Collected() == c.(sender := c.Collected().sender, out := c.Collected().out)
  {
    hide Good, Sender.FillWindow;
    GoodFill(c.sender, c.rtTimeout);
    GoodQueue(c.sender.FillWindow(), c.rtTimeout, []);
  }

  /** In ESTABLISHED and FIN_WAIT_1 the SYN has been acknowledged, so no restriction is needed. */
  lemma OpenMeansAcked(c: Connection)
    requires c.Valid() && Good(c.sender, c.rtTimeout) && (c.In(ESTABLISHED) || c.In(FIN_WAIT_1))
    ensures c.sender.window.first > 0 && c.receiver.isSet
  {
    hide Tiled, Clocked;
  }

  lemma OpenGood(c: Connection, seg: Segment)
    requires c.Valid() && Good(c.sender, c.rtTimeout) && c.sender.window.first > 0 && c.receiver.isSet
    requires RegularCall(c, Arrive(seg))
    ensures Good(c.OnOpen(seg).sender, c.rtTimeout) && c.OnOpen(seg).rtTimeout == c.rtTimeout
  {
    hide Good, Connection.Collected, Connection.Taken, Connection.In, Readable, Window.AckPosition,
         Sender.FillWindow, Sender.AckReceived;
    var c0 := if seg.header.fin && !c.In(FIN_WAIT_1) then c.(linger := false) else c;
    var c1 := c0;
    if seg.Length() != 0 || !seg.header.ack {
      TakeOnward(c0, seg);
      var t := c0.Taken(seg);
      var q := t.(sender := t.sender.Queued(t.PureAck()));
      GoodQueue(t.sender, c.rtTimeout, q.sender.out);
      GoodCollect(q);
      FillSameWindow(c.sender, c.rtTimeout, q.sender.out);
      c1 := q.Collected();
      assert c1.sender.window == c.sender.FillWindow().window by { CollectedWindow(q); }
      FillExtends(c.sender);
    }
    if seg.header.ack {
      GoodAck(c1.sender, c.rtTimeout, seg.header.ackno, seg.header.win);
      GoodCollect(c1.AckTaken(seg));
    }
  }

  lemma FillSameWindow(s: Sender, rto: U16, out: seq<Segment>)
    requires Good(s, rto)
    ensures s.(out := out).FillWindow().window == s.FillWindow().window
  {
    hide Core, Tiled, Sender.FillWindow;
    GoodIsSound(s, rto);
    CoreCanOpen(s);
    FillIgnoresQueue(s, out);
  }

  lemma CollectedWindow(c: Connection)
    requires c.Valid()
    ensures c.Collected().sender.window == c.sender.FillWindow().window
  {
    hide Sender.FillWindow;
  }

  lemma ClosingGood(c: Connection, seg: Segment)
    requires c.Valid() && Good(c.sender, c.rtTimeout) && RegularCall(c, Arrive(seg))
    ensures Good(c.OnClosing(seg).sender, c.rtTimeout) && c.OnClosing(seg).rtTimeout == c.rtTimeout
  {
    hide Good, Connection.Collected, Connection.Taken, Connection.State, Named, Sender.State, Readable,
         Admissible, Sender.FillWindow, Sender.AckReceived;
    SynchronizedStates(c);
    TakeOnward(c, seg);
    if seg.header.ack || seg.header.fin {
      GoodAck(c.sender, c.rtTimeout, seg.header.ackno, seg.header.win);
      GoodCollect(c.Taken(seg).AckTaken(seg));
    }
  }

  lemma DispatchGood(c: Connection, seg: Segment)
    requires c.Valid() && Good(c.sender, c.rtTimeout) && RegularCall(c, Arrive(seg))
    ensures Good(c.Dispatched(seg).sender, c.rtTimeout) && c.Dispatched(seg).rtTimeout == c.rtTimeout
  {
    hide Good, Connection.Collected, Connection.Taken, Connection.OnOpen, Connection.OnClosing, Connection.State,
         Named, Readable, Admissible, Sender.FillWindow, Sender.AckReceived;
    SynchronizedStates(c);
    TakeOnward(c, seg);
    GoodCollect(c.Taken(seg));
    if seg.header.ack || seg.header.fin {
      GoodAck(c.sender, c.rtTimeout, seg.header.ackno, seg.header.win);
    }
    ClosingGood(c, seg);
    if c.In(ESTABLISHED) || c.In(FIN_WAIT_1) {
      OpenMeansAcked(c);
      OpenGood(c, seg);
    }
  }

  lemma ArriveKeepsInv(c: Connection, seg: Segment)
    requires ConnInv(c) && RegularCall(c, Arrive(seg))
    ensures ConnInv(c.SegmentReceived(seg))
  {
    hide Connection.Collected, Connection.Dispatched, Good, Readable, Admissible, Sender.FillWindow;
    var c0 := c.(sinceLast := 0);
    ArriveOnward(c, seg);
    if !seg.header.rst {
      var c1 := c0.Dispatched(seg);
      var c2 := c1.(sender := c1.sender.SentEmpty());
      DispatchHears(c0, seg);
      TakeKeepsError(c.receiver, seg);
      if !c.sender.stream.error {
        DispatchGood(c0, seg);
        GoodQueue(c1.sender, c.rtTimeout, c2.sender.out);
        GoodCollect(c2);
        GoodIsSound(c1.sender, c.rtTimeout);
        GoodIsSound(c2.Collected().sender, c.rtTimeout);
      }
      CollectOnward(c2);
    }
  }

  lemma GoodIsSound(s: Sender, rto: U16)
    requires Good(s, rto)
    ensures s.Valid() && !s.stream.error
  {
  }

  /** The states and segments in which a segment without RST is handed to the receiver. */
  predicate TakesIn(c: Connection, seg: Segment) {
    var h := seg.header;
    if c.In(LISTEN) || c.In(SYN_SENT) then h.syn
    else if c.In(SYN_RCVD) || c.In(CLOSING) then h.ack
    else if c.In(ESTABLISHED) || c.In(FIN_WAIT_1) then seg.Length() != 0 || !h.ack
    else c.In(FIN_WAIT_2) && h.fin && h.ack
  }

  /** The states and segments in which a segment without RST is ignored. */
  predicate Ignores(c: Connection, seg: Segment) {
    var h := seg.header;
    if c.In(LISTEN) || c.In(SYN_SENT) then !h.syn
    else if c.In(SYN_RCVD) || c.In(LAST_ACK) || c.In(CLOSING) then !h.ack
    else if c.In(FIN_WAIT_2) || c.In(TIME_WAIT) then !(h.fin && h.ack)
    else if c.In(CLOSE_WAIT) then !h.fin
    else !c.In(ESTABLISHED) && !c.In(FIN_WAIT_1)
  }

  /** Such a segment restarts the clock and nothing else, except that a keep-alive probe is answered, which
      sets off sending. */
  lemma IgnoredArrive(c: Connection, seg: Segment)
    requires c.Valid() && Ignores(c, seg) && !seg.header.rst
    ensures c.SegmentReceived(seg) == c.(sinceLast := 0).KeptAlive(seg)
  {
    hide Connection.AckTaken, Connection.Taken, Connection.OnOpen, Connection.Collected, SenderSummary,
         ReceiverSummary, Connection.KeptAlive;
  }

  /** The receiver takes the segment in, or is left alone. */
  function Heard(r: Receiver, seg: Segment, taken: bool): Receiver
    requires r.Valid()
  {
    if taken then r.SegmentReceived(seg) else r
  }

  lemma OpenHears(c: Connection, seg: Segment)
    requires c.Valid() && c.receiver.isSet
    ensures c.OnOpen(seg).receiver == Heard(c.receiver, seg, seg.Length() != 0 || !seg.header.ack)
    ensures c.OnOpen(seg).sinceLast == c.sinceLast
  {
    hide Connection.Collected, Connection.AckTaken, Receiver.SegmentReceived, Connection.State, Onward;
    var c0 := if seg.header.fin && !c.In(FIN_WAIT_1) then c.(linger := false) else c;
    var t := c0.Taken(seg);
    var c1 := t.(sender := t.sender.Queued(t.PureAck()));
    CollectOnward(c1);
    AckOnward(c1.Collected(), seg);
    CollectOnward(c1.Collected().AckTaken(seg));
    AckOnward(c0, seg);
    CollectOnward(c0.AckTaken(seg));
  }

  lemma ClosingHears(c: Connection, seg: Segment)
    requires c.Valid()
    ensures c.OnClosing(seg).receiver
            == Heard(c.receiver, seg, if c.In(FIN_WAIT_2) then seg.header.fin && seg.header.ack
                                      else c.In(CLOSING) && seg.header.ack)
    ensures c.OnClosing(seg).sinceLast == c.sinceLast
  {
    hide Connection.Collected, Connection.AckTaken, Receiver.SegmentReceived, Connection.State, Onward;
    SynchronizedStates(c);
    AckOnward(c, seg);
    AckOnward(c.Taken(seg), seg);
    CollectOnward(c.Taken(seg).AckTaken(seg));
  }

  lemma DispatchHears(c: Connection, seg: Segment)
    requires c.Valid()
    ensures c.Dispatched(seg).receiver == Heard(c.receiver, seg, TakesIn(c, seg))
    ensures c.Dispatched(seg).sinceLast == c.sinceLast
  {
    hide Connection.Collected, Connection.AckTaken, Connection.OnOpen, Connection.OnClosing,
         Receiver.SegmentReceived, Connection.State, Onward;
    SynchronizedStates(c);
    AckOnward(c.Taken(seg), seg);
    CollectOnward(c.Taken(seg));
    ClosingHears(c, seg);
    if c.receiver.isSet {
      OpenHears(c, seg);
    }
  }

  /** What a segment without RST does to the receiver. */
  lemma ArriveHears(c: Connection, seg: Segment)
    requires c.Valid() && !seg.header.rst
    ensures c.SegmentReceived(seg).receiver == Heard(c.receiver, seg, TakesIn(c, seg))
    ensures c.SegmentReceived(seg).sinceLast == 0
  {
    hide Connection.Collected, Connection.Dispatched, Receiver.SegmentReceived, Onward;
    var c1 := c.(sinceLast := 0).Dispatched(seg);
    DispatchHears(c.(sinceLast := 0), seg);
    CollectOnward(c1.(sender := c1.sender.SentEmpty()));
  }

  /** What has been handed to the application stays, and only more can follow. */
  predicate InboundGrows(c: Connection, c': Connection) {
    c.receiver.Output().written <= c'.receiver.Output().written
  }

  lemma TakeGrows(r: Receiver, seg: Segment)
    requires r.Valid()
    ensures r.Output().written <= r.SegmentReceived(seg).Output().written
  {
    hide Unwrap, Low64, Overlay, Bump;
  }

  lemma TickInbound(c: Connection, ms: nat)
    requires c.Valid()
    ensures InboundGrows(c, c.Ticked(ms))
    ensures c.Ticked(ms).sender.retransmissions > MAX_RETX_ATTEMPTS ==> c.Ticked(ms).In(RESET)
  {
    hide Connection.Collected, Connection.State, Collecting, Sender.Ticked, Patient;
    var d := c.(sinceLast := c.sinceLast + ms).Lingered();
    var t := d.(sender := d.sender.Ticked(ms));
    CollectOnward(t);
    CollectKeepsCount(t);
    AbortedIsReset(t);
  }

  lemma CollectKeepsCount(c: Connection)
    requires c.Valid()
    ensures c.Collected().sender.retransmissions == c.sender.retransmissions
  {
    hide Sender.FillWindow;
    FillExtends(c.sender);
  }

  lemma ArriveInbound(c: Connection, seg: Segment)
    requires c.Valid()
    ensures InboundGrows(c, c.SegmentReceived(seg))
  {
    hide Connection.Dispatched, Receiver.SegmentReceived;
    if !seg.header.rst {
      ArriveHears(c, seg);
      TakeGrows(c.receiver, seg);
    }
  }

  lemma TickKeepsInv(c: Connection, ms: nat)
    requires ConnInv(c)
    ensures ConnInv(c.Ticked(ms))
  {
    hide Connection.Collected, Connection.State, Collecting, Core, Tiled, Sender.Ticked;
    var d := c.(sinceLast := c.sinceLast + ms).Lingered();
    var t := d.(sender := d.sender.Ticked(ms));
    CollectOnward(t);
    if !c.sender.stream.error {
      TickedCore(c.sender, ms);
      TickedTiles(c.sender, ms);
      TickedKeepsConfig(c.sender, ms);
      if t.sender.retransmissions <= MAX_RETX_ATTEMPTS {
        GoodCollect(t);
        GoodIsSound(t.Collected().sender, c.rtTimeout);
      }
    }
  }

  /** Outside TIME_WAIT a tick ages the sender, and then gives up, collects or does neither. */
  lemma TickShape(c: Connection, ms: nat)
    requires c.Valid() && !c.In(TIME_WAIT)
    ensures var t := c.(sinceLast := c.sinceLast + ms, sender := c.sender.Ticked(ms));
            c.Ticked(ms) == t.Concluded(Collecting(c.State()))
  {
    hide Sender.Ticked, SenderSummary, ReceiverSummary, Collecting, Connection.Concluded;
    var before := c.(sinceLast := c.sinceLast + ms);
    assert before.State() == c.State();
    assert before.Lingered() == before;
  }

  lemma AbortedIsReset(c: Connection)
    requires c.Valid()
    ensures c.UncleanShutdown().In(RESET)
  {
  }

  lemma TickedKeepsConfig(s: Sender, ms: nat)
    ensures s.Ticked(ms).initialRto == s.initialRto
  {
  }

  lemma AnswerKeepsInv(c: Connection, call: Call)
    requires ConnInv(c) && RegularCall(c, call)
    ensures ConnInv(Answer(c, call))
  {
    hide Connection.Collected, Connection.SegmentReceived, Connection.Ticked, Good, RegularCall;
    AnswerOnward(c, call);
    match call
    case Connect => CollectKeepsInv(c);
    case Write(data) =>
      var d := c.(sender := c.sender.(stream := c.sender.stream.Write(data)));
      GoodStream(c, d, call);
      CollectKeepsInv(d);
    case EndInput =>
      var d := c.(sender := c.sender.(stream := c.sender.stream.(ended := true)));
      GoodStream(c, d, call);
      CollectKeepsInv(d);
    case Arrive(seg) => ArriveKeepsInv(c, seg);
    case Tick(ms) => TickKeepsInv(c, ms);
    case ReadInbound(len) =>
  }

  lemma CollectKeepsInv(c: Connection)
    requires ConnInv(c)
    ensures ConnInv(c.Collected())
  {
    hide Connection.Collected, Good;
    CollectOnward(c);
    if !c.sender.stream.error {
      GoodCollect(c);
      GoodIsSound(c.Collected().sender, c.rtTimeout);
    }
  }

  lemma GoodStream(c: Connection, d: Connection, call: Call)
    requires ConnInv(c) && RegularCall(c, call) && (call.Write? || call.EndInput?)
    requires d == c.(sender := c.sender.(stream := if call.Write? then c.sender.stream.Write(call.data)
                                                   else c.sender.stream.(ended := true)))
    ensures ConnInv(d)
  {
    hide Tiled, Timed, Backoff;
  }

  /** Every call of the run is regular. */
  ghost predicate RegularCalls(c: Connection, calls: seq<Call>)
    requires c.Valid()
  {
    forall k | 0 <= k < |calls| :: RegularCall(After(c, calls[..k]), calls[k])
  }

  lemma {:induction false} RunKeepsConnInv(c: Connection, calls: seq<Call>)
    requires ConnInv(c) && RegularCalls(c, calls)
    ensures ConnInv(After(c, calls))
  {
    hide ConnInv, RegularCall, Answer;
    if calls != [] {
      var n := |calls| - 1;
      forall k | 0 <= k < n ensures calls[..n][..k] == calls[..k] {}
      ConnInvIsValid(c);
      RunKeepsConnInv(c, calls[..n]);
      AnswerKeepsInv(After(c, calls[..n]), calls[n]);
    }
  }

  lemma ConnInvIsValid(c: Connection)
    requires ConnInv(c)
    ensures c.Valid()
  {
  }

  lemma NewConnectionInv(rtTimeout: U16, recvCapacity: nat, sendCapacity: nat, isn: U32)
    ensures ConnInv(NewConnection(rtTimeout, recvCapacity, sendCapacity, isn))
  {
    NewSenderHolds(sendCapacity, rtTimeout, isn);
  }

  /** In every regular run, while an endpoint is active its window has not gone wrong, its buffer tiles
      what is unacknowledged, and the two classifications of its sender agree. */
  lemma ActiveIsSound(rtTimeout: U16, recvCapacity: nat, sendCapacity: nat, isn: U32, calls: seq<Call>)
    requires RegularCalls(NewConnection(rtTimeout, recvCapacity, sendCapacity, isn), calls)
    ensures var c := After(NewConnection(rtTimeout, recvCapacity, sendCapacity, isn), calls);
            c.active ==>
              && !c.sender.window.faulted && Tiled(c.sender.window)
              && c.sender.State() == SenderSummary(c.sender)
  {
    hide Core, Tiled, After;
    var c0 := NewConnection(rtTimeout, recvCapacity, sendCapacity, isn);
    NewConnectionInv(rtTimeout, recvCapacity, sendCapacity, isn);
    RunKeepsConnInv(c0, calls);
    if After(c0, calls).active {
      ClassifiersAgree(After(c0, calls).sender);
    }
  }

  // ---------------------------------------------------------------- the end

  /** With everything acknowledged nothing is outstanding, and there is nothing to do. */
  lemma FinAckedIsIdle(s: Sender, rto: U16)
    requires Good(s, rto) && SenderSummary(s) == FinAcked
    ensures s.window.buffer == [] && s.retransmissions == 0
    ensures s.FillWindow() == s
    ensures forall ms: nat :: s.Ticked(ms) == s
  {
    hide Timed, Backoff, Wrap, Unwrap, Placed, At;
    if s.window.buffer != [] {
      AtGrows(s.window, 1, |s.window.buffer|);
    }
    assert s.State() == FinAcked;
    assert Aged([], 0) == [];
  }

  /** A RST resets from every state, and is not answered. */
  lemma RstResets(c: Connection, seg: Segment)
    requires c.Valid() && seg.header.rst
    ensures c.SegmentReceived(seg).In(RESET)
    ensures c.SegmentReceived(seg).out == c.out && c.SegmentReceived(seg).sender.out == c.sender.out
  {
  }

  /** A call that can only find the sender idle changes nothing the state depends on. */
  lemma CollectIdle(c: Connection)
    requires c.Valid() && Good(c.sender, c.rtTimeout) && SenderSummary(c.sender) == FinAcked
    ensures Good(c.Collected().sender, c.rtTimeout)
    ensures c.Collected().State() == c.State()
    ensures c.Collected() == c.(sender := c.sender.(out := []), out := c.Collected().out)
  {
    hide Good, Sender.FillWindow;
    FinAckedIsIdle(c.sender, c.rtTimeout);
    GoodQueue(c.sender, c.rtTimeout, []);
  }

  ghost predicate Finished(c: Connection, o: Official) {
    c.Valid() && Good(c.sender, c.rtTimeout) && c.In(o) && SenderSummary(c.sender) == FinAcked
  }

  lemma FinishedStream(c: Connection, o: Official, call: Call)
    requires Finished(c, o) && !call.Arrive? && !call.Tick?
    ensures Finished(Answer(c, call), o)
    ensures Answer(c, call).sinceLast == c.sinceLast && Answer(c, call).rtTimeout == c.rtTimeout
    ensures Answer(c, call).linger == c.linger && Answer(c, call).active == c.active
  {
    hide Good, Connection.Collected;
    match call
    case Connect => CollectIdle(c);
    case Write(data) =>
      assert c.sender.stream.Write(data) == c.sender.stream;
      CollectIdle(c);
    case EndInput =>
      assert c.sender.stream.(ended := true) == c.sender.stream;
      CollectIdle(c);
    case ReadInbound(len) =>
  }

  lemma ClosedTick(c: Connection, ms: nat)
    requires Finished(c, CLOSED)
    ensures Finished(c.Ticked(ms), CLOSED)
  {
    hide Good, Connection.Collected, Sender.Ticked, Sender.FillWindow;
    FinAckedIsIdle(c.sender, c.rtTimeout);
  }

  /** An inactive endpoint is in none of the states in which segments do anything. */
  lemma InactiveIgnores(c: Connection, seg: Segment)
    requires c.Valid() && !c.active
    ensures c.Dispatched(seg) == c
  {
    hide Connection.Collected, Connection.AckTaken, Connection.Taken, Connection.OnOpen, SenderSummary,
         ReceiverSummary;
  }

  lemma ClosedArrive(c: Connection, seg: Segment)
    requires Finished(c, CLOSED) && !seg.header.rst
    ensures Finished(c.SegmentReceived(seg), CLOSED)
  {
    hide Good, Connection.Collected, Connection.Dispatched, Sender.FillWindow, SenderSummary;
    var c0 := c.(sinceLast := 0);
    InactiveIgnores(c0, seg);
    var c1 := c0.(sender := c0.sender.SentEmpty());
    GoodQueue(c0.sender, c.rtTimeout, c1.sender.out);
    SummaryIgnoresQueue(c0.sender, c1.sender.out);
    CollectIdle(c1);
  }

  lemma SummaryIgnoresQueue(s: Sender, out: seq<Segment>)
    ensures SenderSummary(s.(out := out)) == SenderSummary(s)
  {
  }

  predicate IsRst(call: Call) { call.Arrive? && call.seg.header.rst }

  /** A closed endpoint leaves CLOSED if and only if a RST arrives, and then it is reset. */
  lemma {:induction false} ClosedIsLeftOnlyByRst(c: Connection, calls: seq<Call>)
    requires Finished(c, CLOSED)
    ensures After(c, calls).In(if exists k :: 0 <= k < |calls| && IsRst(calls[k]) then RESET else CLOSED)
    ensures (forall k | 0 <= k < |calls| :: !IsRst(calls[k])) ==> Finished(After(c, calls), CLOSED)
  {
    hide Answer, Good, Connection.SegmentReceived, SenderSummary, ReceiverSummary;
    if calls != [] {
      var n := |calls| - 1;
      ClosedIsLeftOnlyByRst(c, calls[..n]);
      var d, call := After(c, calls[..n]), calls[n];
      if k :| 0 <= k < n && IsRst(calls[k]) {
        assert IsRst(calls[..n][k]);
        ResetStays(d, call);
      } else if IsRst(call) {
        RstIsArrive(d, call);
      } else {
        assert forall k | 0 <= k < n :: calls[..n][k] == calls[k];
        ClosedAnswer(d, call);
      }
    }
  }

  lemma RstIsArrive(c: Connection, call: Call)
    requires c.Valid() && IsRst(call)
    ensures Answer(c, call).In(RESET)
  {
    RstResets(c, call.seg);
  }

  lemma ClosedAnswer(c: Connection, call: Call)
    requires Finished(c, CLOSED) && !IsRst(call)
    ensures Finished(Answer(c, call), CLOSED)
  {
    hide Finished, Connection.SegmentReceived, Connection.Ticked;
    match call
    case Arrive(seg) => ClosedArrive(c, seg);
    case Tick(ms) => ClosedTick(c, ms);
    case _ => FinishedStream(c, CLOSED, call);
  }

  // ---------------------------------------------------------------- TIME_WAIT

  /** The time that passes during the calls. */
  function Elapsed(calls: seq<Call>): nat {
    if calls == [] then 0
    else Elapsed(calls[..|calls| - 1]) + if calls[|calls| - 1].Tick? then calls[|calls| - 1].ms else 0
  }

  /** Some tick finds that `limit` milliseconds have passed, `since` of them before the calls. */
  predicate TimedOut(since: nat, calls: seq<Call>, limit: nat) {
    calls != [] &&
    (TimedOut(since, calls[..|calls| - 1], limit) || (calls[|calls| - 1].Tick? && since + Elapsed(calls) >= limit))
  }

  lemma TimeWaitTick(c: Connection, ms: nat)
    requires Finished(c, TIME_WAIT)
    ensures Finished(c.Ticked(ms), if c.sinceLast + ms >= 10 * c.rtTimeout then CLOSED else TIME_WAIT)
    ensures c.Ticked(ms).sinceLast == c.sinceLast + ms && c.Ticked(ms).rtTimeout == c.rtTimeout
  {
    hide Good, Connection.Collected, Sender.Ticked, Sender.FillWindow;
    FinAckedIsIdle(c.sender, c.rtTimeout);
  }

  /** As long as no segment arrives, whatever else is called, an endpoint in TIME_WAIT stays there
      until a tick finds ten initial timeouts gone since the last segment, and is CLOSED from that
      tick on. */
  lemma {:induction false} TimeWaitLasts(c: Connection, calls: seq<Call>)
    requires Finished(c, TIME_WAIT) && forall k | 0 <= k < |calls| :: !calls[k].Arrive?
    ensures var d := After(c, calls);
            if TimedOut(c.sinceLast, calls, 10 * c.rtTimeout) then Finished(d, CLOSED)
            else Finished(d, TIME_WAIT) && d.sinceLast == c.sinceLast + Elapsed(calls) && d.rtTimeout == c.rtTimeout
  {
    hide Good, SenderSummary, Connection.In, Answer;
    if calls != [] {
      var n := |calls| - 1;
      assert forall k | 0 <= k < n :: calls[..n][k] == calls[k];
      TimeWaitLasts(c, calls[..n]);
      var d := After(c, calls[..n]);
      if TimedOut(c.sinceLast, calls[..n], 10 * c.rtTimeout) {
        ClosedAnswer(d, calls[n]);
      } else {
        TimeWaitAnswer(d, calls[n]);
      }
    }
  }

  lemma TimeWaitAnswer(c: Connection, call: Call)
    requires Finished(c, TIME_WAIT) && !call.Arrive?
    ensures var d, t := Answer(c, call), c.sinceLast + if call.Tick? then call.ms else 0;
            && Finished(d, if call.Tick? && t >= 10 * c.rtTimeout then CLOSED else TIME_WAIT)
            && d.sinceLast == t && d.rtTimeout == c.rtTimeout
  {
    hide Finished, Connection.Ticked;
    if call.Tick? {
      TimeWaitTick(c, call.ms);
    } else {
      FinishedStream(c, TIME_WAIT, call);
    }
  }

  // ---------------------------------------------------------------- in every run

  lemma ReachedIsFinished(c: Connection, o: Official)
    requires ConnInv(c) && c.In(o) && (o == TIME_WAIT || o == CLOSED)
    ensures Finished(c, o)
  {
    hide Good;
  }

  /** TIME_WAIT, in whatever regular run it is reached. */
  lemma TimeWaitInEveryRun(rtTimeout: U16, recvCapacity: nat, sendCapacity: nat, isn: U32,
      calls: seq<Call>, later: seq<Call>)
    requires RegularCalls(NewConnection(rtTimeout, recvCapacity, sendCapacity, isn), calls)
    requires After(NewConnection(rtTimeout, recvCapacity, sendCapacity, isn), calls).In(TIME_WAIT)
    requires forall k | 0 <= k < |later| :: !later[k].Arrive?
    ensures var c := After(NewConnection(rtTimeout, recvCapacity, sendCapacity, isn), calls);
            After(c, later).In(if TimedOut(c.sinceLast, later, 10 * rtTimeout) then CLOSED else TIME_WAIT)
  {
    hide After, Good, TimedOut, Connection.In;
    var c0 := NewConnection(rtTimeout, recvCapacity, sendCapacity, isn);
    NewConnectionInv(rtTimeout, recvCapacity, sendCapacity, isn);
    RunKeepsConnInv(c0, calls);
    AfterOnward(c0, calls);
    ReachedIsFinished(After(c0, calls), TIME_WAIT);
    TimeWaitLasts(After(c0, calls), later);
  }

  /** CLOSED, in whatever regular run it is reached, is left if and only if a RST arrives. */
  lemma ClosedInEveryRun(rtTimeout: U16, recvCapacity: nat, sendCapacity: nat, isn: U32,
      calls: seq<Call>, later: seq<Call>)
    requires RegularCalls(NewConnection(rtTimeout, recvCapacity, sendCapacity, isn), calls)
    requires After(NewConnection(rtTimeout, recvCapacity, sendCapacity, isn), calls).In(CLOSED)
    ensures var c := After(NewConnection(rtTimeout, recvCapacity, sendCapacity, isn), calls);
            After(c, later).In(if exists k :: 0 <= k < |later| && IsRst(later[k]) then RESET else CLOSED)
  {
    hide After, Good, Connection.In;
    var c0 := NewConnection(rtTimeout, recvCapacity, sendCapacity, isn);
    NewConnectionInv(rtTimeout, recvCapacity, sendCapacity, isn);
    RunKeepsConnInv(c0, calls);
    ReachedIsFinished(After(c0, calls), CLOSED);
    ClosedIsLeftOnlyByRst(After(c0, calls), later);
  }
}
