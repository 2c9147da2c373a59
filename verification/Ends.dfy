/** What every call on an endpoint keeps, whatever state it is in, as long as its peer sends only what is
    proper (libsponge/tcp_connection.cc). */
module Ends {
  import opened Words
  import opened WrappingIntegers
  import opened Segments
  import opened ReassemblyRuns
  import opened Receiving
  import opened Carriage
  import opened Acknowledging
  import opened SendingWindows
  import opened Sending
  import opened SenderInvariants
  import opened Tiling
  import opened Transmission
  import opened SenderRuns
  import opened Protocol
  import opened Connections
  import opened Lifecycle
  import opened Wire

  /** The receiver has heard only of the peer's stream, and only after the peer's SYN. */
  ghost predicate Hearing(r: Receiver, peer: Peer) {
    Tracks(r, peer.sender.window.isn, peer.sender.stream.written, peer.limit) && (r.isSet ==> peer.begun)
  }

  /** The endpoint is sound, has heard only of its peer's stream, has sent only what is proper, and counts
      nothing as acknowledged beyond what the peer acknowledges. */
  ghost predicate EndInv(x: Connection, log: seq<Segment>, peer: Peer) {
    && ConnInv(x)
    && Hearing(x.receiver, peer)
    && (if x.sender.stream.error then Lapsed(x.sender, log != [], x.receiver.isSet)
        else Speaks(x.sender, log, x.receiver.isSet))
    && Wired(x.out, x.sender, log != [], peer)
    && x.sender.window.first <= peer.cap
  }

  /** Steps within a call on an endpoint that is not reset by it: from `x` to `x'`, with the outbound
      stream as it was. */
  ghost predicate Leads(x: Connection, log: seq<Segment>, x': Connection, log': seq<Segment>, peer: Peer) {
    && EndInv(x', log', peer) && x'.Valid()
    && !x'.sender.stream.error && SameStream(x.sender, x'.sender)
    && (x.receiver.isSet ==> x'.receiver.isSet)
    && (log != [] ==> log' != [])
  }

  // ---------------------------------------------------------------- collecting

  lemma AcknoIsKnown(r: Receiver, peer: Peer)
    requires Hearing(r, peer) && r.isSet && peer.limit < TWO_64
    ensures Known(r.Ackno().value, peer.sender.window.isn, peer.limit)
  {
    hide Agrees, Wrap;
    assert AckFor(r.Ackno().value, r.checkpoint, peer.sender.window.isn, peer.limit);
  }

  lemma {:induction false} StampedMember(segs: seq<Segment>, r: Receiver, seg: Segment) returns (g: Segment)
    requires r.Valid() && seg in StampedAll(segs, r)
    ensures g in segs && seg == StampedIfSet(g, r)
  {
    hide Stamped;
    if seg == StampedIfSet(segs[0], r) {
      g := segs[0];
    } else {
      g := StampedMember(segs[1..], r, seg);
    }
  }

  lemma StampedIsTruthful(g: Segment, s: Sender, begun: bool, r: Receiver)
    requires r.Valid() && Truthful(g, s, begun)
    ensures Truthful(StampedIfSet(g, r), s, begun)
  {
    hide Wrap;
    var t := StampedIfSet(g, r);
    if g.Length() != 0 && begun {
      if v: nat :| Carries(g, v, s.window.isn, s.stream.written, s.stream.ended) {
        assert Carries(t, v, s.window.isn, s.stream.written, s.stream.ended);
      } else {
        var v: nat :| Surplus(g, v, s);
        assert Surplus(t, v, s);
      }
    }
  }

  lemma StampedIsProper(g: Segment, s: Sender, begun: bool, r: Receiver, peer: Peer)
    requires r.Valid() && Queueable(g, s, begun, r.isSet) && Hearing(r, peer) && peer.limit < TWO_64
    ensures Proper(StampedIfSet(g, r), s, begun, peer)
  {
    hide Tracks, Truthful, Wrap;
    StampedIsTruthful(g, s, begun, r);
    if r.isSet {
      AcknoIsKnown(r, peer);
    }
  }

  lemma CollectWired(x: Connection, s: Sender, begun: bool, peer: Peer)
    requires x.Valid() && Hearing(x.receiver, peer) && peer.limit < TWO_64 && Wired(x.out, s, begun, peer)
    requires forall seg | seg in s.out :: Queueable(seg, s, begun, x.receiver.isSet)
    ensures Wired(x.out + StampedAll(s.out, x.receiver), s, begun, peer)
  {
    hide Hearing, StampedAll, StampedIfSet, Proper, Queueable;
    forall seg | seg in x.out + StampedAll(s.out, x.receiver) ensures Proper(seg, s, begun, peer) {
      if seg !in x.out {
        var g := StampedMember(s.out, x.receiver, seg);
        StampedIsProper(g, s, begun, x.receiver, peer);
      }
    }
  }

  lemma WiredSame(out: seq<Segment>, s: Sender, t: Sender, begun: bool, peer: Peer)
    requires Wired(out, s, begun, peer) && SameStream(s, t)
    requires s.stream.error ==> t.stream.error && s.window.next <= t.window.next
    ensures Wired(out, t, begun, peer)
  {
    WiredGrows(out, s, t, begun, peer, peer);
  }

  lemma CollectEnd(x: Connection, log: seq<Segment>, peer: Peer) returns (log': seq<Segment>)
    requires EndInv(x, log, peer) && x.Valid() && !x.sender.stream.error && peer.limit < TWO_64
    ensures Leads(x, log, x.Collected(), log', peer)
  {
    hide Good, Hearing, Logged, Queueable, Wired, Sender.FillWindow, StampedAll, FillNew;
    CollectKeepsInv(x);
    var s := x.sender.FillWindow();
    log' := log + FillNew(x.sender);
    FillExtends(x.sender);
    FillSpeaks(x.sender, x.rtTimeout, log, x.receiver.isSet);
    WiredSame(x.out, x.sender, s, log != [], peer);
    WiredOpens(x.out, s, log != [], log' != [], peer);
    CollectWired(x, s, log' != [], peer);
    SpeaksEmptied(s, log', x.receiver.isSet);
    WiredSame(x.Collected().out, s, s.(out := []), log' != [], peer);
  }

  // ---------------------------------------------------------------- the steps of a call

  lemma TakeEnd(x: Connection, log: seq<Segment>, peer: Peer, seg: Segment)
    requires EndInv(x, log, peer) && x.Valid() && !x.sender.stream.error
    requires Hearing(x.receiver.SegmentReceived(seg), peer)
    ensures Leads(x, log, x.Taken(seg), log, peer)
    ensures x.Taken(seg) == x.(receiver := x.Taken(seg).receiver)
  {
    hide Good, Hearing, Speaks, Wired, Receiver.SegmentReceived;
    TakeKeepsError(x.receiver, seg);
    if x.Taken(seg).receiver.isSet {
      SpeaksOnceHeard(x.sender, log, x.receiver.isSet);
    }
  }

  lemma AckEnd(x: Connection, log: seq<Segment>, peer: Peer, seg: Segment) returns (log': seq<Segment>)
    requires EndInv(x, log, peer) && x.Valid() && !x.sender.stream.error && x.receiver.isSet
    requires Short(x.sender) && peer.cap < TWO_31 && Known(seg.header.ackno, x.sender.window.isn, peer.cap)
    ensures Leads(x, log, x.AckTaken(seg), log', peer)
    ensures x.AckTaken(seg) == x.(sender := x.AckTaken(seg).sender)
  {
    hide Good, Hearing, Speaks, Wired, Sender.FillWindow, Window.Acked, FillNew, Known, Window.Advances;
    var s := x.sender.Acknowledged(seg.header.ackno, seg.header.win);
    log' := log + FillNew(s);
    FillExtends(s);
    AckSpeaks(x.sender, x.rtTimeout, log, seg.header.ackno, seg.header.win, peer.cap);
    GoodIsSound(x.AckTaken(seg).sender, x.rtTimeout);
    WiredSame(x.out, x.sender, x.AckTaken(seg).sender, log != [], peer);
    WiredOpens(x.out, x.AckTaken(seg).sender, log != [], log' != [], peer);
  }

  lemma ReplyEnd(x: Connection, log: seq<Segment>, peer: Peer)
    requires EndInv(x, log, peer) && x.Valid() && !x.sender.stream.error && x.receiver.isSet && peer.limit < TWO_64
    ensures Leads(x, log, x.Replied(), log, peer)
  {
    hide Good, Hearing, Speaks, Known, Connection.PureAck;
    PureAckIsProper(x, log != [], peer);
  }

  lemma PureAckIsProper(x: Connection, begun: bool, peer: Peer)
    requires x.Valid() && x.receiver.isSet && Hearing(x.receiver, peer) && peer.limit < TWO_64
    ensures Proper(x.PureAck(), x.sender, begun, peer) && x.PureAck().Length() == 0
  {
    hide Hearing, Known;
    AcknoIsKnown(x.receiver, peer);
  }

  /** Something empty goes through the sender's queue. */
  lemma QueueEnd(x: Connection, log: seq<Segment>, peer: Peer, seg: Segment)
    requires EndInv(x, log, peer) && x.Valid() && !x.sender.stream.error
    requires seg.Length() == 0 && (seg.header.ack ==> x.receiver.isSet)
    ensures Leads(x, log, x.(sender := x.sender.Queued(seg)), log, peer)
  {
    hide Good, Hearing, Speaks, Wired;
    QueueSpeaks(x.sender, log, x.receiver.isSet, seg);
    GoodQueue(x.sender, x.rtTimeout, x.sender.Queued(seg).out);
    WiredSame(x.out, x.sender, x.sender.Queued(seg), log != [], peer);
  }

  /** The clock and the flags may change at will, except that nothing becomes active. */
  lemma FlagsEnd(x: Connection, x': Connection, log: seq<Segment>, peer: Peer)
    requires EndInv(x, log, peer) && x' == x.(linger := x'.linger, sinceLast := x'.sinceLast, active := x'.active)
    requires x'.active ==> x.active
    ensures EndInv(x', log, peer) && x'.Valid()
  {
    hide Good, Hearing, Speaks, Lapsed, Wired;
  }

  // ---------------------------------------------------------------- arrivals

  /** What an endpoint needs of a segment from its peer. */
  ghost predicate Arriving(x: Connection, log: seq<Segment>, peer: Peer, seg: Segment) {
    && EndInv(x, log, peer) && x.Valid() && !x.sender.stream.error
    && Short(x.sender) && peer.cap < TWO_31 && peer.limit < TWO_64
    && (seg.header.ack ==> Known(seg.header.ackno, x.sender.window.isn, peer.cap))
    && (seg.header.fin && peer.begun ==> seg.header.ack)
  }

  /** Its receiver, if it takes the segment in, still hears only of the peer's stream. */
  ghost predicate Audible(x: Connection, peer: Peer, seg: Segment)
    requires x.Valid()
  {
    Hearing(x.receiver.SegmentReceived(seg), peer)
  }

  lemma StillArriving(x: Connection, log: seq<Segment>, x': Connection, log': seq<Segment>, peer: Peer, seg: Segment)
    requires Arriving(x, log, peer, seg) && Leads(x, log, x', log', peer)
    ensures Arriving(x', log', peer, seg)
  {
    hide EndInv;
  }

  /** The segment is taken in and an acknowledgment collected. */
  lemma TakeAndAnswer(x: Connection, log: seq<Segment>, peer: Peer, seg: Segment) returns (log': seq<Segment>)
    requires Arriving(x, log, peer, seg) && x.receiver.isSet && Audible(x, peer, seg)
    ensures x.Taken(seg).receiver.isSet
    ensures var t := x.Taken(seg);
            Leads(x, log, t.(sender := t.sender.Queued(t.PureAck())).Collected(), log', peer)
  {
    hide EndInv, Known, Connection.Collected, Connection.Taken, Hearing;
    TakeEnd(x, log, peer, seg);
    var t := x.Taken(seg);
    PureAckIsEmpty(t);
    QueueEnd(t, log, peer, t.PureAck());
    log' := CollectEnd(t.(sender := t.sender.Queued(t.PureAck())), log, peer);
  }

  lemma PureAckIsEmpty(x: Connection)
    requires x.Valid() && x.receiver.isSet
    ensures x.PureAck().Length() == 0
  {
  }

  lemma AckAndCollect(x: Connection, log: seq<Segment>, peer: Peer, seg: Segment) returns (log': seq<Segment>)
    requires Arriving(x, log, peer, seg) && x.receiver.isSet && seg.header.ack
    ensures Leads(x, log, x.AckTaken(seg).Collected(), log', peer)
  {
    hide EndInv, Known, Connection.Collected, Connection.AckTaken;
    log' := AckEnd(x, log, peer, seg);
    log' := CollectEnd(x.AckTaken(seg), log', peer);
  }

  lemma OpenEnd(x: Connection, log: seq<Segment>, peer: Peer, seg: Segment) returns (log': seq<Segment>)
    requires Arriving(x, log, peer, seg) && x.receiver.isSet
    requires seg.Length() != 0 || !seg.header.ack ==> Audible(x, peer, seg)
    ensures Leads(x, log, x.OnOpen(seg), log', peer)
  {
    hide EndInv, Known, Hearing, Connection.Collected, Connection.AckTaken, Connection.Taken, Connection.State;
    var c0 := if seg.header.fin && !x.In(FIN_WAIT_1) then x.(linger := false) else x;
    FlagsEnd(x, c0, log, peer);
    var c1 := c0;
    log' := log;
    if seg.Length() != 0 || !seg.header.ack {
      log' := TakeAndAnswer(c0, log, peer, seg);
      var t := c0.Taken(seg);
      c1 := t.(sender := t.sender.Queued(t.PureAck())).Collected();
    }
    if seg.header.ack {
      StillArriving(x, log, c1, log', peer, seg);
      log' := AckAndCollect(c1, log', peer, seg);
    }
  }

  /** The segment is taken in and its acknowledgment is taken. */
  lemma TakeBoth(x: Connection, log: seq<Segment>, peer: Peer, seg: Segment) returns (log': seq<Segment>)
    requires Arriving(x, log, peer, seg) && seg.header.ack && (x.receiver.isSet || seg.header.syn)
    requires Audible(x, peer, seg)
    ensures Leads(x, log, x.Taken(seg).AckTaken(seg), log', peer) && x.Taken(seg).AckTaken(seg).receiver.isSet
  {
    hide EndInv, Known, Hearing, Connection.AckTaken, Connection.Taken;
    TakeEnd(x, log, peer, seg);
    log' := AckEnd(x.Taken(seg), log, peer, seg);
  }

  /** In these states too the receiver has its SYN. */
  lemma EndedStates(c: Connection)
    ensures c.In(SYN_RCVD) || c.In(LAST_ACK) || c.In(CLOSING) ==> c.receiver.isSet
    ensures c.In(SYN_SENT) || c.In(LISTEN) ==> c.active
  {
    hide SenderSummary;
  }

  lemma EndHears(x: Connection, log: seq<Segment>, peer: Peer)
    requires EndInv(x, log, peer)
    ensures x.receiver.isSet ==> peer.begun
  {
    hide ConnInv, Speaks, Lapsed, Wired, Tracks;
  }

  lemma ClosingEnd(x: Connection, log: seq<Segment>, peer: Peer, seg: Segment) returns (log': seq<Segment>)
    requires Arriving(x, log, peer, seg)
    requires seg.header.ack && (x.In(CLOSING) || (x.In(FIN_WAIT_2) && seg.header.fin)) ==> Audible(x, peer, seg)
    ensures Leads(x, log, x.OnClosing(seg), log', peer)
  {
    hide EndInv, Known, Hearing, Connection.Collected, Connection.AckTaken, Connection.Taken, Connection.Replied,
         Connection.State, Named, Sender.State;
    SynchronizedStates(x);
    EndedStates(x);
    EndHears(x, log, peer);
    var h := seg.header;
    log' := log;
    if x.In(FIN_WAIT_2) {
      if h.fin && h.ack {
        log' := TakeBoth(x, log, peer, seg);
        ReplyEnd(x.Taken(seg).AckTaken(seg), log', peer);
      }
    } else if x.In(LAST_ACK) {
      if h.ack {
        log' := AckEnd(x, log, peer, seg);
        var c := x.AckTaken(seg);
        FlagsEnd(c, c.(linger := false, active := false), log', peer);
      }
    } else if x.In(CLOSING) {
      if h.ack {
        log' := TakeBoth(x, log, peer, seg);
        log' := CollectEnd(x.Taken(seg).AckTaken(seg), log', peer);
      }
    } else if (x.In(CLOSE_WAIT) && h.fin) || (x.In(TIME_WAIT) && h.fin && h.ack) {
      log' := AckEnd(x, log, peer, seg);
      ReplyEnd(x.AckTaken(seg), log', peer);
    }
  }

  lemma DispatchEnd(x: Connection, log: seq<Segment>, peer: Peer, seg: Segment) returns (log': seq<Segment>)
    requires Arriving(x, log, peer, seg) && (TakesIn(x, seg) ==> Audible(x, peer, seg))
    ensures Leads(x, log, x.Dispatched(seg), log', peer)
  {
    hide EndInv, Known, Hearing, Connection.Collected, Connection.AckTaken, Connection.Taken, Connection.Replied,
         Connection.OnOpen, Connection.OnClosing, Connection.State;
    SynchronizedStates(x);
    EndedStates(x);
    log' := log;
    if x.In(LISTEN) {
      if seg.header.syn {
        TakeEnd(x, log, peer, seg);
        log' := CollectEnd(x.Taken(seg), log, peer);
        CollectOnward(x.Taken(seg));
      }
    } else if x.In(SYN_SENT) {
      if seg.header.syn && seg.header.ack {
        log' := TakeBoth(x, log, peer, seg);
        ReplyEnd(x.Taken(seg).AckTaken(seg), log', peer);
      } else if seg.header.syn {
        TakeEnd(x, log, peer, seg);
        ReplyEnd(x.Taken(seg), log, peer);
      }
    } else if x.In(SYN_RCVD) {
      if seg.header.ack {
        log' := TakeBoth(x, log, peer, seg);
      }
    } else if x.In(ESTABLISHED) || x.In(FIN_WAIT_1) {
      log' := OpenEnd(x, log, peer, seg);
    } else {
      log' := ClosingEnd(x, log, peer, seg);
    }
  }

  // ---------------------------------------------------------------- being reset

  lemma ErrorHears(r: Receiver, peer: Peer)
    requires r.Valid() && Hearing(r, peer)
    ensures Hearing(r.WithError(), peer)
  {
  }

  lemma ReadHears(r: Receiver, len: nat, peer: Peer)
    requires r.Valid() && Hearing(r, peer)
    ensures Hearing(r.ReadOut(len), peer)
  {
  }

  lemma AbortEnd(x: Connection, log: seq<Segment>, peer: Peer)
    requires x.Valid() && Core(x.sender) && Hearing(x.receiver, peer) && x.sender.window.first <= peer.cap
    requires Speaks(x.sender, log, x.receiver.isSet) && Wired(x.out, x.sender, log != [], peer)
    ensures EndInv(x.Aborted(), log, peer) && Grows(x.sender, x.Aborted().sender)
  {
    hide Clocked, Hearing, Speaks, Lapsed, Wired;
    ErrorHears(x.receiver, peer);
    SpeakerLapses(x.sender, log, x.receiver.isSet);
    WiredSame(x.out, x.sender, x.Aborted().sender, log != [], peer);
  }

  lemma GiveUpEnd(x: Connection, log: seq<Segment>, peer: Peer)
    requires x.Valid() && Core(x.sender) && Hearing(x.receiver, peer) && x.sender.window.first <= peer.cap
    requires Speaks(x.sender, log, x.receiver.isSet) && Wired(x.out, x.sender, log != [], peer)
    ensures EndInv(x.UncleanShutdown(), log, peer) && Grows(x.sender, x.UncleanShutdown().sender)
  {
    hide Core, Hearing, Speaks, Lapsed, Wired, EndInv;
    AbortEnd(x, log, peer);
    RstEnd(x.Aborted(), log, peer);
  }

  /** The peer is told. */
  lemma RstEnd(x: Connection, log: seq<Segment>, peer: Peer)
    requires EndInv(x, log, peer)
    ensures EndInv(x.(out := x.out + [Segment(BLANK.(rst := true), [])]), log, peer)
  {
    hide Good, Hearing, Speaks, Lapsed, Known;
  }

  lemma EndIsSound(x: Connection, log: seq<Segment>, peer: Peer)
    requires EndInv(x, log, peer) && !x.sender.stream.error
    ensures x.Valid() && Core(x.sender) && Hearing(x.receiver, peer) && x.sender.window.first <= peer.cap
    ensures Speaks(x.sender, log, x.receiver.isSet) && Wired(x.out, x.sender, log != [], peer)
    ensures Good(x.sender, x.rtTimeout)
  {
    hide Core, Hearing, Speaks, Wired;
  }

  lemma ArriveEnd(x: Connection, log: seq<Segment>, peer: Peer, seg: Segment) returns (log': seq<Segment>)
    requires Arriving(x, log, peer, seg) && (!seg.header.rst && TakesIn(x, seg) ==> Audible(x, peer, seg))
    ensures EndInv(x.SegmentReceived(seg), log', peer) && Grows(x.sender, x.SegmentReceived(seg).sender)
    ensures log != [] ==> log' != []
  {
    hide EndInv, Known, Connection.Collected, Connection.Dispatched, Connection.Aborted, Sender.NextHeader, Hearing,
         SenderSummary, ReceiverSummary;
    var c0 := x.(sinceLast := 0);
    FlagsEnd(x, c0, log, peer);
    if seg.header.rst {
      EndIsSound(c0, log, peer);
      AbortEnd(c0, log, peer);
      log' := log;
    } else {
      assert c0.State() == x.State();
      log' := DispatchEnd(c0, log, peer, seg);
      var c1 := c0.Dispatched(seg);
      EmptyIsEmpty(c1.sender);
      QueueEnd(c1, log', peer, Segment(c1.sender.NextHeader(), []));
      if c1.KeptAlive(seg) != c1 {
        log' := CollectEnd(c1.(sender := c1.sender.SentEmpty()), log', peer);
      }
    }
  }

  lemma EmptyIsEmpty(s: Sender)
    ensures var seg := Segment(s.NextHeader(), []); seg.Length() == 0 && !seg.header.ack
  {
  }

  // ---------------------------------------------------------------- the other calls

  lemma TickEnd(x: Connection, log: seq<Segment>, peer: Peer, ms: nat) returns (log': seq<Segment>)
    requires EndInv(x, log, peer) && x.Valid() && !x.sender.stream.error && peer.limit < TWO_64
    ensures EndInv(x.Ticked(ms), log', peer) && Grows(x.sender, x.Ticked(ms).sender)
    ensures log != [] ==> log' != []
  {
    hide Core, Tiled, Hearing, Speaks, Lapsed, Wired, Connection.Collected, Connection.State, Collecting, Sender.Ticked,
         Connection.UncleanShutdown;
    var d := x.(sinceLast := x.sinceLast + ms).Lingered();
    var t := d.(sender := d.sender.Ticked(ms));
    log' := log;
    TickedCore(x.sender, ms);
    TickedTiles(x.sender, ms);
    TickedKeepsConfig(x.sender, ms);
    TickSpeaks(x.sender, x.rtTimeout, log, x.receiver.isSet, ms);
    TickedSameStream(x.sender, ms);
    WiredSame(x.out, x.sender, t.sender, log != [], peer);
    if t.sender.retransmissions > MAX_RETX_ATTEMPTS {
      GiveUpEnd(t, log, peer);
    } else {
      GoodIsSound(t.sender, x.rtTimeout);
      assert EndInv(t, log, peer);
      if x.Ticked(ms) != t {
        log' := CollectEnd(t, log, peer);
      }
    }
  }

  lemma TickedSameStream(s: Sender, ms: nat)
    ensures SameStream(s, s.Ticked(ms)) && s.Ticked(ms).stream.error == s.stream.error
    ensures s.Ticked(ms).window.first == s.window.first && s.Ticked(ms).window.next == s.window.next
  {
  }

  /** The application writes or ends its stream, and what can be sent is sent. */
  lemma StreamEnd(x: Connection, x': Connection, log: seq<Segment>, peer: Peer, call: Call)
      returns (log': seq<Segment>)
    requires EndInv(x, log, peer) && x.Valid() && !x.sender.stream.error && peer.limit < TWO_64
    requires (call.Write? || call.EndInput?) && x'.Valid() && |x'.sender.stream.written| + 2 < TWO_64
    requires x' == x.(sender := x.sender.(stream := if call.Write? then x.sender.stream.Write(call.data)
                                                    else x.sender.stream.(ended := true)))
    ensures Grows(x.sender, x'.sender) && Leads(x', log, x'.Collected(), log', peer)
  {
    hide Hearing, Speaks, Lapsed, Wired, Good, Connection.Collected;
    EndIsSound(x, log, peer);
    GoodStream(x, x', call);
    StreamSpeaks(x.sender, x'.sender, log, x.receiver.isSet);
    WiredGrows(x.out, x.sender, x'.sender, log != [], peer, peer);
    log' := CollectEnd(x', log, peer);
  }

  lemma ReadEnd(x: Connection, log: seq<Segment>, peer: Peer, len: nat)
    requires EndInv(x, log, peer) && x.Valid()
    ensures EndInv(x.InboundRead(len), log, peer)
  {
    hide Good, Hearing, Speaks, Lapsed, Wired;
    ReadHears(x.receiver, len, peer);
  }

  lemma CollectSameStream(x: Connection)
    requires x.Valid()
    ensures SameStream(x.sender, x.Collected().sender)
    ensures x.Collected().sender.stream.error == x.sender.stream.error
  {
    hide Sender.FillWindow;
    FillExtends(x.sender);
  }

  // ---------------------------------------------------------------- an endpoint that has been reset

  lemma ResetCollect(x: Connection, log: seq<Segment>, peer: Peer)
    requires EndInv(x, log, peer) && x.Valid() && x.sender.stream.error && peer.limit < TWO_64
    requires x.Collected().sender.window.next >= x.sender.window.next
    ensures EndInv(x.Collected(), log, peer) && Grows(x.sender, x.Collected().sender)
  {
    hide Good, Hearing, Queueable, Overnumbered, Wired, Sender.FillWindow, StampedAll;
    CollectKeepsInv(x);
    var s := x.sender.FillWindow();
    FillExtends(x.sender);
    FillLapsed(x.sender, log != [], x.receiver.isSet);
    WiredSame(x.out, x.sender, s, log != [], peer);
    CollectWired(x, s, log != [], peer);
    LapsedEmptied(s, log != [], x.receiver.isSet);
    WiredSame(x.Collected().out, s, s.(out := []), log != [], peer);
  }

  lemma LapsedEmptied(s: Sender, begun: bool, heard: bool)
    requires Lapsed(s, begun, heard)
    ensures Lapsed(s.(out := []), begun, heard)
  {
    hide Truthful;
    LapsedGoesOn(s, s.(out := []), begun, heard);
  }

  /** The queue or the stream of an endpoint that has been reset changes. */
  lemma ResetGoesOn(x: Connection, x': Connection, log: seq<Segment>, peer: Peer)
    requires EndInv(x, log, peer) && x.Valid() && x'.Valid() && x.sender.stream.error
    requires x' == x.(sender := x.sender.(stream := x'.sender.stream, out := x'.sender.out), sinceLast := x'.sinceLast)
    requires Grows(x.sender, x'.sender) && x'.sender.stream.readCount == x.sender.stream.readCount
    requires forall seg | seg in x'.sender.out :: seg in x.sender.out || (seg.Length() == 0 && !seg.header.ack)
    ensures EndInv(x', log, peer)
  {
    hide Good, Hearing, Lapsed, Speaks, Wired;
    LapsedGoesOn(x.sender, x'.sender, log != [], x.receiver.isSet);
    WiredGrows(x.out, x.sender, x'.sender, log != [], peer, peer);
  }

  lemma ResetArrive(x: Connection, log: seq<Segment>, peer: Peer, seg: Segment)
    requires EndInv(x, log, peer) && x.Valid() && x.sender.stream.error && peer.limit < TWO_64
    requires x.SegmentReceived(seg).sender.window.next >= x.sender.window.next
    ensures EndInv(x.SegmentReceived(seg), log, peer) && Grows(x.sender, x.SegmentReceived(seg).sender)
  {
    hide EndInv, Connection.Collected, Connection.Dispatched, Connection.Aborted, Sender.NextHeader;
    var c0 := x.(sinceLast := 0);
    ResetGoesOn(x, c0, log, peer);
    if seg.header.rst {
      ResetAgain(c0, log, peer);
    } else {
      EndIsInactive(x, log, peer);
      InactiveIgnores(c0, seg);
      if c0.KeptAlive(seg) != c0 {
        EmptyIsEmpty(x.sender);
        var c1 := c0.(sender := c0.sender.SentEmpty());
        ResetGoesOn(c0, c1, log, peer);
        ResetCollect(c1, log, peer);
      }
    }
  }

  lemma EndIsInactive(x: Connection, log: seq<Segment>, peer: Peer)
    requires EndInv(x, log, peer) && x.sender.stream.error
    ensures !x.active
  {
    hide Good, Hearing, Lapsed, Wired;
  }

  lemma ResetAgain(x: Connection, log: seq<Segment>, peer: Peer)
    requires EndInv(x, log, peer) && x.Valid() && x.sender.stream.error
    ensures EndInv(x.Aborted(), log, peer) && x.Aborted().sender == x.sender && x.Aborted().out == x.out
  {
    hide Good, Hearing, Lapsed, Speaks, Wired;
    ErrorHears(x.receiver, peer);
    assert x.Aborted().sender == x.sender;
  }

  lemma ResetTick(x: Connection, log: seq<Segment>, peer: Peer, ms: nat)
    requires EndInv(x, log, peer) && x.Valid() && x.sender.stream.error
    ensures EndInv(x.Ticked(ms), log, peer) && Grows(x.sender, x.Ticked(ms).sender)
  {
    hide Good, Hearing, Lapsed, Speaks, Wired, Sender.Ticked, Connection.Ticked, Connection.Aborted, Connection.State,
         Collecting, Named;
    InactiveRests(x);
    var t := x.(sinceLast := x.sinceLast + ms, sender := x.sender.Ticked(ms));
    TickShape(x, ms);
    TickLapsed(x.sender, log != [], x.receiver.isSet, ms);
    TickedSameStream(x.sender, ms);
    WiredSame(x.out, x.sender, t.sender, log != [], peer);
    assert EndInv(t, log, peer);
    if t.sender.retransmissions > MAX_RETX_ATTEMPTS {
      ResetAgain(t, log, peer);
      RstEnd(t.Aborted(), log, peer);
    }
  }

  /** A tick of an endpoint that is no longer active neither ends TIME_WAIT nor collects. */
  lemma InactiveRests(x: Connection)
    requires !x.active
    ensures !x.In(TIME_WAIT) && !Collecting(x.State())
  {
    hide SenderSummary, ReceiverSummary;
  }

  /** Whatever is called on an endpoint that has been reset, as long as it does not run out of numbers. */
  lemma ResetEnd(x: Connection, log: seq<Segment>, peer: Peer, call: Call)
    requires EndInv(x, log, peer) && x.Valid() && x.sender.stream.error && peer.limit < TWO_64
    requires Answer(x, call).sender.window.next >= x.sender.window.next
    ensures EndInv(Answer(x, call), log, peer) && Grows(x.sender, Answer(x, call).sender)
  {
    hide EndInv, Connection.Collected, Connection.SegmentReceived, Connection.Ticked;
    match call
    case Connect => ResetCollect(x, log, peer);
    case Write(data) =>
      var x' := x.(sender := x.sender.(stream := x.sender.stream.Write(data)));
      ResetGoesOn(x, x', log, peer);
      ResetCollect(x', log, peer);
    case EndInput =>
      var x' := x.(sender := x.sender.(stream := x.sender.stream.(ended := true)));
      ResetGoesOn(x, x', log, peer);
      ResetCollect(x', log, peer);
    case Arrive(seg) => ResetArrive(x, log, peer, seg);
    case Tick(ms) => ResetTick(x, log, peer, ms);
    case ReadInbound(len) => ReadEnd(x, log, peer, len);
  }

  // ---------------------------------------------------------------- any call

  /** The call is one that can happen: what arrives is proper and audible, the byte counter does not
      overflow, and an endpoint that has been reset does not run out of numbers. */
  ghost predicate Sensible(x: Connection, log: seq<Segment>, peer: Peer, call: Call)
    requires x.Valid()
  {
    if x.sender.stream.error then Answer(x, call).sender.window.next >= x.sender.window.next
    else if call.Arrive? then
      Arriving(x, log, peer, call.seg) && (!call.seg.header.rst && TakesIn(x, call.seg) ==> Audible(x, peer, call.seg))
    else Short(Answer(x, call).sender)
  }

  /** Every call keeps the invariant of the endpoint. */
  lemma CallKeepsEnd(x: Connection, log: seq<Segment>, peer: Peer, call: Call) returns (log': seq<Segment>)
    requires EndInv(x, log, peer) && x.Valid() && peer.limit < TWO_64 && Sensible(x, log, peer, call)
    ensures EndInv(Answer(x, call), log', peer) && Grows(x.sender, Answer(x, call).sender)
    ensures log != [] ==> log' != []
  {
    hide EndInv, Connection.Collected, Connection.SegmentReceived, Connection.Ticked, Arriving, Audible, TakesIn;
    log' := log;
    if x.sender.stream.error {
      ResetEnd(x, log, peer, call);
    } else {
      match call
      case Connect => log' := CollectEnd(x, log, peer);
      case Write(data) =>
        var x' := x.(sender := x.sender.(stream := x.sender.stream.Write(data)));
        CollectSameStream(x');
        log' := StreamEnd(x, x', log, peer, call);
      case EndInput =>
        var x' := x.(sender := x.sender.(stream := x.sender.stream.(ended := true)));
        CollectSameStream(x');
        log' := StreamEnd(x, x', log, peer, call);
      case Arrive(seg) => log' := ArriveEnd(x, log, peer, seg);
      case Tick(ms) => log' := TickEnd(x, log, peer, ms);
      case ReadInbound(len) => ReadEnd(x, log, peer, len);
    }
  }

  /** What one end relies on in the other stays true as the other goes on. */
  lemma PeerAdvances(y: Connection, log: seq<Segment>, peer: Peer, peer': Peer)
    requires EndInv(y, log, peer) && Advanced(peer, peer')
    ensures EndInv(y, log, peer')
  {
    hide ConnInv, Tracks, Speaks, Lapsed, Wired;
    TracksExtends(y.receiver, peer.sender.window.isn, peer.sender.stream.written, peer.limit,
                  peer'.sender.stream.written, peer'.limit);
    WiredGrows(y.out, y.sender, y.sender, log != [], peer, peer');
  }
}
