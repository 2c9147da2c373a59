/** What the end of a connection means for both applications, when no delivery overruns a receiver and no
    bare FIN overtakes data (libsponge/tcp_connection.cc). */
module Completion {
  import opened WrappingIntegers
  import opened Segments
  import opened Reassembly
  import opened ReassemblyRuns
  import opened Receiving
  import opened Carriage
  import opened Acknowledging
  import opened Sending
  import opened SenderInvariants
  import opened Tiling
  import opened Protocol
  import opened Delivery
  import opened Connections
  import opened Lifecycle
  import opened Wire
  import opened Ends
  import opened Duplex

  /** A segment that the receiver takes in fits its window, and a FIN without data comes only after the
      byte before it has been seen. */
  predicate CarefulCall(x: Connection, y: Connection, call: Call) {
    call.Arrive? && TakesIn(x, call.seg) && (x.receiver.isSet || call.seg.header.syn) ==>
      var v := Place(call.seg, y.sender.window.isn);
      FitsWindow(x.receiver, call.seg, v) && FinNotEarly(x.receiver, call.seg, v)
  }

  predicate CarefulAct(p: Pair, act: Act) {
    match act
    case ByA(call) => CarefulCall(p.a, p.b, call)
    case ByB(call) => CarefulCall(p.b, p.a, call)
  }

  // ---------------------------------------------------------------- what the receiver has

  /** How `x` sees `y` when nothing is acknowledged that has not been handed on. */
  function BackedView(x: Connection, y: Connection, begun: bool): Peer {
    Peer(y.sender, begun, 1 + Delivered(x.receiver), 1 + Delivered(y.receiver))
  }

  /** The receiver of `x` has handed on what it acknowledges, and has heard of an end only if there is one. */
  ghost predicate Vouched(r: Receiver, s: Sender) {
    AckInv(r, s.window.isn, s.stream.written) && (r.ended ==> s.stream.ended)
  }

  lemma EmptyBacked(r: Receiver, seg: Segment, s: Sender)
    requires r.Valid() && Vouched(r, s) && Short(s) && seg.Length() == 0
    ensures Vouched(r.SegmentReceived(seg), s) && Delivered(r.SegmentReceived(seg)) >= Delivered(r)
  {
    hide Reassembler.Push, Reassembler.Valid, Holds, Unwrap, Receiver.Acknowledged;
    if r.isSet {
      var stream := s.stream.written;
      var index := Unwrap(seg.header.seqno, r.isn, r.checkpoint);
      var op := PushOp([], Receiver.StreamIndex(index, seg), false);
      PushKeepsEofReached(r.reassembler, op, stream);
      PushMarks(r.reassembler, op);
      AssembledGrows(r.reassembler, op);
      AssembledWithinSeen(Step(r.reassembler, op), stream);
      EmptyAcknowledged(r.(reassembler := Step(r.reassembler, op)), index, stream);
    }
  }

  /** A careful delivery, of whatever the peer has sent, hands on what it acknowledges. */
  lemma TakeBacked(r: Receiver, seg: Segment, s: Sender, begun: bool)
    requires r.Valid() && Vouched(r, s) && Within(s) && Truthful(seg, s, begun) && (r.isSet ==> begun)
    requires r.isSet || seg.header.syn ==>
               FitsWindow(r, seg, Place(seg, s.window.isn)) && FinNotEarly(r, seg, Place(seg, s.window.isn))
    ensures Vouched(r.SegmentReceived(seg), s) && Delivered(r.SegmentReceived(seg)) >= Delivered(r)
  {
    hide Receiver.SegmentReceived, Carries, AckInv, Place;
    if seg.Length() == 0 {
      EmptyBacked(r, seg, s);
    } else if !r.isSet && !seg.header.syn {
      IgnoredUnset(r, seg);
    } else if v: nat :| Carries(seg, v, s.window.isn, s.stream.written, s.stream.ended) {
      CarriedBacked(r, seg, v, s);
    } else {
      var v: nat :| Surplus(seg, v, s);
      SurplusIsEarly(r, seg, v, s);
    }
  }

  lemma CarriedBacked(r: Receiver, seg: Segment, v: nat, s: Sender)
    requires r.Valid() && Vouched(r, s) && Short(s) && (r.isSet || seg.header.syn)
    requires Carries(seg, v, s.window.isn, s.stream.written, s.stream.ended)
    requires FitsWindow(r, seg, Place(seg, s.window.isn)) && FinNotEarly(r, seg, Place(seg, s.window.isn))
    ensures Vouched(r.SegmentReceived(seg), s) && Delivered(r.SegmentReceived(seg)) >= Delivered(r)
  {
    hide Agrees, Wrap, Receiver.Acknowledged, Receiver.Absorbed, Reassembler.Push;
    var isn, stream := s.window.isn, s.stream.written;
    PlaceIs(seg, v, isn);
    DeliveryLocated(r, seg, v, isn, stream, s.stream.ended);
    AckSafeStep(r, seg, v, isn, stream, s.stream.ended);
    PushedIsDelivered(r.Synchronized(seg), seg, v, isn, stream, s.stream.ended);
  }

  /** Such a FIN is never taken in carefully. */
  lemma SurplusIsEarly(r: Receiver, seg: Segment, v: nat, s: Sender)
    requires r.Valid() && Vouched(r, s) && Within(s) && Surplus(seg, v, s)
    ensures !FinNotEarly(r, seg, Place(seg, s.window.isn))
  {
    hide Wrap, Reassembler.Valid;
    PlaceIs(seg, v, s.window.isn);
    AssembledWithinSeen(r.reassembler, s.stream.written);
  }

  lemma BackedHears(r: Receiver, s: Sender, begun: bool, limit: nat, cap: nat)
    requires Vouched(r, s) && (r.isSet ==> begun) && 1 + Delivered(r) <= limit
    ensures Hearing(r, Peer(s, begun, limit, cap))
  {
    hide EofReached, Agrees;
  }

  lemma DeliveredIsBounded(r: Receiver, s: Sender)
    requires Vouched(r, s)
    ensures Delivered(r) <= |s.stream.written| + 1
  {
    hide Holds;
    AssembledWithinSeen(r.reassembler, s.stream.written);
  }

  /** What any call does to the receiver. */
  lemma CallBacked(x: Connection, y: Connection, begun: bool, call: Call)
    requires x.Valid() && Vouched(x.receiver, y.sender) && Within(y.sender) && (x.receiver.isSet ==> begun)
    requires call.Arrive? ==> Truthful(call.seg, y.sender, begun)
    requires CarefulCall(x, y, call)
    ensures var x' := Answer(x, call);
            && Vouched(x'.receiver, y.sender) && Delivered(x'.receiver) >= Delivered(x.receiver)
            && (call.Arrive? && !call.seg.header.rst && TakesIn(x, call.seg) ==>
                  x'.receiver == x.receiver.SegmentReceived(call.seg))
  {
    hide AckInv, Connection.SegmentReceived, Connection.Collected, Connection.Ticked, Truthful, Onward, FitsWindow,
         FinNotEarly, Place, TakesIn, Receiver.SegmentReceived;
    match call
    case Arrive(seg) =>
      if seg.header.rst {
        RstReceiver(x, seg);
        ErrorBacked(x.receiver, y.sender);
      } else {
        ArriveHears(x, seg);
        if TakesIn(x, seg) {
          TakeBacked(x.receiver, seg, y.sender, begun);
        }
      }
    case Tick(ms) =>
      TickReceiver(x, ms);
      ErrorBacked(x.receiver, y.sender);
    case ReadInbound(len) => AckInvReads(x.receiver, len, y.sender.window.isn, y.sender.stream.written);
    case Connect => CollectOnward(x);
    case Write(data) => CollectOnward(x.(sender := x.sender.(stream := x.sender.stream.Write(data))));
    case EndInput => CollectOnward(x.(sender := x.sender.(stream := x.sender.stream.(ended := true))));
  }

  lemma RstReceiver(x: Connection, seg: Segment)
    requires x.Valid() && seg.header.rst
    ensures x.SegmentReceived(seg).receiver == x.receiver.WithError()
  {
  }

  lemma TickReceiver(x: Connection, ms: nat)
    requires x.Valid()
    ensures x.Ticked(ms).receiver == x.receiver || x.Ticked(ms).receiver == x.receiver.WithError()
  {
    hide Connection.Collected, Connection.State, Collecting, Sender.Ticked, Onward;
    var d := x.(sinceLast := x.sinceLast + ms).Lingered();
    CollectOnward(d.(sender := d.sender.Ticked(ms)));
  }

  lemma ErrorBacked(r: Receiver, s: Sender)
    requires r.Valid() && Vouched(r, s)
    ensures Vouched(r.WithError(), s) && Delivered(r.WithError()) == Delivered(r)
  {
  }

  lemma BackedGrows(r: Receiver, s: Sender, t: Sender)
    requires Vouched(r, s) && Grows(s, t)
    ensures Vouched(r, t)
  {
    hide AckInv;
    EndedAlike(r, s);
    AckInvExtends(r, s.window.isn, s.stream.written, t.stream.written);
  }

  lemma EndedAlike(r: Receiver, s: Sender)
    requires Vouched(r, s)
    ensures r.ended ==> s.stream.ended
  {
  }

  // ---------------------------------------------------------------- both endpoints

  /** A careful call on one endpoint keeps everything that both acknowledge backed by what both have
      handed on. */
  lemma CallKeepsBacked(x: Connection, log: seq<Segment>, y: Connection, logY: seq<Segment>, call: Call)
      returns (log': seq<Segment>)
    requires x.Valid() && y.Valid()
    requires EndInv(x, log, BackedView(x, y, logY != [])) && EndInv(y, logY, BackedView(y, x, log != []))
    requires Vouched(x.receiver, y.sender) && Vouched(y.receiver, x.sender)
    requires (call.Arrive? ==> call.seg in y.out) && CarefulCall(x, y, call)
    requires Within(x.sender) && Within(y.sender) && Within(Answer(x, call).sender)
    requires NoRollover(x.sender, Answer(x, call).sender)
    ensures var x' := Answer(x, call);
            && EndInv(x', log', BackedView(x', y, logY != [])) && EndInv(y, logY, BackedView(y, x', log' != []))
            && Vouched(x'.receiver, y.sender) && Vouched(y.receiver, x'.sender)
  {
    hide EndInv, Answer, TakesIn, Hearing, Truthful, Known, Vouched, CarefulCall, Delivered;
    var x' := Answer(x, call);
    var peer := BackedView(x, y, logY != []).(limit := 1 + Delivered(x'.receiver));
    if call.Arrive? {
      SentIsProper(y, logY, BackedView(y, x, log != []), call.seg);
    }
    EndHears(x, log, BackedView(x, y, logY != []));
    CallBacked(x, y, logY != [], call);
    DeliveredIsBounded(x'.receiver, y.sender);
    DeliveredIsBounded(y.receiver, x.sender);
    PeerAdvances(x, log, BackedView(x, y, logY != []), peer);
    if call.Arrive? && !call.seg.header.rst && TakesIn(x, call.seg) {
      if call.seg.header.syn {
        SynBegins(call.seg, y.sender, logY != []);
      }
      BackedHears(x'.receiver, y.sender, logY != [], peer.limit, peer.cap);
    }
    log' := CallKeepsEnd(x, log, peer, call);
    BackedGrows(y.receiver, x.sender, x'.sender);
    PeerAdvances(y, logY, BackedView(y, x, log != []), BackedView(y, x', log' != []));
  }

  lemma SynBegins(seg: Segment, s: Sender, begun: bool)
    requires Truthful(seg, s, begun) && seg.header.syn
    ensures begun
  {
    hide Carries;
  }

  ghost predicate FullInv(p: Pair, logA: seq<Segment>, logB: seq<Segment>) {
    && p.Valid()
    && EndInv(p.a, logA, BackedView(p.a, p.b, logB != [])) && EndInv(p.b, logB, BackedView(p.b, p.a, logA != []))
    && Vouched(p.a.receiver, p.b.sender) && Vouched(p.b.receiver, p.a.sender)
  }

  lemma ActKeepsFullInv(p: Pair, act: Act, logA: seq<Segment>, logB: seq<Segment>)
      returns (logA': seq<Segment>, logB': seq<Segment>)
    requires FullInv(p, logA, logB) && Possible(p, act) && SmallHistory([p, Enact(p, act)]) && CarefulAct(p, act)
    ensures FullInv(Enact(p, act), logA', logB')
  {
    hide EndInv, Answer, Within, NoRollover, Vouched, CarefulCall, Delivered;
    var pairs := [p, Enact(p, act)];
    assert pairs[0] == p && pairs[1] == Enact(p, act) && pairs[0 + 1] == Enact(p, act);
    logA', logB' := logA, logB;
    match act
    case ByA(call) => logA' := CallKeepsBacked(p.a, logA, p.b, logB, call);
    case ByB(call) => logB' := CallKeepsBacked(p.b, logB, p.a, logA, call);
  }

  lemma FreshFullInv(p: Pair)
    requires IsFresh(p)
    ensures FullInv(p, [], [])
  {
    hide EndInv;
    NewEndInv(p.a, BackedView(p.a, p.b, false));
    NewEndInv(p.b, BackedView(p.b, p.a, false));
  }

  lemma {:induction false} HistoryKeepsFullInv(pairs: seq<Pair>, acts: seq<Act>, k: nat)
      returns (logA: seq<Segment>, logB: seq<Segment>)
    requires IsHistory(pairs, acts) && k <= |acts| && SmallHistory(pairs) && IsFresh(pairs[0])
    requires forall i | 0 <= i < |acts| :: CarefulAct(pairs[i], acts[i])
    ensures FullInv(pairs[k], logA, logB)
  {
    hide FullInv, Enact, Possible, Within, NoRollover, IsFresh, CarefulAct;
    if k == 0 {
      FreshFullInv(pairs[0]);
      logA, logB := [], [];
    } else {
      logA, logB := HistoryKeepsFullInv(pairs, acts, k - 1);
      assert pairs[k - 1 + 1] == Enact(pairs[k - 1], acts[k - 1]);
      logA, logB := ActKeepsFullInv(pairs[k - 1], acts[k - 1], logA, logB);
    }
  }

  /** The application at `y` has everything that the one at `x` wrote, and knows that it has. */
  predicate HasAll(y: Connection, x: Connection) {
    x.sender.stream.ended && y.receiver.Output().ended && y.receiver.Output().written == x.sender.stream.written
  }

  lemma EndedHasAll(x: Connection, y: Connection)
    requires Vouched(y.receiver, x.sender) && y.receiver.Output().ended
    ensures HasAll(y, x)
  {
    hide Reassembler.Valid;
    AssembledWithinSeen(y.receiver.reassembler, x.sender.stream.written);
  }

  lemma FinAckedHasAll(x: Connection, log: seq<Segment>, y: Connection, begun: bool)
    requires EndInv(x, log, BackedView(x, y, begun)) && Vouched(y.receiver, x.sender)
    requires SenderSummary(x.sender) == FinAcked
    ensures HasAll(y, x)
  {
    hide Hearing, Speaks, Lapsed, Wired, Clocked, Placed, At, Holds, Reassembler.Valid;
    FinAckedIsIdle(x.sender, x.rtTimeout);
    AssembledWithinSeen(y.receiver.reassembler, x.sender.stream.written);
    EndedHasAll(x, y);
  }

  /** In every state of every careful run of two endpoints: what one counts as acknowledged the other's
      application has; an endpoint whose FIN is acknowledged has delivered everything; and in TIME_WAIT
      and in CLOSED both applications have everything, and know that they have. */
  lemma ClosedMeansComplete(pairs: seq<Pair>, acts: seq<Act>, k: nat)
    requires IsHistory(pairs, acts) && k < |pairs| && IsFresh(pairs[0]) && SmallHistory(pairs)
    requires forall i | 0 <= i < |acts| :: CarefulAct(pairs[i], acts[i])
    ensures var p := pairs[k];
            && p.a.sender.window.first <= 1 + Delivered(p.b.receiver)
            && p.b.sender.window.first <= 1 + Delivered(p.a.receiver)
            && (SenderSummary(p.a.sender) == FinAcked ==> HasAll(p.b, p.a))
            && (SenderSummary(p.b.sender) == FinAcked ==> HasAll(p.a, p.b))
            && (p.a.In(TIME_WAIT) || p.a.In(CLOSED) || p.b.In(TIME_WAIT) || p.b.In(CLOSED) ==>
                  HasAll(p.a, p.b) && HasAll(p.b, p.a))
  {
    hide Within, NoRollover, ConnInv, Speaks, Lapsed, Wired, Hearing, Enact, Possible, IsFresh, CarefulAct,
         SenderSummary, HasAll, Vouched, Delivered;
    var logA, logB := HistoryKeepsFullInv(pairs, acts, k);
    var p := pairs[k];
    if SenderSummary(p.a.sender) == FinAcked {
      FinAckedHasAll(p.a, logA, p.b, logB != []);
    }
    if SenderSummary(p.b.sender) == FinAcked {
      FinAckedHasAll(p.b, logB, p.a, logA != []);
    }
    if p.a.receiver.Output().ended {
      EndedHasAll(p.b, p.a);
    }
    if p.b.receiver.Output().ended {
      EndedHasAll(p.a, p.b);
    }
  }
}
