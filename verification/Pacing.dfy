/** Flow control at one end makes every delivery fit at the other. */
module Pacing {
  import opened Words
  import opened WrappingIntegers
  import opened Segments
  import opened Reassembly
  import opened ReassemblyRuns
  import opened Receiving
  import opened Acknowledging
  import opened SendingWindows
  import opened Sending
  import opened SenderInvariants
  import opened Tiling
  import opened Transmission
  import opened SenderRuns
  import opened Protocol
  import opened Delivery
  import opened Alignment

  /** One past the last number the receiver can take. */
  function Edge(r: Receiver): nat { 1 + r.reassembler.Size() + if r.Output().ended then 1 else 0 }

  /** The acknowledgment does not promise more than the receiver can take. */
  ghost predicate Granted(a: Ack, n: Net) {
    exists c: nat :: Names(a, c, n) && c + a.win <= Edge(n.receiver)
  }

  /** The sender keeps within what the receiver can take. */
  ghost predicate Paced(n: Net, log: seq<Segment>) {
    && Sound(n, log)
    && InWindow(n.sender)
    && (n.sender.window.first > 0 ==> n.sender.window.first + n.sender.window.size <= Edge(n.receiver))
    && (forall a | a in n.acks :: Granted(a, n))
  }

  /** An acknowledgment that is delivered advertises an open window, and one that is accepted covers
      what has been sent; a FIN without data does not overtake the byte before it. */
  predicate Orderly(n: Net, m: Move) {
    && (m.DeliverAck? ==>
          && m.a.win > 0
          && (n.sender.window.Accepts(m.a.ackno) ==> CoversSent(n.sender.window, m.a.ackno, m.a.win)))
    && (m.Deliver? && m.i < |n.sender.out| ==>
          var seg := n.sender.out[m.i];
          n.receiver.isSet || seg.header.syn ==>
            FinNotEarly(n.receiver, seg, Place(seg, n.sender.window.isn)))
  }

  /** Whatever is on the wire fits, whenever it arrives. */
  lemma PacedFits(n: Net, log: seq<Segment>, i: nat)
    requires Paced(n, log) && Small(n) && i < |n.sender.out|
    ensures FitsWindow(n.receiver, n.sender.out[i], Place(n.sender.out[i], n.sender.window.isn))
  {
    hide Tiled, Logged, Wrap, Holds, Reassembler.Valid, Clocked;
    var seg, isn := n.sender.out[i], n.sender.window.isn;
    var v := OnTheWire(n, log, i);
    PlaceIs(seg, v, isn);
    if seg.payload != [] {
      var j :| 0 <= j < |log| && log[j] == seg && v == Span(log[..j]);
      LogWithinNext(n.sender, log, j);
      SizeCoversAssembled(n.receiver.reassembler);
    }
  }

  lemma LogWithinNext(s: Sender, log: seq<Segment>, j: nat)
    requires Logged(s, log) && j < |log|
    ensures Span(log[..j]) + log[j].Length() <= s.window.next
  {
    assert log[..j + 1] == log[..j] + [log[j]];
    SpanAppend(log[..j], log[j]);
    SpanSplit(log, j + 1);
  }

  lemma OrderlyIsCareful(n: Net, m: Move, log: seq<Segment>)
    requires Paced(n, log) && Small(n) && Orderly(n, m)
    ensures Careful(n, m)
  {
    hide Paced, FitsWindow, FinNotEarly, Place, Small;
    if m.Deliver? && m.i < |n.sender.out| {
      PacedFits(n, log, m.i);
    }
  }

  lemma SizeMoves(s: Sender, e: Event)
    requires Core(s) && Regular(s, e) && Tiled(s.window) && (e.AckEvent? ==> Readable(s.window, e.ackno))
    ensures React(s, e).window.size ==
            if e.AckEvent? && s.window.Accepts(e.ackno) then Max(e.win, 1) else s.window.size
  {
    hide Tiled, Readable, Window.AckPosition, Window.Search, Sender.FillWindow, Clocked, Numbered,
         Handshaking;
    match e
    case FillEvent => FillExtends(s);
    case AckEvent(ackno, win) =>
      AcknowledgedCore(s, ackno, win);
      var j := AckedTiles(s.window, ackno, Max(win, 1));
      FillExtends(s.Acknowledged(ackno, win));
    case _ =>
  }

  lemma ReactPaced(n: Net, e: Event, log: seq<Segment>)
    requires Paced(n, log) && Small(n) && Small(n.(sender := React(n.sender, e)))
    requires Sound(n.(sender := React(n.sender, e)), log + New(n.sender, e))
    requires e.AckEvent? ==> Admissible(n.sender, e.ackno)
    requires e.AckEvent? && n.sender.window.Accepts(e.ackno) ==>
               && CoversSent(n.sender.window, e.ackno, e.win)
               && n.sender.window.AckPosition(e.ackno) + Max(e.win, 1) <= Edge(n.receiver)
    ensures Paced(n.(sender := React(n.sender, e)), log + New(n.sender, e))
  {
    hide Core, Tiled, Logged, InSync, AckInv, React, New, Readable, Wrap, Admissible, CoversSent, InWindow,
         Window.AckPosition;
    var n' := n.(sender := React(n.sender, e));
    SmallIsReadable(n.sender);
    SourceGrows(n.sender, e);
    FirstMoves(n.sender, e);
    SizeMoves(n.sender, e);
    ReactInWindow(n.sender, e);
    forall a | a in n'.acks ensures Granted(a, n') {
      assert Granted(a, n);
      var c: nat :| Names(a, c, n) && c + a.win <= Edge(n.receiver);
      assert Names(a, c, n');
    }
  }

  lemma GrantedStays(n: Net, n': Net)
    requires n'.sender == n.sender && Edge(n'.receiver) >= Edge(n.receiver)
    ensures forall a :: Granted(a, n) ==> Granted(a, n')
  {
    forall a | Granted(a, n) ensures Granted(a, n') {
      var c: nat :| Names(a, c, n) && c + a.win <= Edge(n.receiver);
      assert Names(a, c, n');
    }
  }

  lemma EdgeGrows(n: Net, i: nat, log: seq<Segment>)
    requires Sound(n, log) && i < |n.sender.out|
    ensures Edge(n.receiver.SegmentReceived(n.sender.out[i])) >= Edge(n.receiver)
  {
    hide Unwrap, Overlay, Bump, Receiver.Acknowledged;
  }

  lemma ReplyGranted(n: Net, n': Net, log: seq<Segment>)
    requires Sound(n, log) && n.receiver.Ackno().Some?
    requires n'.sender == n.sender && n'.receiver == n.receiver
    ensures Granted(CurrentAck(n.receiver), n')
  {
    hide Core, Tiled, Logged, EofReached, Holds, Wrap;
    ReplyKnown(n, log);
    assert Names(CurrentAck(n.receiver), n.receiver.checkpoint, n');
    assert Low16(n.receiver.WindowSize()) <= n.receiver.WindowSize();
  }

  lemma MovePaced(n: Net, m: Move, log: seq<Segment>)
    requires Paced(n, log) && Enabled(n, m) && Small(n) && Small(Apply(n, m)) && Orderly(n, m)
    ensures Careful(n, m) && Paced(Apply(n, m), log + Fresh(n, m))
  {
    hide Core, Tiled, Logged, InSync, AckInv, React, New, Names, Receiver.SegmentReceived, Careful, CoversSent,
         Window.AckPosition, Edge;
    assert log + [] == log;
    var n' := Apply(n, m);
    OrderlyIsCareful(n, m, log);
    MoveSound(n, m, log);
    match m
    case Local(e) => ReactPaced(n, e, log);
    case DeliverAck(a) =>
      AcksAreAdmissible(n, log, a);
      assert Granted(a, n);
      ReactPaced(n, AckEvent(a.ackno, a.win), log);
    case Deliver(i) =>
      EdgeGrows(n, i, log);
      GrantedStays(n, n');
    case Read(len) =>
      ReadEdge(n.receiver, len);
      GrantedStays(n, n');
    case Reply =>
      ReplyGranted(n, n', log);
      GrantedStays(n, n');
  }

  lemma ReadEdge(r: Receiver, len: nat)
    requires r.Valid()
    ensures Edge(r.ReadOut(len)) >= Edge(r)
  {
  }

  lemma {:induction false} RunPaced(nets: seq<Net>, moves: seq<Move>, k: nat,
      sendCapacity: nat, rto: U16, isn: U32, recvCapacity: nat)
    requires IsRun(nets, moves) && k <= |moves|
    requires nets[0] == NewNet(sendCapacity, rto, isn, recvCapacity)
    requires forall i | 0 <= i < |nets| :: Small(nets[i])
    requires forall i | 0 <= i < |moves| :: Orderly(nets[i], moves[i])
    ensures Paced(nets[k], Log(nets, moves, k))
    ensures forall i | 0 <= i < k :: Careful(nets[i], moves[i])
  {
    hide Paced, Small, Fresh, Apply, Careful, Orderly;
    if k == 0 {
      NewNetPaced(sendCapacity, rto, isn, recvCapacity);
    } else {
      RunPaced(nets, moves, k - 1, sendCapacity, rto, isn, recvCapacity);
      assert nets[k - 1 + 1] == Apply(nets[k - 1], moves[k - 1]);
      MovePaced(nets[k - 1], moves[k - 1], Log(nets, moves, k - 1));
    }
  }

  lemma NewNetPaced(sendCapacity: nat, rto: U16, isn: U32, recvCapacity: nat)
    ensures Paced(NewNet(sendCapacity, rto, isn, recvCapacity), [])
  {
    hide Sound;
    NewNetSound(sendCapacity, rto, isn, recvCapacity);
  }

  /** In every orderly run - acknowledgments advertise an open window and do not take back what has
      been sent, and no bare FIN overtakes data - every delivery fits the receiver, the
      acknowledgment number is exact, and a sender whose FIN is acknowledged has delivered all. */
  lemma OrderlyRunDeliversAll(nets: seq<Net>, moves: seq<Move>, k: nat,
      sendCapacity: nat, rto: U16, isn: U32, recvCapacity: nat)
    requires IsRun(nets, moves) && k < |nets|
    requires nets[0] == NewNet(sendCapacity, rto, isn, recvCapacity)
    requires forall i | 0 <= i < |nets| :: Small(nets[i])
    requires forall i | 0 <= i < |moves| :: Orderly(nets[i], moves[i])
    ensures forall i | 0 <= i < |nets[k].sender.out| ::
              FitsWindow(nets[k].receiver, nets[k].sender.out[i],
                         Place(nets[k].sender.out[i], nets[k].sender.window.isn))
    ensures var n := nets[k];
            n.receiver.isSet && !(n.Source() == [] && n.receiver.Output().ended) ==>
              n.receiver.checkpoint == 1 + |n.Sink()| + if n.receiver.Output().ended then 1 else 0
    ensures nets[k].sender.State().FinAcked? ==>
              nets[k].Sink() == nets[k].Source() && nets[k].receiver.Output().ended
  {
    hide Paced, Small, Careful, Orderly, FitsWindow, Place;
    RunPaced(nets, moves, k, sendCapacity, rto, isn, recvCapacity);
    RunPaced(nets, moves, |moves|, sendCapacity, rto, isn, recvCapacity);
    AckNumberIsExact(nets, moves, k, sendCapacity, rto, isn, recvCapacity);
    AcknowledgedMeansDelivered(nets, moves, k, sendCapacity, rto, isn, recvCapacity);
    forall i | 0 <= i < |nets[k].sender.out|
      ensures FitsWindow(nets[k].receiver, nets[k].sender.out[i],
                         Place(nets[k].sender.out[i], nets[k].sender.window.isn))
    {
      PacedFits(nets[k], Log(nets, moves, k), i);
    }
  }
}
