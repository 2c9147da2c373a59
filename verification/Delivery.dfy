/** What acknowledgments and the end of the stream mean end to end, when no delivery overruns the
    receiver and no bare FIN overtakes data. */
module Delivery {
  import opened Words
  import opened WrappingIntegers
  import opened Segments
  import opened Reassembly
  import opened ReassemblyRuns
  import opened Receiving
  import opened Acknowledging
  import opened SendingWindows
  import opened Sending
  import opened SenderInvariants
  import opened Tiling
  import opened Transmission
  import opened Protocol

  /** The absolute number of a segment, as read off its header. */
  function Place(seg: Segment, isn: U32): nat { Low32(seg.header.seqno - isn) }

  lemma PlaceIs(seg: Segment, v: nat, isn: U32)
    requires v < TWO_31 && seg.header.seqno == Wrap(v, isn)
    ensures Place(seg, isn) == v
  {
  }

  /** A segment that the receiver takes in fits its window, and a FIN without data comes only after
      the byte before it has been seen. */
  predicate Careful(n: Net, m: Move) {
    m.Deliver? && m.i < |n.sender.out| ==>
      var seg := n.sender.out[m.i];
      var v := Place(seg, n.sender.window.isn);
      n.receiver.isSet || seg.header.syn ==>
        FitsWindow(n.receiver, seg, v) && FinNotEarly(n.receiver, seg, v)
  }

  ghost predicate Backed(a: Ack, n: Net) {
    exists c: nat :: Names(a, c, n) && c <= 1 + Delivered(n.receiver)
  }

  /** What is acknowledged has been handed on, on the wire and in the sender's mind. */
  ghost predicate Sound(n: Net, log: seq<Segment>) {
    && Inv(n, log)
    && AckInv(n.receiver, n.sender.window.isn, n.Source())
    && (n.receiver.ended ==> n.sender.stream.ended)
    && n.sender.window.first <= 1 + Delivered(n.receiver)
    && (forall a | a in n.acks :: Backed(a, n))
  }

  lemma AckInvExtends(r: Receiver, isn: U32, stream: seq<Byte>, more: seq<Byte>)
    requires AckInv(r, isn, stream) && stream <= more && (r.ended ==> stream == more)
    ensures AckInv(r, isn, more)
  {
    hide Holds, Reassembler.Valid;
    InSyncExtends(r, isn, stream, more);
    AgreesExtends(r.reassembler, stream, more);
  }

  lemma FirstMoves(s: Sender, e: Event)
    requires Core(s) && Regular(s, e) && Tiled(s.window) && (e.AckEvent? ==> Readable(s.window, e.ackno))
    ensures React(s, e).window.first ==
            if e.AckEvent? && s.window.Advances(e.ackno) then s.window.AckPosition(e.ackno) else s.window.first
  {
    hide Tiled, Readable, Window.Acked, Window.AckPosition, Sender.FillWindow, Clocked, Numbered,
         Handshaking;
    match e
    case FillEvent => FillExtends(s);
    case AckEvent(ackno, win) =>
      AcknowledgedCore(s, ackno, win);
      var j := AckedTiles(s.window, ackno, Max(win, 1));
      FillExtends(s.Acknowledged(ackno, win));
    case _ =>
  }

  lemma ReactSound(n: Net, e: Event, log: seq<Segment>)
    requires Sound(n, log) && Small(n)
    requires e.AckEvent? ==> Admissible(n.sender, e.ackno)
    requires e.AckEvent? ==> n.sender.window.AckPosition(e.ackno) <= 1 + Delivered(n.receiver)
    requires Small(n.(sender := React(n.sender, e)))
    ensures Sound(n.(sender := React(n.sender, e)), log + New(n.sender, e))
  {
    hide Core, Tiled, Logged, InSync, React, New, Readable, Wrap, Admissible, AckInv, Window.AckPosition;
    var n' := n.(sender := React(n.sender, e));
    ReactKeepsInv(n, e, log);
    SourceGrows(n.sender, e);
    SmallIsReadable(n.sender);
    FirstMoves(n.sender, e);
    AckInvExtends(n.receiver, n.sender.window.isn, n.Source(), n'.Source());
    forall a | a in n'.acks ensures Backed(a, n') {
      assert Backed(a, n);
      var c: nat :| Names(a, c, n) && c <= 1 + Delivered(n.receiver);
      assert Names(a, c, n');
    }
  }

  /** Handing a segment to the receiver keeps its acknowledgments safe and loses nothing. */
  lemma DeliverSound(n: Net, i: nat, log: seq<Segment>)
    requires Sound(n, log) && Small(n) && i < |n.sender.out| && Careful(n, Deliver(i))
    ensures var r := n.receiver.SegmentReceived(n.sender.out[i]);
            && AckInv(r, n.sender.window.isn, n.Source())
            && Delivered(r) >= Delivered(n.receiver)
            && (r.ended ==> n.sender.stream.ended)
  {
    hide Core, Tiled, Logged, Wrap, Agrees, Receiver.Acknowledged, Reassembler.Push, Receiver.Absorbed;
    var v := OnTheWire(n, log, i);
    var seg, isn := n.sender.out[i], n.sender.window.isn;
    PlaceIs(seg, v, isn);
    DeliveryLocated(n.receiver, seg, v, isn, n.Source(), n.sender.stream.ended);
    if n.receiver.isSet || seg.header.syn {
      AckSafeStep(n.receiver, seg, v, isn, n.Source(), n.sender.stream.ended);
      PushedIsDelivered(n.receiver.Synchronized(seg), seg, v, isn, n.Source(), n.sender.stream.ended);
    }
  }

  lemma BackedStays(n: Net, n': Net)
    requires n'.sender == n.sender && Delivered(n'.receiver) >= Delivered(n.receiver)
    ensures forall a :: Backed(a, n) ==> Backed(a, n')
  {
    forall a | Backed(a, n) ensures Backed(a, n') {
      var c: nat :| Names(a, c, n) && c <= 1 + Delivered(n.receiver);
      assert Names(a, c, n');
    }
  }

  lemma MoveSound(n: Net, m: Move, log: seq<Segment>)
    requires Sound(n, log) && Enabled(n, m) && Small(n) && Small(Apply(n, m)) && Careful(n, m)
    ensures Sound(Apply(n, m), log + Fresh(n, m))
  {
    hide Core, Tiled, Logged, InSync, React, New, Names, Receiver.SegmentReceived, AckInv, Careful,
         Window.AckPosition;
    assert log + [] == log;
    var n' := Apply(n, m);
    MoveKeepsInv(n, m, log);
    match m
    case Local(e) => ReactSound(n, e, log);
    case DeliverAck(a) =>
      AcksAreAdmissible(n, log, a);
      assert Backed(a, n);
      ReactSound(n, AckEvent(a.ackno, a.win), log);
    case Deliver(i) =>
      DeliverSound(n, i, log);
      BackedStays(n, n');
    case Read(len) =>
      AckInvReads(n.receiver, len, n.sender.window.isn, n.Source());
      BackedStays(n, n');
    case Reply =>
      ReplyKnown(n, log);
      ReplyBacked(n, n', log);
      BackedStays(n, n');
  }

  lemma ReplyBacked(n: Net, n': Net, log: seq<Segment>)
    requires Sound(n, log) && n.receiver.Ackno().Some?
    requires n'.sender == n.sender && n'.receiver == n.receiver
    ensures Backed(CurrentAck(n.receiver), n')
  {
    hide Core, Tiled, Logged, InSync, EofReached;
    ReplyKnown(n, log);
    assert Names(CurrentAck(n.receiver), n.receiver.checkpoint, n');
  }

  lemma {:induction false} RunSound(nets: seq<Net>, moves: seq<Move>, k: nat,
      sendCapacity: nat, rto: U16, isn: U32, recvCapacity: nat)
    requires IsRun(nets, moves) && k <= |moves|
    requires nets[0] == NewNet(sendCapacity, rto, isn, recvCapacity)
    requires forall i | 0 <= i < |nets| :: Small(nets[i])
    requires forall i | 0 <= i < |moves| :: Careful(nets[i], moves[i])
    ensures Sound(nets[k], Log(nets, moves, k))
  {
    hide Sound, Small, Fresh, Apply, Careful;
    if k == 0 {
      NewNetSound(sendCapacity, rto, isn, recvCapacity);
    } else {
      RunSound(nets, moves, k - 1, sendCapacity, rto, isn, recvCapacity);
      assert nets[k - 1 + 1] == Apply(nets[k - 1], moves[k - 1]);
      MoveSound(nets[k - 1], moves[k - 1], Log(nets, moves, k - 1));
    }
  }

  lemma NewNetSound(sendCapacity: nat, rto: U16, isn: U32, recvCapacity: nat)
    ensures Sound(NewNet(sendCapacity, rto, isn, recvCapacity), [])
  {
    hide Core, Tiled, Logged;
    NewNetInv(sendCapacity, rto, isn, recvCapacity);
  }

  /** In every state of every careful run: what the sender counts as acknowledged has been handed to
      the receiving application; the receiving application sees the end only after the whole of
      what was written; and when the sender believes that its FIN is acknowledged, the receiving
      application has everything and knows that it has. */
  lemma AcknowledgedMeansDelivered(nets: seq<Net>, moves: seq<Move>, k: nat,
      sendCapacity: nat, rto: U16, isn: U32, recvCapacity: nat)
    requires IsRun(nets, moves) && k < |nets|
    requires nets[0] == NewNet(sendCapacity, rto, isn, recvCapacity)
    requires forall i | 0 <= i < |nets| :: Small(nets[i])
    requires forall i | 0 <= i < |moves| :: Careful(nets[i], moves[i])
    ensures var n := nets[k];
            && n.sender.window.first <= 1 + Delivered(n.receiver)
            && (n.receiver.Output().ended ==> n.Sink() == n.Source() && n.sender.stream.ended)
            && (n.sender.State().FinAcked? ==> n.receiver.Output().ended)
  {
    hide Small, Careful, Tiled, Logged, Clocked, Holds, Reassembler.Valid, Wrap;
    RunSound(nets, moves, k, sendCapacity, rto, isn, recvCapacity);
    var n := nets[k];
    AssembledWithinSeen(n.receiver.reassembler, n.Source());
    WrittenIsPrefix(n.receiver.reassembler, n.Source());
    if n.sender.State().FinAcked? {
      assert Numbered(n.sender);
    }
  }
}
