/** The endpoint object (libsponge/tcp_connection.cc), proved to do what `Connections` says. */
module Endpoints {
  import opened Words
  import opened WrappingIntegers
  import opened Segments
  import opened Receiving
  import opened Sending
  import opened Connections
  import opened Lifecycle
  import opened Outflow

  function SummaryOfSender(s: TCPSender): (st: SenderState)
    requires s.Valid()
    reads s, s.stream, s.stream.channel, s.window
    ensures st == SenderSummary(s.Model())
  {
    if s.stream.errorFlag then SendError
    else if s.window.next == 0 then Closed
    else if s.window.next == s.window.BytesInFlight() then SynSent
    else if !s.stream.Eof() then SynAcked
    else if s.window.next < s.stream.bytesWritten + 2 then SynAcked
    else if s.window.BytesInFlight() > 0 then FinSent
    else FinAcked
  }

  function SummaryOfReceiver(r: TCPReceiver): (st: ReceiverState)
    requires r.Valid()
    reads r, r.reassembler, r.reassembler.output, r.reassembler.output.channel
    ensures st == ReceiverSummary(r.Model())
  {
    if r.reassembler.output.errorFlag then RecvError
    else if r.Ackno().None? then Listen
    else if r.reassembler.output.endFlag then FinRecv
    else SynRecv
  }

  class TCPConnection {
    const rtTimeout: U16
    const receiver: TCPReceiver
    const sender: TCPSender
    var segmentsOut: seq<Segment>
    var lingerAfterStreamsFinish: bool
    var activeFlag: bool
    var timeSinceLastSegmentReceived: nat

    ghost function Repr(): set<object> { {this} + receiver.Repr() + sender.Repr() }

    ghost predicate Valid()
      reads this, receiver, receiver.reassembler, receiver.reassembler.output, receiver.reassembler.output.channel
      reads sender, sender.stream, sender.stream.channel, sender.window
    {
      && receiver.Valid() && sender.Valid()
      && receiver.reassembler.output != sender.stream
      && receiver.reassembler.output.channel != sender.stream.channel
    }

    ghost function Model(): (c: Connection)
      requires Valid()
      reads this, receiver, receiver.reassembler, receiver.reassembler.output, receiver.reassembler.output.channel
      reads sender, sender.stream, sender.stream.channel, sender.window
      ensures c.Valid() && c.receiver.isSet == receiver.isSet && c.sender == sender.Model()
      ensures c.out == segmentsOut && c.linger == lingerAfterStreamsFinish && c.active == activeFlag
      ensures c.sinceLast == timeSinceLastSegmentReceived
    {
      Connection(rtTimeout, receiver.Model(), sender.Model(), segmentsOut,
                 lingerAfterStreamsFinish, activeFlag, timeSinceLastSegmentReceived)
    }

    constructor (rtTimeout: U16, recvCapacity: nat, sendCapacity: nat, isn: U32)
      ensures Valid() && fresh(Repr())
      ensures Model() == NewConnection(rtTimeout, recvCapacity, sendCapacity, isn)
    {
      hide TCPReceiver.Valid, TCPReceiver.Model, TCPSender.Valid, TCPSender.Model, NewReceiver, NewSender;
      this.rtTimeout := rtTimeout;
      receiver := new TCPReceiver(recvCapacity);
      sender := new TCPSender(sendCapacity, rtTimeout, isn);
      segmentsOut := [];
      lingerAfterStreamsFinish, activeFlag, timeSinceLastSegmentReceived := true, true, 0;
    }

    /** Only the endpoint's own fields have been assigned to. */
    twostate lemma OwnFieldsMoved()
      requires old(Valid())
      requires unchanged(receiver, receiver.reassembler, receiver.reassembler.output,
                         receiver.reassembler.output.channel)
      requires unchanged(sender, sender.stream, sender.stream.channel, sender.window)
      ensures Valid()
      ensures Model() == old(Model()).(out := segmentsOut, linger := lingerAfterStreamsFinish, active := activeFlag,
                                       sinceLast := timeSinceLastSegmentReceived)
    {
      hide TCPReceiver.Valid, TCPReceiver.Model, TCPSender.Valid, TCPSender.Model;
    }

    /** Only the sender has changed. */
    twostate lemma SenderMoved()
      requires old(Valid()) && sender.Valid()
      requires unchanged(this, receiver, receiver.reassembler, receiver.reassembler.output,
                         receiver.reassembler.output.channel)
      ensures Valid()
      ensures Model() == old(Model()).(sender := sender.Model())
    {
      hide TCPReceiver.Valid, TCPReceiver.Model, TCPSender.Valid, TCPSender.Model;
    }

    /** The summary of the endpoint, computed from the objects. */
    function State(): (st: TcpState)
      requires Valid()
      reads this, receiver, receiver.reassembler, receiver.reassembler.output, receiver.reassembler.output.channel
      reads sender, sender.stream, sender.stream.channel, sender.window
      ensures st == Model().State()
    {
      TcpState(SummaryOfSender(sender), SummaryOfReceiver(receiver),
               activeFlag, if activeFlag then lingerAfterStreamsFinish else false)
    }

    function AddAckInfo(seg: Segment): (r: Segment)
      requires Valid() && receiver.isSet
      reads this, receiver, receiver.reassembler, receiver.reassembler.output, receiver.reassembler.output.channel
      reads sender, sender.stream, sender.stream.channel, sender.window
      ensures r == Stamped(seg, receiver.Model())
    {
      seg.(header := seg.header.(ack := true, ackno := receiver.Ackno().value, win := Low16(receiver.WindowSize())))
    }

    method CollectSenderSegmentsOut()
      requires Valid()
      modifies this`segmentsOut, sender.Repr()
      ensures Valid()
      ensures Model() == old(Model().Collected())
    {
      hide TCPReceiver.Valid, TCPReceiver.Model, TCPSender.Valid, TCPSender.Model, Sender.FillWindow, StampedAll;
      sender.FillWindow();
      DrainQueue();
    }

    /** The loop of `_collect_sender_segments_out`. */
    method DrainQueue()
      requires Valid()
      modifies this`segmentsOut, sender`segmentsOut
      ensures Valid()
      ensures sender.Model() == old(sender.Model()).(out := [])
      ensures segmentsOut == old(segmentsOut) + StampedAll(old(sender.Model()).out, receiver.Model())
    {
      hide TCPConnection.Model, TCPReceiver.Valid, TCPReceiver.Model, TCPSender.Valid, TCPSender.Model, StampedIfSet;
      ghost var all := segmentsOut + StampedAll(sender.segmentsOut, receiver.Model());
      ghost var s := sender.Model();
      while sender.segmentsOut != []
        invariant Valid()
        invariant sender.Model() == s.(out := sender.segmentsOut)
        invariant segmentsOut + StampedAll(sender.segmentsOut, receiver.Model()) == all
        decreases |sender.segmentsOut|
      {
        PassOn();
      }
    }

    /** The body of that loop. */
    method PassOn()
      requires Valid() && sender.segmentsOut != []
      modifies this`segmentsOut, sender`segmentsOut
      ensures Valid()
      ensures sender.Model() == old(sender.Model()).(out := sender.segmentsOut)
      ensures sender.segmentsOut == old(sender.segmentsOut)[1..]
      ensures segmentsOut == old(segmentsOut) + [StampedIfSet(old(sender.segmentsOut)[0], receiver.Model())]
    {
      hide TCPConnection.Model, TCPReceiver.Valid, TCPReceiver.Model, TCPSender.Valid, TCPSender.Model, Stamped;
      var segment := sender.TakeFirst();
      if receiver.Ackno().Some? {
        segment := AddAckInfo(segment);
      }
      segmentsOut := segmentsOut + [segment];
    }

    method PushAck()
      requires Valid() && receiver.isSet
      modifies this`segmentsOut
      ensures Valid()
      ensures Model() == old(Model().Replied())
    {
      segmentsOut := segmentsOut + [AddAckInfo(Segment(BLANK, []))];
    }

    method ResetReceived()
      requires Valid()
      modifies Repr()
      ensures Valid()
      ensures Model() == old(Model().Aborted())
    {
      hide TCPReceiver.Valid, TCPReceiver.Model, TCPSender.Valid, TCPSender.Model;
      sender.SetError();
      receiver.SetError();
      activeFlag := false;
      lingerAfterStreamsFinish := false;
    }

    method UncleanShutdown()
      requires Valid()
      modifies Repr()
      ensures Valid()
      ensures Model() == old(Model().UncleanShutdown())
    {
      ResetReceived();
      segmentsOut := segmentsOut + [Segment(BLANK.(rst := true), [])];
    }

    /** The receiver's vectors are addressable. */
    ghost predicate Addressable()
      reads receiver, receiver.reassembler, receiver.reassembler.output
    {
      receiver.reassembler.output.bytesRead + receiver.reassembler.capacity < TWO_64 - 1
    }

    method Take(seg: Segment)
      requires Valid() && Addressable()
      modifies receiver.Repr()
      ensures Valid()
      ensures Model() == old(Model().Taken(seg))
    {
      hide TCPReceiver.Valid, TCPReceiver.Model, TCPSender.Valid, TCPSender.Model, Receiver.SegmentReceived;
      receiver.SegmentReceived(seg);
    }

    method TakeAck(seg: Segment)
      requires Valid()
      modifies sender.Repr()
      ensures Valid()
      ensures Model() == old(Model().AckTaken(seg))
    {
      hide TCPReceiver.Valid, TCPReceiver.Model, TCPSender.Valid, TCPSender.Model, Sender.AckReceived;
      sender.AckReceived(seg.header.ackno, seg.header.win);
    }

    method Connect()
      requires Valid()
      modifies this`segmentsOut, sender.Repr()
      ensures Valid()
      ensures Model() == old(Model().Collected())
      ensures Onward(old(Model()), Model()) && Model().receiver == old(Model()).receiver
    {
      hide TCPConnection.Valid, TCPConnection.Model, TCPReceiver.Valid, TCPReceiver.Model, TCPSender.Valid,
           TCPSender.Model, Patient, Connection.Collected;
      CollectOnward(Model());
      CollectSenderSegmentsOut();
    }

    method OnListen(seg: Segment)
      requires Valid() && Addressable()
      modifies Repr()
      ensures Valid()
      ensures Model() == old(Model().OnListen(seg))
    {
      hide TCPConnection.Valid, TCPConnection.Model, TCPReceiver.Valid, TCPReceiver.Model, TCPSender.Valid,
           TCPSender.Model, Connection.Taken, Connection.Collected;
      if seg.header.syn {
        Take(seg);
        Connect();
        label Connected:
        activeFlag := true;
        OwnFieldsMoved@Connected();
      }
    }

    method OnSynSent(seg: Segment)
      requires Valid() && Addressable()
      modifies Repr()
      ensures Valid()
      ensures Model() == old(Model().OnSynSent(seg))
    {
      hide TCPConnection.Valid, TCPConnection.Model, TCPReceiver.Valid, TCPReceiver.Model, TCPSender.Valid,
           TCPSender.Model, Connection.Taken, Connection.AckTaken, Connection.Replied;
      if seg.header.syn && seg.header.ack {
        Take(seg);
        TakeAck(seg);
        PushAck();
      } else if seg.header.syn {
        Take(seg);
        PushAck();
      }
    }

    /** ESTABLISHED and FIN_WAIT_1. */
    method OnOpen(seg: Segment)
      requires Valid() && Addressable() && receiver.isSet
      modifies Repr()
      ensures Valid()
      ensures Model() == old(Model().OnOpen(seg))
    {
      hide TCPConnection.Valid, TCPConnection.Model, TCPReceiver.Valid, TCPReceiver.Model, TCPSender.Valid,
           TCPSender.Model, Connection.Taken, Connection.AckTaken, Connection.Collected, Connection.State;
      if seg.header.fin && State() != Named(FIN_WAIT_1) {
        lingerAfterStreamsFinish := false;
      }
      OwnFieldsMoved();
      if seg.Length() != 0 || !seg.header.ack {
        Take(seg);
        QueueAck();
        CollectSenderSegmentsOut();
      }
      if seg.header.ack {
        TakeAck(seg);
        CollectSenderSegmentsOut();
      }
    }

    /** An acknowledgment goes through the sender's queue. */
    method QueueAck()
      requires Valid() && receiver.isSet
      modifies sender`segmentsOut
      ensures Valid()
      ensures Model() == old(Model()).(sender := old(Model().sender.Queued(Model().PureAck())))
    {
      hide TCPReceiver.Valid, TCPReceiver.Model, Stamped;
      sender.segmentsOut := sender.segmentsOut + [AddAckInfo(Segment(BLANK, []))];
    }

    method OnLastAck(seg: Segment)
      requires Valid()
      modifies Repr()
      ensures Valid()
      ensures Model() == old(Model().OnLastAck(seg))
    {
      hide TCPReceiver.Valid, TCPReceiver.Model, TCPSender.Valid, TCPSender.Model, Connection.AckTaken,
           Sender.State;
      if seg.header.ack {
        TakeAck(seg);
        label Taken:
        if sender.State() == FinAcked {
          lingerAfterStreamsFinish := false;
          activeFlag := false;
        }
        OwnFieldsMoved@Taken();
      }
    }

    method SegmentReceived(seg: Segment)
      requires Valid() && Addressable()
      modifies Repr()
      ensures Valid()
      ensures Model() == old(Model().SegmentReceived(seg))
      ensures Onward(old(Model()), Model()) && InboundGrows(old(Model()), Model())
      ensures seg.header.rst ==> State() == Named(RESET)
    {
      ghost var was := Model();
      ArriveOnward(was, seg);
      ArriveInbound(was, seg);
      if seg.header.rst {
        RstResets(was, seg);
      }
      hide Onward, InboundGrows, TCPConnection.State, Connection.State, TCPConnection.Valid, TCPConnection.Model,
           TCPReceiver.Valid, TCPReceiver.Model, TCPSender.Valid, TCPSender.Model, Connection.Dispatched,
           Connection.Aborted, Connection.KeptAlive;
      timeSinceLastSegmentReceived := 0;
      OwnFieldsMoved();
      if seg.header.rst {
        ResetReceived();
        return;
      }
      Dispatch(seg);
      KeepAlive(seg);
    }

    method Dispatch(seg: Segment)
      requires Valid() && Addressable()
      modifies Repr()
      ensures Valid()
      ensures Model() == old(Model().Dispatched(seg))
    {
      hide TCPConnection.Valid, TCPConnection.Model, TCPReceiver.Valid, TCPReceiver.Model, TCPSender.Valid,
           TCPSender.Model, Connection.Taken, Connection.AckTaken, Connection.OnListen, Connection.OnSynSent,
           Connection.OnOpen, Connection.OnClosing, Connection.State, Named;
      var state := State();
      SynchronizedStates(Model());
      if state == Named(LISTEN) {
        OnListen(seg);
      } else if state == Named(SYN_SENT) {
        OnSynSent(seg);
      } else if state == Named(SYN_RCVD) {
        if seg.header.ack {
          Take(seg);
          TakeAck(seg);
        }
      } else if state == Named(ESTABLISHED) || state == Named(FIN_WAIT_1) {
        OnOpen(seg);
      } else {
        OnClosing(seg);
      }
    }

    method OnClosing(seg: Segment)
      requires Valid() && Addressable()
      modifies Repr()
      ensures Valid()
      ensures Model() == old(Model().OnClosing(seg))
    {
      hide TCPConnection.Valid, TCPConnection.Model, TCPReceiver.Valid, TCPReceiver.Model, TCPSender.Valid,
           TCPSender.Model, Connection.Taken, Connection.AckTaken, Connection.Collected, Connection.Replied,
           Connection.OnLastAck, Connection.State, Named;
      var state := State();
      SynchronizedStates(Model());
      if state == Named(FIN_WAIT_2) {
        if seg.header.fin && seg.header.ack {
          Take(seg);
          TakeAck(seg);
          PushAck();
        }
      } else if state == Named(LAST_ACK) {
        OnLastAck(seg);
      } else if state == Named(CLOSING) {
        if seg.header.ack {
          Take(seg);
          TakeAck(seg);
          CollectSenderSegmentsOut();
        }
      } else if state == Named(CLOSE_WAIT) {
        if seg.header.fin {
          TakeAck(seg);
          PushAck();
        }
      } else if state == Named(TIME_WAIT) {
        if seg.header.fin && seg.header.ack {
          TakeAck(seg);
          PushAck();
        }
      }
    }

    /** The answer to a keep-alive probe, at the end of `segment_received`. */
    method KeepAlive(seg: Segment)
      requires Valid()
      modifies this`segmentsOut, sender.Repr()
      ensures Valid()
      ensures Model() == old(Model().KeptAlive(seg))
    {
      hide TCPReceiver.Valid, TCPReceiver.Model, TCPSender.Valid, TCPSender.Model, Connection.Collected, Wrap,
           Low16;
      if receiver.Ackno().Some? && seg.Length() == 0 &&
         seg.header.seqno == Low32(receiver.Ackno().value as int - 1)
      {
        sender.SendEmptySegment();
        CollectSenderSegmentsOut();
      }
    }

    method Tick(ms: nat)
      requires Valid()
      modifies Repr()
      ensures Valid()
      ensures Model() == old(Model().Ticked(ms))
      ensures Onward(old(Model()), Model()) && InboundGrows(old(Model()), Model())
      ensures sender.retransmissions > MAX_RETX_ATTEMPTS ==> State() == Named(RESET)
      ensures Tended(old(Model()), ms, Model())
    {
      hide Onward, InboundGrows, Tended, Named, TCPConnection.Valid, TCPConnection.Model, TCPReceiver.Valid,
           TCPReceiver.Model, TCPSender.Valid, TCPSender.Model, TCPConnection.State, Connection.State,
           Connection.Lingered, Connection.Concluded, Sender.Ticked, Collecting;
      ghost var was := Model();
      TickOnward(was, ms);
      TickInbound(was, ms);
      TickTends(was, ms);
      var state := Linger(ms);
      TickSender(ms);
      Conclude(Collecting(state));
      assert Model() == was.Ticked(ms);
    }

    method TickSender(ms: nat)
      requires Valid()
      modifies sender, sender.window
      ensures Valid()
      ensures Model() == old(Model()).(sender := old(Model()).sender.Ticked(ms))
    {
      hide TCPConnection.Model, TCPReceiver.Valid, TCPReceiver.Model, TCPSender.Model, Sender.Ticked;
      sender.Tick(ms);
      SenderMoved();
    }

    method Conclude(collecting: bool)
      requires Valid()
      modifies Repr()
      ensures Valid()
      ensures Model() == old(Model().Concluded(collecting))
    {
      hide TCPReceiver.Valid, TCPReceiver.Model, TCPSender.Valid, TCPSender.Model, Connection.Collected,
           Connection.UncleanShutdown;
      if sender.retransmissions > MAX_RETX_ATTEMPTS {
        UncleanShutdown();
        return;
      }
      if collecting {
        CollectSenderSegmentsOut();
      }
    }

    /** Time passes, and TIME_WAIT may end; `state` is the one before that. */
    method Linger(ms: nat) returns (state: TcpState)
      requires Valid()
      modifies this`lingerAfterStreamsFinish, this`activeFlag, this`timeSinceLastSegmentReceived
      ensures Valid()
      ensures var before := old(Model()).(sinceLast := old(Model().sinceLast) + ms);
              state == before.State() && Model() == before.Lingered()
    {
      hide TCPReceiver.Valid, TCPReceiver.Model, TCPSender.Valid, TCPSender.Model, TCPConnection.State,
           Connection.State, Named;
      timeSinceLastSegmentReceived := timeSinceLastSegmentReceived + ms;
      OwnFieldsMoved();
      state := State();
      if state == Named(TIME_WAIT) && lingerAfterStreamsFinish && timeSinceLastSegmentReceived >= 10 * rtTimeout {
        lingerAfterStreamsFinish := false;
        activeFlag := false;
      }
      OwnFieldsMoved();
    }

    method Write(data: seq<Byte>) returns (count: nat)
      requires Valid()
      modifies this`segmentsOut, sender.Repr()
      ensures Valid()
      ensures count == old(Model().sender.stream.Accepts(data))
      ensures Model() == old(Model().Written(data))
      ensures Onward(old(Model()), Model()) && Model().receiver == old(Model()).receiver
    {
      hide Onward, TCPReceiver.Valid, TCPReceiver.Model, Connection.Collected;
      ghost var was := Model();
      AnswerOnward(was, Connections.Write(data));
      CollectOnward(was.(sender := was.sender.(stream := was.sender.stream.Write(data))));
      count := sender.stream.Write(data);
      CollectSenderSegmentsOut();
    }

    method EndInputStream()
      requires Valid()
      modifies this`segmentsOut, sender.Repr()
      ensures Valid()
      ensures Model() == old(Model().InputEnded())
      ensures Onward(old(Model()), Model()) && Model().receiver == old(Model()).receiver
    {
      hide Onward, TCPReceiver.Valid, TCPReceiver.Model, Connection.Collected;
      ghost var was := Model();
      AnswerOnward(was, EndInput);
      CollectOnward(was.(sender := was.sender.(stream := was.sender.stream.(ended := true))));
      sender.stream.EndInput();
      CollectSenderSegmentsOut();
    }
  }
}
