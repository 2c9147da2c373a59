/** A whole endpoint and the state it is in (libsponge/tcp_connection.cc,
    libsponge/tcp_helpers/tcp_state.cc). */
module Connections {
  import opened Words
  import opened WrappingIntegers
  import opened Segments
  import opened Receiving
  import opened Sending

  const MAX_RETX_ATTEMPTS: nat := 8

  /** The official state names of section 3.2 of RFC 793. */
  datatype Official =
    | LISTEN | SYN_RCVD | SYN_SENT | ESTABLISHED | CLOSE_WAIT | LAST_ACK
    | FIN_WAIT_1 | FIN_WAIT_2 | CLOSING | TIME_WAIT | CLOSED | RESET

  /** The summary of an endpoint that official states are compared with. */
  datatype TcpState = TcpState(sender: SenderState, receiver: ReceiverState, active: bool, linger: bool)

  function Named(o: Official): TcpState {
    match o
    case LISTEN => TcpState(Closed, Listen, true, true)
    case SYN_RCVD => TcpState(SynSent, SynRecv, true, true)
    case SYN_SENT => TcpState(SynSent, Listen, true, true)
    case ESTABLISHED => TcpState(SynAcked, SynRecv, true, true)
    case CLOSE_WAIT => TcpState(SynAcked, FinRecv, true, false)
    case LAST_ACK => TcpState(FinSent, FinRecv, true, false)
    case CLOSING => TcpState(FinSent, FinRecv, true, true)
    case FIN_WAIT_1 => TcpState(FinSent, SynRecv, true, true)
    case FIN_WAIT_2 => TcpState(FinAcked, SynRecv, true, true)
    case TIME_WAIT => TcpState(FinAcked, FinRecv, true, true)
    case RESET => TcpState(SendError, RecvError, false, false)
    case CLOSED => TcpState(FinAcked, FinRecv, false, false)
  }

  /** The states in which a tick also sends what there is to send. */
  predicate Collecting(st: TcpState) {
    || st == Named(ESTABLISHED) || st == Named(SYN_SENT) || st == Named(SYN_RCVD) || st == Named(FIN_WAIT_1)
    || st == Named(CLOSE_WAIT) || st == Named(LAST_ACK) || st == Named(CLOSING)
  }

  /** The sender as the state summary sees it, in its own words rather than the sender's. */
  function SenderSummary(s: Sender): SenderState {
    if s.stream.error then SendError
    else if s.window.next == 0 then Closed
    else if s.window.next == s.window.InFlight() then SynSent
    else if !s.stream.Eof() then SynAcked
    else if s.window.next < |s.stream.written| + 2 then SynAcked
    else if s.window.InFlight() > 0 then FinSent
    else FinAcked
  }

  function ReceiverSummary(r: Receiver): ReceiverState {
    if r.Output().error then RecvError
    else if r.Ackno().None? then Listen
    else if r.Output().ended then FinRecv
    else SynRecv
  }

  /** The acknowledgment fields that the receiver supplies to an outgoing segment. */
  function Stamped(seg: Segment, r: Receiver): Segment
    requires r.Valid() && r.isSet
  {
    seg.(header := seg.header.(ack := true, ackno := r.Ackno().value, win := Low16(r.WindowSize())))
  }

  function StampedIfSet(seg: Segment, r: Receiver): Segment
    requires r.Valid()
  {
    if r.isSet then Stamped(seg, r) else seg
  }

  function StampedAll(segs: seq<Segment>, r: Receiver): seq<Segment>
    requires r.Valid()
  {
    if segs == [] then [] else [StampedIfSet(segs[0], r)] + StampedAll(segs[1..], r)
  }

  /** Collecting neither drops, repeats nor reorders; a segment keeps all but its acknowledgment fields,
      which are the receiver's once there is a SYN. */
  lemma {:induction false} StampingLosesNothing(segs: seq<Segment>, r: Receiver, i: nat)
    requires r.Valid() && i < |segs|
    ensures |StampedAll(segs, r)| == |segs|
    ensures var h, t := segs[i].header, StampedAll(segs, r)[i];
            && t.payload == segs[i].payload
            && t.header == if !r.isSet then h
                           else h.(ack := true, ackno := Wrap(r.checkpoint, r.isn), win := Low16(r.WindowSize()))
  {
    if |segs| > 1 {
      StampingLosesNothing(segs[1..], r, if i > 0 then i - 1 else 0);
    }
  }

  datatype Connection = Connection(
    rtTimeout: U16, receiver: Receiver, sender: Sender, out: seq<Segment>,
    linger: bool, active: bool, sinceLast: nat)
  {
    ghost predicate Valid() { receiver.Valid() && sender.Valid() }

    function State(): TcpState {
      TcpState(SenderSummary(sender), ReceiverSummary(receiver), active, if active then linger else false)
    }

    predicate In(o: Official) { State() == Named(o) }

    /** `_collect_sender_segments_out`: fill the window and move the sender's queue to ours. */
    function Collected(): (c: Connection)
      requires Valid()
      ensures c.Valid()
    {
      var s := sender.FillWindow();
      this.(sender := s.(out := []), out := out + StampedAll(s.out, receiver))
    }

    /** An empty segment that acknowledges. */
    function PureAck(): Segment
      requires Valid() && receiver.isSet
    {
      Stamped(Segment(BLANK, []), receiver)
    }

    function Replied(): (c: Connection)
      requires Valid() && receiver.isSet
      ensures c.Valid()
    {
      this.(out := out + [PureAck()])
    }

    function Taken(seg: Segment): (c: Connection)
      requires Valid()
      ensures c.Valid()
      ensures c.receiver.isSet <==> receiver.isSet || seg.header.syn
    {
      this.(receiver := receiver.SegmentReceived(seg))
    }

    function AckTaken(seg: Segment): (c: Connection)
      requires Valid()
      ensures c.Valid()
    {
      this.(sender := sender.AckReceived(seg.header.ackno, seg.header.win))
    }

    function Aborted(): (c: Connection)
      requires Valid()
      ensures c.Valid()
    {
      this.(sender := sender.(stream := sender.stream.(error := true)), receiver := receiver.WithError(),
            active := false, linger := false)
    }

    /** `_unclean_shutdown`: abort, and tell the peer. */
    function UncleanShutdown(): (c: Connection)
      requires Valid()
      ensures c.Valid()
    {
      Aborted().(out := out + [Segment(BLANK.(rst := true), [])])
    }

    function OnListen(seg: Segment): (c: Connection)
      requires Valid()
      ensures c.Valid()
    {
      if seg.header.syn then Taken(seg).Collected().(active := true) else this
    }

    function OnSynSent(seg: Segment): (c: Connection)
      requires Valid()
      ensures c.Valid()
    {
      if seg.header.syn && seg.header.ack then Taken(seg).AckTaken(seg).Replied()
      else if seg.header.syn then Taken(seg).Replied()
      else this
    }

    /** ESTABLISHED and FIN_WAIT_1. */
    function OnOpen(seg: Segment): (c: Connection)
      requires Valid() && receiver.isSet
      ensures c.Valid()
    {
      var c := if seg.header.fin && !In(FIN_WAIT_1) then this.(linger := false) else this;
      var c := if seg.Length() != 0 || !seg.header.ack then
                 var t := c.Taken(seg);
                 t.(sender := t.sender.Queued(t.PureAck())).Collected()
               else c;
      if seg.header.ack then c.AckTaken(seg).Collected() else c
    }

    function OnLastAck(seg: Segment): (c: Connection)
      requires Valid()
      ensures c.Valid()
    {
      if seg.header.ack then
        var c := AckTaken(seg);
        if c.sender.State() == FinAcked then c.(linger := false, active := false) else c
      else this
    }

    /** The states in which a FIN has been sent or received, other than FIN_WAIT_1. */
    function OnClosing(seg: Segment): (c: Connection)
      requires Valid()
      ensures c.Valid()
    {
      SynchronizedStates(this);
      var h := seg.header;
      if In(FIN_WAIT_2) then (if h.fin && h.ack then Taken(seg).AckTaken(seg).Replied() else this)
      else if In(LAST_ACK) then OnLastAck(seg)
      else if In(CLOSING) then (if h.ack then Taken(seg).AckTaken(seg).Collected() else this)
      else if In(CLOSE_WAIT) then (if h.fin then AckTaken(seg).Replied() else this)
      else if In(TIME_WAIT) then (if h.fin && h.ack then AckTaken(seg).Replied() else this)
      else this
    }

    /** What a segment without RST does, state by state. */
    function Dispatched(seg: Segment): (c: Connection)
      requires Valid()
      ensures c.Valid()
    {
      SynchronizedStates(this);
      if In(LISTEN) then OnListen(seg)
      else if In(SYN_SENT) then OnSynSent(seg)
      else if In(SYN_RCVD) then (if seg.header.ack then Taken(seg).AckTaken(seg) else this)
      else if In(ESTABLISHED) || In(FIN_WAIT_1) then OnOpen(seg)
      else OnClosing(seg)
    }

    /** A keep-alive probe is answered whatever the state. */
    function KeptAlive(seg: Segment): (c: Connection)
      requires Valid()
      ensures c.Valid()
    {
      if receiver.isSet && seg.Length() == 0 && seg.header.seqno == Low32(receiver.Ackno().value - 1)
      then this.(sender := sender.SentEmpty()).Collected()
      else this
    }

    function SegmentReceived(seg: Segment): (c: Connection)
      requires Valid()
      ensures c.Valid()
    {
      var c := this.(sinceLast := 0);
      if seg.header.rst then c.Aborted() else c.Dispatched(seg).KeptAlive(seg)
    }

    function Lingered(): Connection {
      if In(TIME_WAIT) && linger && sinceLast >= 10 * rtTimeout
      then this.(linger := false, active := false) else this
    }

    /** The end of `tick`: give up, or send what there is to send. */
    function Concluded(collecting: bool): (c: Connection)
      requires Valid()
      ensures c.Valid()
    {
      if sender.retransmissions > MAX_RETX_ATTEMPTS then UncleanShutdown()
      else if collecting then Collected()
      else this
    }

    function Ticked(ms: nat): (c: Connection)
      requires Valid()
      ensures c.Valid()
    {
      var before := this.(sinceLast := sinceLast + ms);
      var c := before.Lingered();
      c.(sender := c.sender.Ticked(ms)).Concluded(Collecting(before.State()))
    }

    function Written(data: seq<Byte>): (c: Connection)
      requires Valid()
      ensures c.Valid()
    {
      this.(sender := sender.(stream := sender.stream.Write(data))).Collected()
    }

    function InputEnded(): (c: Connection)
      requires Valid()
      ensures c.Valid()
    {
      this.(sender := sender.(stream := sender.stream.(ended := true))).Collected()
    }

    /** The application reads from the inbound stream. */
    function InboundRead(len: nat): (c: Connection)
      requires Valid()
      ensures c.Valid()
    {
      this.(receiver := receiver.ReadOut(len))
    }
  }

  /** In these states the receiver has its SYN. */
  lemma SynchronizedStates(c: Connection)
    ensures c.In(ESTABLISHED) || c.In(FIN_WAIT_1) || c.In(FIN_WAIT_2) || c.In(CLOSE_WAIT) || c.In(TIME_WAIT) ==>
              c.receiver.isSet
    ensures c.In(LISTEN) ==> c.active
  {
    hide SenderSummary;
  }

  function NewConnection(rtTimeout: U16, recvCapacity: nat, sendCapacity: nat, isn: U32): (c: Connection)
    ensures c.Valid()
  {
    Connection(rtTimeout, NewReceiver(recvCapacity), NewSender(sendCapacity, rtTimeout, isn), [], true, true, 0)
  }

  /** A call on an endpoint. */
  datatype Call =
    | Connect
    | Write(data: seq<Byte>)
    | EndInput
    | Arrive(seg: Segment)
    | Tick(ms: nat)
    | ReadInbound(len: nat)

  function Answer(c: Connection, call: Call): (c': Connection)
    requires c.Valid()
    ensures c'.Valid()
  {
    match call
    case Connect => c.Collected()
    case Write(data) => c.Written(data)
    case EndInput => c.InputEnded()
    case Arrive(seg) => c.SegmentReceived(seg)
    case Tick(ms) => c.Ticked(ms)
    case ReadInbound(len) => c.InboundRead(len)
  }

  function After(c: Connection, calls: seq<Call>): (c': Connection)
    requires c.Valid()
    ensures c'.Valid()
  {
    if calls == [] then c else Answer(After(c, calls[..|calls| - 1]), calls[|calls| - 1])
  }
}
