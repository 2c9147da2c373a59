/** A sender and a receiver joined by a network that loses, repeats and reorders segments and
    acknowledgments. Everything ever sent may be delivered at any time, any number of times, or
    never; the sender's queue, which the sender only appends to, is the record of what was sent. */
module Protocol {
  import opened Words
  import opened WrappingIntegers
  import opened Segments
  import opened ReassemblyRuns
  import opened Receiving
  import opened Carriage
  import opened Acknowledging
  import opened SendingWindows
  import opened Sending
  import opened SenderInvariants
  import opened Tiling
  import opened Transmission
  import opened SenderRuns

  /** What the receiver tells the sender: its acknowledgment number and window. */
  datatype Ack = Ack(ackno: U32, win: U16)

  datatype Net = Net(sender: Sender, receiver: Receiver, acks: set<Ack>) {
    ghost predicate Valid() { sender.Valid() && receiver.Valid() }

    /** The bytes the application has written on the sending side. */
    function Source(): seq<Byte> { sender.stream.written }

    /** The bytes handed to the application on the receiving side. */
    function Sink(): seq<Byte> { receiver.Output().written }
  }

  function NewNet(sendCapacity: nat, rto: U16, isn: U32, recvCapacity: nat): (n: Net)
    ensures n.Valid()
  {
    Net(NewSender(sendCapacity, rto, isn), NewReceiver(recvCapacity), {})
  }

  datatype Move =
    | Local(e: Event)
    | Deliver(i: nat)
    | Read(len: nat)
    | Reply
    | DeliverAck(a: Ack)

  predicate Enabled(n: Net, m: Move) {
    match m
    case Local(e) => !e.AckEvent?
    case Deliver(i) => i < |n.sender.out|
    case Read(_) => true
    case Reply => n.receiver.Ackno().Some?
    case DeliverAck(a) => a in n.acks
  }

  /** The advertised window is truncated to the 16 bits of its header field. */
  function CurrentAck(r: Receiver): Ack
    requires r.Valid() && r.Ackno().Some?
  {
    Ack(r.Ackno().value, Low16(r.WindowSize()))
  }

  function Apply(n: Net, m: Move): (n': Net)
    requires n.Valid() && Enabled(n, m)
    ensures n'.Valid()
  {
    match m
    case Local(e) => n.(sender := React(n.sender, e))
    case Deliver(i) => n.(receiver := n.receiver.SegmentReceived(n.sender.out[i]))
    case Read(len) => n.(receiver := n.receiver.ReadOut(len))
    case Reply => n.(acks := n.acks + {CurrentAck(n.receiver)})
    case DeliverAck(a) => n.(sender := React(n.sender, AckEvent(a.ackno, a.win)))
  }

  /** `nets` is a run of the protocol under `moves`. */
  ghost predicate IsRun(nets: seq<Net>, moves: seq<Move>) {
    && |nets| == |moves| + 1
    && (forall k | 0 <= k < |nets| :: nets[k].Valid())
    && (forall k | 0 <= k < |moves| ::
          Enabled(nets[k], moves[k]) && nets[k + 1] == Apply(nets[k], moves[k]))
  }

  /** Fewer than 2^31 sequence numbers are needed. */
  predicate Short(s: Sender) { |s.stream.written| + 2 < TWO_31 }

  predicate Small(n: Net) { Short(n.sender) }

  /** The acknowledgment names some number that the stream has. */
  ghost predicate Names(a: Ack, c: nat, n: Net) {
    AckFor(a.ackno, c, n.sender.window.isn, |n.Source()| + 2)
  }

  ghost predicate AckKnown(a: Ack, n: Net) { Known(a.ackno, n.sender.window.isn, |n.Source()| + 2) }

  ghost predicate Inv(n: Net, log: seq<Segment>) {
    && n.Valid()
    && Core(n.sender) && Tiled(n.sender.window) && !n.sender.window.faulted
    && Logged(n.sender, log)
    && InSync(n.receiver, n.sender.window.isn, n.Source())
    && (forall a | a in n.acks :: AckKnown(a, n))
  }

  /** Everything on the wire carries what its number names. */
  lemma OnTheWire(n: Net, log: seq<Segment>, i: nat) returns (v: nat)
    requires Inv(n, log) && i < |n.sender.out|
    ensures v <= n.sender.window.next
    ensures Carries(n.sender.out[i], v, n.sender.window.isn, n.Source(), n.sender.stream.ended)
    ensures n.sender.out[i].Length() > 0 ==>
              exists j :: 0 <= j < |log| && log[j] == n.sender.out[i] && v == Span(log[..j])
  {
    hide Core, Tiled, InSync, Carries, Span, Bytes;
    var seg := n.sender.out[i];
    assert Genuine(seg, log, n.sender);
    if seg.Length() == 0 && seg !in log {
      v :| v <= n.sender.window.next && Carries(seg, v, n.sender.window.isn, n.Source(), n.sender.stream.ended);
    } else {
      var j :| 0 <= j < |log| && log[j] == seg;
      v := Span(log[..j]);
      assert InPlace(log, j, n.sender);
      SpanSplit(log, j);
    }
  }

  lemma SmallIsReadable(s: Sender)
    requires Core(s) && Tiled(s.window) && Short(s)
    ensures Narrow(s.window) && forall ackno: U32 :: Readable(s.window, ackno)
  {
    hide Clocked, Wrap;
    AtGrows(s.window, 0, |s.window.buffer|);
    if s.window.buffer != [] {
      assert Placed(s.window, 0);
    }
    assert Segs(s.window.buffer)[0..] == Segs(s.window.buffer);
  }

  lemma SourceGrows(s: Sender, e: Event)
    requires s.Valid()
    ensures s.stream.written <= React(s, e).stream.written
    ensures React(s, e).window.isn == s.window.isn
    ensures s.stream.ended ==> React(s, e).stream.ended && React(s, e).stream.written == s.stream.written
    ensures React(s, e).stream.readCount >= s.stream.readCount
  {
    hide Window.Search, Window.AckPosition, Low64, Sender.FillWindow;
    match e
    case FillEvent => FillExtends(s);
    case AckEvent(ackno, win) => FillExtends(s.Acknowledged(ackno, win));
    case _ =>
  }

  lemma ReactKeepsInv(n: Net, e: Event, log: seq<Segment>)
    requires Inv(n, log) && Small(n)
    requires e.AckEvent? ==> Admissible(n.sender, e.ackno)
    requires Small(n.(sender := React(n.sender, e)))
    ensures Inv(n.(sender := React(n.sender, e)), log + New(n.sender, e))
  {
    hide Core, Tiled, Logged, InSync, React, New, Readable, Wrap, Admissible;
    var n' := n.(sender := React(n.sender, e));
    SmallIsReadable(n.sender);
    SourceGrows(n.sender, e);
    ReactCore(n.sender, e);
    ReactTiles(n.sender, e);
    ReactLogged(n.sender, e, log);
    InSyncExtends(n.receiver, n.sender.window.isn, n.Source(), n'.Source());
    forall a | a in n'.acks ensures AckKnown(a, n') {
      KnownExtends(a.ackno, n.sender.window.isn, |n.Source()| + 2, |n'.Source()| + 2);
    }
  }

  /** No acknowledgment of this receiver names the bare SYN. */
  lemma AcksAreAdmissible(n: Net, log: seq<Segment>, a: Ack)
    requires Inv(n, log) && Small(n) && a in n.acks
    ensures Admissible(n.sender, a.ackno)
    ensures forall c: nat | Names(a, c, n) :: n.sender.window.AckPosition(a.ackno) == c
  {
    hide Tiled, Logged, InSync, Wrap, Unwrap, Clocked;
    assert AckKnown(a, n);
    var known: nat :| AckFor(a.ackno, known, n.sender.window.isn, |n.Source()| + 2);
    assert Names(a, known, n);
    forall c: nat | Names(a, c, n) ensures n.sender.window.AckPosition(a.ackno) == c {
      UnwrapInvertsWrap(c, n.sender.window.isn, n.sender.window.next);
    }
  }

  /** What a move puts on the wire for the first time. */
  function Fresh(n: Net, m: Move): seq<Segment>
    requires n.Valid()
  {
    match m
    case Local(e) => New(n.sender, e)
    case DeliverAck(a) => New(n.sender, AckEvent(a.ackno, a.win))
    case _ => []
  }

  lemma ReplyKnown(n: Net, log: seq<Segment>)
    requires Inv(n, log) && n.receiver.Ackno().Some?
    ensures Names(CurrentAck(n.receiver), n.receiver.checkpoint, n)
    ensures AckKnown(CurrentAck(n.receiver), n)
  {
    hide Core, Tiled, Logged, Wrap, Agrees;
  }

  lemma MoveKeepsInv(n: Net, m: Move, log: seq<Segment>)
    requires Inv(n, log) && Enabled(n, m) && Small(n) && Small(Apply(n, m))
    ensures Inv(Apply(n, m), log + Fresh(n, m))
  {
    hide Core, Tiled, Logged, InSync, React, New, Names, Receiver.SegmentReceived;
    assert log + [] == log;
    match m
    case Local(e) => ReactKeepsInv(n, e, log);
    case DeliverAck(a) =>
      AcksAreAdmissible(n, log, a);
      ReactKeepsInv(n, AckEvent(a.ackno, a.win), log);
    case Deliver(i) =>
      var v := OnTheWire(n, log, i);
      DeliveryInSync(n.receiver, n.sender.out[i], v, n.sender.window.isn, n.Source(), n.sender.stream.ended);
      AcksUnmoved(n, Apply(n, m));
    case Read(len) =>
      ReadInSync(n.receiver, len, n.sender.window.isn, n.Source());
      AcksUnmoved(n, Apply(n, m));
    case Reply =>
      ReplyKnown(n, log);
      AcksUnmoved(n, Apply(n, m));
  }

  lemma AcksUnmoved(n: Net, n': Net)
    requires n'.sender == n.sender
    ensures forall a :: AckKnown(a, n) ==> AckKnown(a, n')
  {
    hide Known;
  }

  lemma ReadInSync(r: Receiver, len: nat, isn: U32, stream: seq<Byte>)
    requires InSync(r, isn, stream)
    ensures InSync(r.ReadOut(len), isn, stream)
  {
  }

  lemma NewNetInv(sendCapacity: nat, rto: U16, isn: U32, recvCapacity: nat)
    ensures Inv(NewNet(sendCapacity, rto, isn, recvCapacity), [])
  {
    NewSenderHolds(sendCapacity, rto, isn);
  }

  /** All first transmissions of the first `k` moves of a run. */
  ghost function Log(nets: seq<Net>, moves: seq<Move>, k: nat): seq<Segment>
    requires IsRun(nets, moves) && k <= |moves|
  {
    if k == 0 then [] else Log(nets, moves, k - 1) + Fresh(nets[k - 1], moves[k - 1])
  }

  lemma {:induction false} RunKeepsInv(nets: seq<Net>, moves: seq<Move>, k: nat,
      sendCapacity: nat, rto: U16, isn: U32, recvCapacity: nat)
    requires IsRun(nets, moves) && k <= |moves|
    requires nets[0] == NewNet(sendCapacity, rto, isn, recvCapacity)
    requires forall i | 0 <= i < |nets| :: Small(nets[i])
    ensures Inv(nets[k], Log(nets, moves, k))
  {
    hide Inv, Small, Fresh, Apply;
    if k == 0 {
      NewNetInv(sendCapacity, rto, isn, recvCapacity);
    } else {
      RunKeepsInv(nets, moves, k - 1, sendCapacity, rto, isn, recvCapacity);
      assert nets[k - 1 + 1] == Apply(nets[k - 1], moves[k - 1]);
      MoveKeepsInv(nets[k - 1], moves[k - 1], Log(nets, moves, k - 1));
    }
  }

  /** End-to-end safety. In every state of every run that uses fewer than 2^31 sequence numbers,
      whatever the network loses, repeats or reorders, the bytes handed to the receiving
      application are a prefix of the bytes the sending application wrote; and the sender's window
      never throws and never searches in vain. */
  lemma SinkIsPrefixOfSource(nets: seq<Net>, moves: seq<Move>, k: nat,
      sendCapacity: nat, rto: U16, isn: U32, recvCapacity: nat)
    requires IsRun(nets, moves) && k < |nets|
    requires nets[0] == NewNet(sendCapacity, rto, isn, recvCapacity)
    requires forall i | 0 <= i < |nets| :: Small(nets[i])
    ensures nets[k].Sink() <= nets[k].Source()
    ensures !nets[k].sender.window.faulted
  {
    hide Small, Core, Tiled, Logged;
    RunKeepsInv(nets, moves, k, sendCapacity, rto, isn, recvCapacity);
  }
}
