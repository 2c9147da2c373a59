/** What becomes of an endpoint in ESTABLISHED whose peer's FIN overtakes data
    (libsponge/tcp_connection.cc). */
module Stranding {
  import opened Words
  import opened WrappingIntegers
  import opened Segments
  import opened Reassembly
  import opened ReassemblyRuns
  import opened Receiving
  import opened Sending
  import opened SenderInvariants
  import opened Connections
  import opened Lifecycle

  // ---------------------------------------------------------------- what the receiver does

  /** What taking in the segment pushes into the reassembler. */
  function Pushing(r: Receiver, seg: Segment): Op {
    var r0 := r.Synchronized(seg);
    PushOp(seg.payload, Receiver.StreamIndex(Unwrap(seg.header.seqno, r0.isn, r0.checkpoint), seg), seg.header.fin)
  }

  lemma TakingPushes(r: Receiver, seg: Segment)
    requires r.Valid() && (r.isSet || seg.header.syn)
    ensures r.SegmentReceived(seg).reassembler == Step(r.reassembler, Pushing(r, seg))
  {
    hide Unwrap, Low64, Reassembler.Push, Reassembler.Valid;
  }

  /** The receiver's vectors stay addressable. */
  predicate Addressable(c: Connection) { c.receiver.reassembler.Size() + 1 < TWO_64 }

  /** Nothing is held at or beyond the mark, and nothing has ended before the SYN. */
  ghost predicate Marked(r: Receiver) {
    HeldBelowMark(r.reassembler) && (!r.isSet ==> !r.reassembler.eofed && !r.Output().ended)
  }

  lemma TakeKeepsMark(r: Receiver, seg: Segment)
    requires r.Valid() && Marked(r) && r.reassembler.Size() + 1 < TWO_64
    ensures Marked(r.SegmentReceived(seg))
  {
    hide Receiver.SegmentReceived, Holding;
    if r.isSet || seg.header.syn {
      TakingPushes(r, seg);
      PushKeepsHeldBelowMark(r.reassembler, Pushing(r, seg));
    } else {
      IgnoredUnset(r, seg);
    }
  }

  /** Reading and being reset leave what is held alone. */
  lemma SameMark(r: Receiver, t: Receiver)
    requires Marked(r) && t.isSet == r.isSet
    requires t.reassembler.count == r.reassembler.count && t.reassembler.eofed == r.reassembler.eofed
    requires t.reassembler.firstUnacceptable == r.reassembler.firstUnacceptable
    requires t.Output().ended == r.Output().ended
    ensures Marked(t)
  {
    forall i: nat | Holding(t.reassembler, i) ensures i < t.reassembler.firstUnacceptable {
      assert Holding(r.reassembler, i);
    }
  }

  lemma AnswerKeepsMark(c: Connection, call: Call)
    requires c.Valid() && Addressable(c) && Marked(c.receiver)
    ensures Marked(Answer(c, call).receiver)
  {
    hide Connection.Collected, Connection.SegmentReceived, Receiver.SegmentReceived, Connection.Ticked, Marked, Onward;
    match call
    case Arrive(seg) =>
      if seg.header.rst {
        RstKeepsMark(c, seg);
      } else {
        ArriveHears(c, seg);
        TakeKeepsMark(c.receiver, seg);
      }
    case Tick(ms) => TickKeepsMark(c, ms);
    case ReadInbound(len) => SameMark(c.receiver, c.receiver.ReadOut(len));
    case Connect => CollectOnward(c);
    case Write(data) => CollectOnward(c.(sender := c.sender.(stream := c.sender.stream.Write(data))));
    case EndInput => CollectOnward(c.(sender := c.sender.(stream := c.sender.stream.(ended := true))));
  }

  lemma RstKeepsMark(c: Connection, seg: Segment)
    requires c.Valid() && seg.header.rst && Marked(c.receiver)
    ensures Marked(c.SegmentReceived(seg).receiver)
  {
    hide Marked;
    SameMark(c.receiver, c.SegmentReceived(seg).receiver);
  }

  lemma TickKeepsMark(c: Connection, ms: nat)
    requires c.Valid() && Marked(c.receiver)
    ensures Marked(c.Ticked(ms).receiver)
  {
    hide Connection.Collected, Connection.State, Collecting, Sender.Ticked, Marked, Onward;
    var d := c.(sinceLast := c.sinceLast + ms).Lingered();
    CollectOnward(d.(sender := d.sender.Ticked(ms)));
    SameMark(c.receiver, c.receiver.WithError());
  }

  /** In every run, whatever is called and whatever any peer sends. */
  lemma {:induction false} RunKeepsMark(rtTimeout: U16, recvCapacity: nat, sendCapacity: nat, isn: U32,
      calls: seq<Call>)
    requires forall k | 0 <= k < |calls| ::
               Addressable(After(NewConnection(rtTimeout, recvCapacity, sendCapacity, isn), calls[..k]))
    ensures Marked(After(NewConnection(rtTimeout, recvCapacity, sendCapacity, isn), calls).receiver)
  {
    hide Answer, Addressable;
    var c := NewConnection(rtTimeout, recvCapacity, sendCapacity, isn);
    if calls != [] {
      var n := |calls| - 1;
      forall k | 0 <= k < n ensures calls[..n][..k] == calls[..k] {}
      RunKeepsMark(rtTimeout, recvCapacity, sendCapacity, isn, calls[..n]);
      AnswerKeepsMark(After(c, calls[..n]), calls[n]);
    }
  }

  // ---------------------------------------------------------------- the early FIN

  /** The endpoint no longer lingers although the inbound stream has not ended. */
  predicate Stranded(c: Connection) { c.active && !c.linger && ReceiverSummary(c.receiver) == SynRecv }

  /** In ESTABLISHED a FIN strands the endpoint if and only if some byte below the mark that it leaves is
      neither held nor brought by it. */
  lemma EarlyFinStrandsExactly(c: Connection, seg: Segment)
    requires c.Valid() && c.In(ESTABLISHED) && seg.header.fin && !seg.header.rst
    requires Addressable(c) && Marked(c.receiver)
    ensures Stranded(c.SegmentReceived(seg))
            <==> exists k: nat :: Missing(c.receiver.reassembler, Pushing(c.receiver, seg), k)
  {
    hide HeldBelowMark, Connection.SegmentReceived, Receiver.SegmentReceived, SenderSummary, Missing, Pushing,
         Reassembler.Push, Reassembler.Valid;
    SynchronizedStates(c);
    FinEndsOrStrands(c, seg);
    TakingPushes(c.receiver, seg);
    PushingFlags(c.receiver, seg);
    PushEndsExactly(c.receiver.reassembler, Pushing(c.receiver, seg));
  }

  lemma PushingFlags(r: Receiver, seg: Segment)
    ensures Pushing(r, seg).PushOp? && Pushing(r, seg).eof == seg.header.fin
  {
  }

  lemma FinEndsOrStrands(c: Connection, seg: Segment)
    requires c.Valid() && c.In(ESTABLISHED) && seg.header.fin && !seg.header.rst
    ensures Stranded(c.SegmentReceived(seg)) <==> !c.receiver.SegmentReceived(seg).Output().ended
  {
    hide Connection.Collected, Connection.AckTaken, Receiver.SegmentReceived, SenderSummary, Patient;
    var c0 := c.(sinceLast := 0);
    SynchronizedStates(c0);
    assert c0.Dispatched(seg) == c0.OnOpen(seg);
    TakeKeepsError(c0.receiver, seg);
    var t := c0.(linger := false).Taken(seg);
    var c1 := t.(sender := t.sender.Queued(t.PureAck()));
    CollectOnward(c1);
    AckOnward(c1.Collected(), seg);
    CollectOnward(c1.Collected().AckTaken(seg));
  }

  // ---------------------------------------------------------------- what follows

  /** Nothing reaches the application any more, and nothing that it wrote is acknowledged. */
  predicate Frozen(c: Connection, d: Connection) {
    && d.receiver.Output().written == c.receiver.Output().written
    && d.receiver.Output().ended == c.receiver.Output().ended
    && d.sender.window.first == c.sender.window.first
  }

  /** A stranded endpoint is in none of the official states, so it ignores everything but a RST. */
  lemma StrandedIgnores(c: Connection, seg: Segment)
    requires Stranded(c)
    ensures forall o :: !c.In(o)
    ensures Ignores(c, seg)
  {
    hide SenderSummary, ReceiverSummary;
  }

  lemma CollectFreezes(c: Connection)
    requires c.Valid()
    ensures Frozen(c, c.Collected()) && (Stranded(c) ==> Stranded(c.Collected()))
  {
    hide Sender.FillWindow;
    FillExtends(c.sender);
  }

  lemma StrandedTick(c: Connection, ms: nat)
    requires c.Valid() && Stranded(c)
    ensures var d := c.Ticked(ms);
            Frozen(c, d) && (d.In(RESET) || d == c.(sinceLast := c.sinceLast + ms, sender := c.sender.Ticked(ms)))
  {
    hide Connection.Collected, SenderSummary, Connection.Ticked;
    TickShape(c, ms);
    AbortedIsReset(c.(sinceLast := c.sinceLast + ms, sender := c.sender.Ticked(ms)));
  }

  lemma InactiveHears(c: Connection, seg: Segment)
    requires c.Valid() && !c.active
    ensures Frozen(c, c.SegmentReceived(seg))
  {
    hide Connection.Collected, Connection.Dispatched;
    var c0 := c.(sinceLast := 0);
    InactiveIgnores(c0, seg);
    CollectFreezes(c0.(sender := c0.sender.SentEmpty()));
  }

  lemma InactiveTick(c: Connection, ms: nat)
    requires c.Valid() && !c.active
    ensures Frozen(c, c.Ticked(ms))
  {
    hide Connection.Collected, SenderSummary, ReceiverSummary, Connection.Ticked;
    TickShape(c, ms);
  }

  /** Nor does anything reach the application of an endpoint that is no longer active. */
  lemma InactiveAnswer(c: Connection, call: Call)
    requires c.Valid() && !c.active
    ensures Frozen(c, Answer(c, call))
  {
    hide Connection.Collected, Connection.Ticked, Connection.SegmentReceived;
    match call
    case Arrive(seg) => InactiveHears(c, seg);
    case Tick(ms) => InactiveTick(c, ms);
    case ReadInbound(len) =>
    case Connect => CollectFreezes(c);
    case Write(data) => CollectFreezes(c.(sender := c.sender.(stream := c.sender.stream.Write(data))));
    case EndInput => CollectFreezes(c.(sender := c.sender.(stream := c.sender.stream.(ended := true))));
  }

  lemma StrandedAnswer(c: Connection, call: Call)
    requires c.Valid() && Stranded(c)
    ensures var d := Answer(c, call);
            Frozen(c, d) && (Stranded(d) || d.In(RESET))
  {
    hide Connection.Collected, Connection.Ticked, Connection.SegmentReceived;
    match call
    case Arrive(seg) => StrandedHears(c, seg);
    case Tick(ms) => StrandedTick(c, ms);
    case ReadInbound(len) =>
    case Connect => CollectFreezes(c);
    case Write(data) => CollectFreezes(c.(sender := c.sender.(stream := c.sender.stream.Write(data))));
    case EndInput => CollectFreezes(c.(sender := c.sender.(stream := c.sender.stream.(ended := true))));
  }

  lemma StrandedHears(c: Connection, seg: Segment)
    requires c.Valid() && Stranded(c)
    ensures var d := c.SegmentReceived(seg);
            Frozen(c, d) && if seg.header.rst then d.In(RESET) else Stranded(d)
  {
    hide Connection.Collected, Connection.Dispatched;
    if !seg.header.rst {
      var c0 := c.(sinceLast := 0);
      StrandedIgnores(c, seg);
      IgnoredArrive(c, seg);
      CollectFreezes(c0.(sender := c0.sender.SentEmpty()));
    }
  }

  lemma ResetIsInactive(c: Connection)
    requires c.In(RESET)
    ensures !c.active
  {
  }

  /** Whatever is called, and whatever the peer sends, until a RST or giving up resets it, a stranded
      endpoint stays stranded; its application never gets another byte nor the end, and nothing it
      has sent is ever acknowledged. */
  lemma {:induction false} StrandedForEver(c: Connection, calls: seq<Call>)
    requires c.Valid() && Stranded(c)
    ensures var d := After(c, calls);
            Frozen(c, d) && (Stranded(d) || d.In(RESET))
  {
    hide Answer, Stranded, Connection.In;
    if calls != [] {
      var n := |calls| - 1;
      StrandedForEver(c, calls[..n]);
      var d := After(c, calls[..n]);
      if Stranded(d) {
        StrandedAnswer(d, calls[n]);
      } else {
        ResetStays(d, calls[n]);
        ResetIsInactive(d);
        InactiveAnswer(d, calls[n]);
      }
    }
  }
}
