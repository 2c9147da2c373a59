/** The sending half of an endpoint (libsponge/tcp_sender.cc). */
module Sending {
  import opened Words
  import opened WrappingIntegers
  import opened Segments
  import opened ByteStreams
  import opened SendingWindows

  const MAX_PAYLOAD_SIZE: nat := 1000

  datatype SenderState = Closed | SynSent | SynAcked | FinSent | FinAcked | SendError

  datatype Sender = Sender(
    out: seq<Segment>, initialRto: U16, stream: Stream, rto: U64, window: Window,
    retransmissions: nat, zeroWindow: bool)
  {
    predicate Valid() { stream.Valid() }

    function State(): SenderState {
      if stream.error then SendError
      else if window.next == 0 then Closed
      else if window.next == window.InFlight() then SynSent
      else if window.next > window.InFlight() && !stream.Eof() then SynAcked
      else if stream.Eof() && window.next < |stream.written| + 2 then SynAcked
      else if stream.Eof() && window.next == |stream.written| + 2 && window.InFlight() > 0 then FinSent
      else FinAcked
    }

    function NextHeader(): Header { BLANK.(seqno := Wrap(window.next, window.isn)) }

    function Queued(seg: Segment): Sender { this.(out := out + [seg]) }

    /** A new segment goes into the window and onto the queue; the program throws if it is full. */
    function Emitted(seg: Segment): Sender {
      if window.Full() then this.(window := window.(faulted := true))
      else this.(window := window.Added(seg, Low32(rto))).Queued(seg)
    }

    function Syn(): Segment { Segment(NextHeader().(syn := true), []) }

    /** How many bytes the next segment takes from the stream. */
    function Chunk(): nat
      requires Valid()
    {
      Min(window.Space(), Min(MAX_PAYLOAD_SIZE, stream.BufferSize()))
    }

    function NextSegment(): (seg: Segment)
      requires Valid()
      ensures seg.Length() <= window.Space()
      ensures |seg.payload| == Chunk()
    {
      var fin := stream.Pop(Chunk()).Eof() && Chunk() < window.Space();
      Segment(NextHeader().(fin := fin), stream.Peek(Chunk()))
    }

    predicate FinDone() { State().FinSent? || State().FinAcked? }

    predicate CanSend()
      requires Valid()
    {
      (stream.BufferSize() > 0 || stream.Eof()) && !window.Full() && !FinDone()
    }

    function SentNext(): (s: Sender)
      requires Valid()
      ensures s.Valid()
    {
      this.(stream := stream.Pop(Chunk())).Emitted(NextSegment())
    }

    /** The loop of `fill_window`. */
    function Filled(): (s: Sender)
      requires Valid()
      ensures s.Valid()
      decreases window.Space()
    {
      if !CanSend() || NextSegment().Length() == 0 then this
      else
        SpaceShrinks(this);
        SentNext().Filled()
    }

    function Opened(): Sender { if State().Closed? then Emitted(Syn()) else this }

    function FillWindow(): (s: Sender)
      requires Valid()
      ensures s.Valid()
    {
      Opened().Filled()
    }

    /** The window after an acknowledgment; a zero window counts as one. */
    function Acknowledged(ackno: U32, win: U16): Sender {
      var w := window.Acked(ackno, Max(win, 1));
      if window.Advances(ackno) then
        this.(zeroWindow := win == 0, rto := initialRto, retransmissions := 0,
              window := w.(buffer := Rearmed(w.buffer, initialRto)))
      else
        this.(zeroWindow := win == 0, window := w)
    }

    function AckReceived(ackno: U32, win: U16): (s: Sender)
      requires Valid()
      ensures s.Valid()
    {
      Acknowledged(ackno, win).FillWindow()
    }

    function Ticked(ms: nat): (s: Sender)
      ensures s.stream == stream
    {
      var due := Expired(window.buffer, ms);
      var aged := Aged(window.buffer, ms);
      if due == [] then this.(window := window.(buffer := aged))
      else
        var rto' := if zeroWindow then rto else Low64(rto * 2);
        this.(rto := rto', retransmissions := retransmissions + 1,
              window := window.(buffer := Rearmed(aged, rto'))).Queued(due[0])
    }

    function SentEmpty(): Sender { Queued(Segment(NextHeader(), [])) }
  }

  function NewSender(capacity: nat, rto: U16, isn: U32): Sender {
    Sender([], rto, NewStream(capacity), rto, NewWindow(isn, 1), 0, false)
  }

  /** Where the program throws: a segment for a full window. */
  lemma FullIsRefused(s: Sender, seg: Segment)
    requires s.window.Full()
    ensures s.Emitted(seg) == s.(window := s.window.(faulted := true))
  {
  }

  /** Every new segment uses up that much of the window, even when `Space` has wrapped round. */
  lemma SpaceShrinks(s: Sender)
    requires s.Valid() && !s.window.Full()
    ensures s.SentNext().window.Space() == s.window.Space() - s.NextSegment().Length()
    ensures s.SentNext().window.next == Low64(s.window.next + s.NextSegment().Length())
  {
    hide Unwrap, Wrap, Low64;
    UnwrapAtCheckpoint(s.window.next, s.window.isn);
    LowSubtract(s.window.size, s.window.first, s.window.next, s.NextSegment().Length());
  }

  lemma LowSubtract(size: U64, first: U64, next: U64, len: nat)
    requires len <= Low64(size - Low64(next - first))
    ensures Low64(size - Low64(Low64(next + len) - first)) == Low64(size - Low64(next - first)) - len
  {
    hide Low64;
    LowInner(first, next + len);
    LowInner'(size, Low64(next + len) - first, next + len - first);
    LowInner'(size, Low64(next - first), next - first);
    LowMinus(size - (next - first), len);
  }

  lemma LowInner(first: int, x: int)
    ensures Low64(Low64(x) - first) == Low64(x - first)
  {
  }

  lemma LowInner'(size: int, x: int, y: int)
    requires Low64(x) == Low64(y)
    ensures Low64(size - Low64(x)) == Low64(size - y)
  {
    hide Low64;
    LowOuter(size, y);
  }

  lemma LowOuter(size: int, y: int)
    ensures Low64(size - Low64(y)) == Low64(size - y)
  {
  }

  lemma LowMinus(x: int, len: nat)
    requires len <= Low64(x)
    ensures Low64(x - len) == Low64(x) - len
  {
  }

  class TCPSender {
    const stream: ByteStream
    const window: TCPSendingWindow
    const initialRto: U16
    var segmentsOut: seq<Segment>
    var rto: U64
    var retransmissions: nat
    var windowSizeIsZero: bool

    ghost function Repr(): set<object> { {this, stream, stream.channel, window} }

    ghost predicate Valid()
      reads this, stream, stream.channel, window
    {
      stream.Valid()
    }

    ghost function Model(): (s: Sender)
      requires Valid()
      reads this, stream, stream.channel, window
      ensures s.Valid() && s.out == segmentsOut && s.retransmissions == retransmissions
    {
      Sender(segmentsOut, initialRto, stream.Model(), rto, window.Model(), retransmissions, windowSizeIsZero)
    }

    constructor (capacity: nat, retxTimeout: U16, isn: U32)
      ensures Valid() && fresh(Repr())
      ensures Model() == NewSender(capacity, retxTimeout, isn)
    {
      stream := new ByteStream(capacity);
      window := new TCPSendingWindow(isn, 1);
      initialRto := retxTimeout;
      segmentsOut := [];
      rto := retxTimeout;
      retransmissions := 0;
      windowSizeIsZero := false;
    }

    function State(): (st: SenderState)
      requires Valid()
      reads this, stream, stream.channel, window
      ensures st == Model().State()
    {
      if stream.errorFlag then SendError
      else if window.next == 0 then Closed
      else if window.next > 0 && window.next == window.BytesInFlight() then SynSent
      else if window.next > window.BytesInFlight() && !stream.Eof() then SynAcked
      else if stream.Eof() && window.next < stream.bytesWritten + 2 then SynAcked
      else if stream.Eof() && window.next == stream.bytesWritten + 2 && window.BytesInFlight() > 0 then FinSent
      else FinAcked
    }

    /** `_window.add_segment` followed by `_send`. */
    method Emit(seg: Segment)
      requires Valid()
      modifies this`segmentsOut, window
      ensures Valid()
      ensures Model() == old(Model()).Emitted(seg)
    {
      var ok := window.AddSegment(seg, Low32(rto));
      if ok {
        segmentsOut := segmentsOut + [seg];
      } else {
        window.faulted := true;
      }
    }

    method FillWindow()
      requires Valid()
      modifies Repr()
      ensures Valid()
      ensures Model() == old(Model().FillWindow())
      ensures windowSizeIsZero == old(windowSizeIsZero)
    {
      if State() == Closed {
        Emit(Segment(BLANK.(syn := true, seqno := Wrap(window.next, window.isn)), []));
      }
      ghost var s := Model();
      assert s == old(Model()).Opened();
      while (!stream.BufferEmpty() || stream.Eof()) && !window.Full()
        invariant Valid()
        invariant Model().Filled() == s.Filled()
        invariant windowSizeIsZero == old(windowSizeIsZero)
        decreases window.Space()
      {
        if State() == FinSent || State() == FinAcked {
          break;
        }
        var sent := SendNext();
        if !sent {
          break;
        }
      }
    }

    /** The body of the loop of `fill_window`; false where the source breaks on an empty segment. */
    method SendNext() returns (sent: bool)
      requires Valid()
      requires Model().CanSend()
      modifies Repr()
      ensures Valid()
      ensures sent == (old(Model().NextSegment()).Length() != 0)
      ensures Model() == if sent then old(Model().SentNext()) else old(Model())
      ensures sent ==> window.Space() < old(window.Space())
      ensures windowSizeIsZero == old(windowSizeIsZero)
    {
      hide Unwrap, Wrap, Sender.State, Window.Added, Low64, Window.Full;
      ghost var s := Model();
      SpaceShrinks(s);
      var header := BLANK.(seqno := Wrap(window.next, window.isn));
      var payload := stream.Read(Min(window.Space(), Min(MAX_PAYLOAD_SIZE, stream.BufferSize())));
      header := header.(fin := stream.Eof() && |payload| < window.Space());
      var seg := Segment(header, payload);
      assert seg == s.NextSegment();
      if seg.Length() != 0 {
        Emit(seg);
        return true;
      } else {
        return false;
      }
    }

    method AckReceived(ackno: U32, windowSize: U16)
      requires Valid()
      modifies Repr()
      ensures Valid()
      ensures Model() == old(Model()).AckReceived(ackno, windowSize)
      ensures windowSizeIsZero == (windowSize == 0)
    {
      hide Unwrap, Window.Acked;
      windowSizeIsZero := windowSize == 0;
      var ret := window.AckReceived(ackno, Max(windowSize, 1));
      if ret {
        rto := initialRto;
        window.ResetTimer(rto);
        retransmissions := 0;
      }
      assert Model() == old(Model()).Acknowledged(ackno, windowSize);
      FillWindow();
    }

    method Tick(ms: nat)
      requires Valid()
      modifies this, window
      ensures Valid()
      ensures Model() == old(Model()).Ticked(ms)
    {
      var ret := window.Tick(ms);
      if ret == [] {
        return;
      }
      if !windowSizeIsZero {
        rto := Low64(rto * 2);
      }
      window.ResetTimer(rto);
      retransmissions := retransmissions + 1;
      segmentsOut := segmentsOut + [ret[0]];
    }

    /** The owner takes a segment off the queue. */
    method TakeFirst() returns (seg: Segment)
      requires Valid() && segmentsOut != []
      modifies this`segmentsOut
      ensures Valid()
      ensures seg == old(segmentsOut)[0] && segmentsOut == old(segmentsOut)[1..]
      ensures Model() == old(Model()).(out := segmentsOut)
    {
      seg := segmentsOut[0];
      segmentsOut := segmentsOut[1..];
    }

    method SetError()
      requires Valid()
      modifies stream
      ensures Valid()
      ensures Model() == old(Model()).(stream := old(Model()).stream.(error := true))
    {
      stream.SetError();
    }

    method SendEmptySegment()
      requires Valid()
      modifies this`segmentsOut
      ensures Valid()
      ensures Model() == old(Model()).SentEmpty()
    {
      segmentsOut := segmentsOut + [Segment(BLANK.(seqno := Wrap(window.next, window.isn)), [])];
    }
  }
}
