/** What every call on a sender keeps (libsponge/tcp_sender.cc, libsponge/tcp_sending_window.cc). */
module SenderInvariants {
  import opened Words
  import opened WrappingIntegers
  import opened Segments
  import opened SendingWindows
  import opened Sending

  // ---------------------------------------------------------------- numbering

  /** `x` doubled `k` times. */
  function Doubled(x: nat, k: nat): nat { if k == 0 then x else 2 * Doubled(x, k - 1) }

  /** The timeout is the initial one, doubled at most once per retransmission in a row. */
  ghost predicate Backoff(rto: U64, initialRto: U16, retransmissions: nat) {
    exists k: nat :: k <= retransmissions && rto == Low64(Doubled(initialRto, k))
  }

  /** Timers never decrease along the buffer and never exceed `bound`. */
  ghost predicate Timed(buffer: seq<Outstanding>, bound: U32) {
    && (forall i | 0 <= i < |buffer| :: buffer[i].remaining <= bound)
    && (forall i, j | 0 <= i < j < |buffer| :: buffer[i].remaining <= buffer[j].remaining)
  }

  /** The next number is the SYN, plus the bytes taken from the stream, plus the FIN. */
  predicate Numbered(s: Sender) {
    && s.stream.Valid()
    && (s.window.next == 0 ==> s.stream.readCount == 0 && s.window.buffer == [])
    && (s.window.next > 0 ==>
          || s.window.next == 1 + s.stream.readCount
          || (s.window.next == 2 + s.stream.readCount && s.stream.Eof()))
  }

  /** Until something is acknowledged only the SYN can be out. */
  predicate Handshaking(w: Window) {
    w.first == 0 ==> w.size == 1 && w.next <= 1 && (w.next == 1 ==> w.buffer != [])
  }

  /** Timeout, timers and counter belong together; no call from any peer disturbs this. */
  ghost predicate Clocked(s: Sender) {
    && (s.window.buffer == [] ==> s.retransmissions == 0)
    && Timed(s.window.buffer, Low32(s.rto))
    && Backoff(s.rto, s.initialRto, s.retransmissions)
  }

  ghost predicate Core(s: Sender) {
    && s.Valid()
    && Numbered(s)
    && Handshaking(s.window)
    && !s.stream.error
    && |s.stream.written| + 2 < TWO_64
    && s.window.first <= s.window.next
    && 1 <= s.window.size < TWO_16
    && Clocked(s)
  }

  /** A sender that may send has had its SYN acknowledged and has not sent its FIN. */
  lemma CanSendOnlyBetween(s: Sender)
    requires Core(s) && s.window.next > 0 && s.CanSend()
    ensures s.window.first > 0 && s.window.next == 1 + s.stream.readCount
    ensures s.window.InFlight() == s.window.next - s.window.first
  {
  }

  lemma SentNextCore(s: Sender)
    requires Core(s) && s.window.next > 0 && s.CanSend()
    ensures Core(s.SentNext())
    ensures s.SentNext().window.next == s.window.next + s.NextSegment().Length()
  {
    hide Unwrap, Wrap, Clocked;
    CanSendOnlyBetween(s);
    SpaceShrinks(s);
    SentNextClocked(s);
  }

  lemma EmittedClocked(s: Sender, seg: Segment)
    requires Clocked(s)
    ensures Clocked(s.Emitted(seg))
  {
    hide Unwrap, Backoff;
  }

  lemma {:induction false} FilledCore(s: Sender)
    requires Core(s) && s.window.next > 0
    ensures Core(s.Filled()) && s.Filled().window.next > 0
    decreases s.window.Space()
  {
    if s.CanSend() && s.NextSegment().Length() != 0 {
      SpaceShrinks(s);
      SentNextCore(s);
      FilledCore(s.SentNext());
    }
  }

  /** Filling the window takes bytes from the stream, appends to the buffer and the queue, raises the
      next number, and touches nothing else. */
  ghost predicate Extends(s: Sender, t: Sender) {
    && t == s.(stream := s.stream.(readCount := t.stream.readCount),
               window := s.window.(buffer := t.window.buffer, next := t.window.next, faulted := t.window.faulted),
               out := t.out)
    && t.stream.readCount >= s.stream.readCount
    && s.window.buffer <= t.window.buffer
  }

  lemma {:induction false} FilledExtends(s: Sender)
    requires s.Valid()
    ensures Extends(s, s.Filled())
    decreases s.window.Space()
  {
    hide Unwrap, Sender.State, Window.Space;
    if s.CanSend() && s.NextSegment().Length() != 0 {
      SpaceShrinks(s);
      FilledExtends(s.SentNext());
    }
  }

  lemma FillExtends(s: Sender)
    requires s.Valid()
    ensures Extends(s, s.FillWindow())
  {
    hide Unwrap, Sender.Filled, Sender.State;
    FilledExtends(s.Opened());
  }

  lemma OpenedCore(s: Sender)
    requires Core(s)
    ensures Core(s.Opened()) && s.Opened().window.next > 0
    ensures s.window.next == 0 ==>
      s.Opened() == s.Emitted(s.Syn()) && s.Opened().window.next == 1 && !s.window.Full()
  {
    UnwrapAtCheckpoint(0, s.window.isn);
  }

  lemma CoreCanOpen(s: Sender)
    requires Core(s)
    ensures !(s.State().Closed? && s.window.Full())
  {
    hide Clocked;
    OpenedCore(s);
  }

  lemma FillCore(s: Sender)
    requires Core(s)
    ensures Core(s.FillWindow()) && s.FillWindow().window.next > 0
  {
    hide Core;
    OpenedCore(s);
    FilledCore(s.Opened());
  }

  /** The acknowledgment does not name the bare SYN number while the SYN is outstanding. */
  predicate Admissible(s: Sender, ackno: U32) {
    s.window.first == 0 ==> s.window.AckPosition(ackno) != 0
  }

  lemma BackoffStarts(initialRto: U16)
    ensures Backoff(initialRto, initialRto, 0)
  {
    assert Low64(Doubled(initialRto, 0)) == initialRto;
  }

  lemma BackoffDoubles(rto: U64, initialRto: U16, n: nat)
    requires Backoff(rto, initialRto, n)
    ensures Backoff(Low64(rto * 2), initialRto, n + 1) && Backoff(rto, initialRto, n + 1)
  {
    hide Low64;
    var k: nat :| k <= n && rto == Low64(Doubled(initialRto, k));
    LowDouble(Doubled(initialRto, k));
    assert Low64(rto * 2) == Low64(Doubled(initialRto, k + 1));
  }

  lemma LowDouble(x: nat)
    ensures Low64(Low64(x) * 2) == Low64(x * 2)
  {
  }

  lemma {:induction false} FilledClocked(s: Sender)
    requires s.Valid() && Clocked(s)
    ensures Clocked(s.Filled())
    decreases s.window.Space()
  {
    hide Clocked, Unwrap, Sender.State, Window.Space;
    if s.CanSend() && s.NextSegment().Length() != 0 {
      SpaceShrinks(s);
      SentNextClocked(s);
      FilledClocked(s.SentNext());
    }
  }

  lemma SentNextClocked(s: Sender)
    requires s.Valid() && Clocked(s)
    ensures Clocked(s.SentNext())
  {
    hide Unwrap, Timed, Backoff;
    EmittedClocked(s.(stream := s.stream.Pop(s.Chunk())), s.NextSegment());
  }

  lemma FillClocked(s: Sender)
    requires s.Valid() && Clocked(s)
    ensures Clocked(s.FillWindow())
  {
    hide Clocked, Sender.Filled, Sender.State;
    EmittedClocked(s, s.Syn());
    FilledClocked(s.Opened());
  }

  lemma AcknowledgedClocked(s: Sender, ackno: U32, win: U16)
    requires Clocked(s)
    ensures Clocked(s.Acknowledged(ackno, win))
  {
    hide Backoff, Window.Acked, Window.Advances;
    BackoffStarts(s.initialRto);
    AckedDropsFront(s.window, ackno, Max(win, 1));
  }

  lemma TickedClocked(s: Sender, ms: nat)
    requires Clocked(s)
    ensures Clocked(s.Ticked(ms))
  {
    hide Backoff;
    ExpiryFromTheFront(s.window.buffer, ms);
    BackoffDoubles(s.rto, s.initialRto, s.retransmissions);
  }

  lemma AcknowledgedCore(s: Sender, ackno: U32, win: U16)
    requires Core(s) && Admissible(s, ackno)
    ensures Core(s.Acknowledged(ackno, win))
  {
    hide Unwrap, Wrap, Clocked, Window.Search, Window.Position;
    AcknowledgedClocked(s, ackno, win);
  }

  /** The timers of a sorted buffer run out from the front. */
  lemma {:induction false} ExpiryFromTheFront(buffer: seq<Outstanding>, ms: nat)
    requires forall i, j | 0 <= i < j < |buffer| :: buffer[i].remaining <= buffer[j].remaining
    ensures Expired(buffer, ms) == [] <==> forall i | 0 <= i < |buffer| :: buffer[i].remaining > ms
    ensures Expired(buffer, ms) != [] ==>
              buffer[0].remaining <= ms && Expired(buffer, ms)[0] == buffer[0].segment
  {
    if buffer != [] {
      ExpiryFromTheFront(buffer[..|buffer| - 1], ms);
    }
  }

  lemma TickedCore(s: Sender, ms: nat)
    requires Core(s)
    ensures Core(s.Ticked(ms))
  {
    hide Clocked;
    TickedClocked(s, ms);
  }

  // ---------------------------------------------------------------- calls and runs

  /** A call on a sender or on the stream it reads from. */
  datatype Event =
    | WriteEvent(data: seq<Byte>)
    | EndEvent
    | FillEvent
    | AckEvent(ackno: U32, win: U16)
    | TickEvent(ms: nat)
    | EmptyEvent

  function React(s: Sender, e: Event): (s': Sender)
    requires s.Valid()
    ensures s'.Valid()
  {
    match e
    case WriteEvent(data) => s.(stream := s.stream.Write(data))
    case EndEvent => s.(stream := s.stream.(ended := true))
    case FillEvent => s.FillWindow()
    case AckEvent(ackno, win) => s.AckReceived(ackno, win)
    case TickEvent(ms) => s.Ticked(ms)
    case EmptyEvent => s.SentEmpty()
  }

  /** The call is one the theorems speak about, and the byte counters do not overflow. */
  ghost predicate Regular(s: Sender, e: Event)
    requires s.Valid()
  {
    && (e.AckEvent? ==> Admissible(s, e.ackno))
    && |React(s, e).stream.written| + 2 < TWO_64
  }

  lemma ReactCore(s: Sender, e: Event)
    requires Core(s) && Regular(s, e)
    ensures Core(React(s, e))
  {
    hide Unwrap, Wrap, Backoff, Timed, Window.Acked, Sender.FillWindow;
    match e
    case FillEvent => FillCore(s);
    case AckEvent(ackno, win) =>
      AcknowledgedCore(s, ackno, win);
      FillCore(s.Acknowledged(ackno, win));
    case TickEvent(ms) => TickedCore(s, ms);
    case _ =>
  }

  /** Whatever is called, and whatever is acknowledged. */
  lemma ReactClocked(s: Sender, e: Event)
    requires s.Valid() && Clocked(s)
    ensures Clocked(React(s, e))
  {
    hide Timed, Backoff, Window.Acked, Sender.FillWindow;
    match e
    case FillEvent => FillClocked(s);
    case AckEvent(ackno, win) =>
      AcknowledgedClocked(s, ackno, win);
      FillClocked(s.Acknowledged(ackno, win));
    case TickEvent(ms) => TickedClocked(s, ms);
    case _ =>
  }
}
