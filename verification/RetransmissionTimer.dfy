/** One timer per outstanding segment behaves as the single timer of section 5 of RFC 6298
    (libsponge/tcp_sending_window.cc, libsponge/tcp_sender.cc). */
module RetransmissionTimer {
  import opened Words
  import opened WrappingIntegers
  import opened Segments
  import opened SendingWindows
  import opened Sending
  import opened SenderInvariants
  import opened SenderRuns

  datatype Timer = Stopped | Running(left: nat)

  /** The single timer, its timeout, whether a closed window is being probed, and how often in a row the
      timer has run out. */
  datatype Rfc = Rfc(rto: nat, timer: Timer, probing: bool, expiries: nat) {

    /** Rule 5.1: sending starts the timer unless it is running. */
    function Started(): Rfc { if timer.Stopped? then this.(timer := Running(rto)) else this }

    /** An acknowledgment tells whether the window is closed. */
    function Advertised(win: U16): Rfc { this.(probing := win == 0) }

    /** Rules 5.2 and 5.3: new data is acknowledged; the timer stops when nothing is outstanding,
        and otherwise restarts. */
    function Restarted(initial: nat, outstanding: bool): Rfc {
      this.(rto := initial, timer := if outstanding then Running(initial) else Stopped, expiries := 0)
    }

    predicate Expires(ms: nat) { timer.Running? && timer.left <= ms }

    /** The timeout after an expiry: rule 5.5 doubles it, except while probing a closed window. */
    function Backed(): nat { if probing then rto else 2 * rto }

    /** Rules 5.5 and 5.6: on expiry the timeout backs off and the timer restarts. */
    function Elapsed(ms: nat): Rfc {
      if Expires(ms) then this.(rto := Backed(), timer := Running(Backed()), expiries := expiries + 1)
      else if timer.Running? then this.(timer := Running(timer.left - ms))
      else this
    }
  }

  /** How the buffer of timers looks as one timer. */
  function View(s: Sender): Rfc {
    Rfc(s.rto, if s.window.buffer == [] then Stopped else Running(s.window.buffer[0].remaining), s.zeroWindow,
        s.retransmissions)
  }

  function StartedIf(t: Rfc, sent: bool): Rfc { if sent then t.Started() else t }

  /** The call has put something on the queue. */
  predicate Transmits(s: Sender, e: Event)
    requires s.Valid()
  {
    React(s, e).out != s.out
  }

  /** What the rules say about one call. */
  function Ruled(t: Rfc, s: Sender, e: Event): Rfc
    requires s.Valid()
  {
    match e
    case FillEvent => StartedIf(t, Transmits(s, e))
    case AckEvent(ackno, win) =>
      var told, acked := t.Advertised(win), s.Acknowledged(ackno, win);
      StartedIf(if s.window.Advances(ackno) then told.Restarted(s.initialRto, acked.window.buffer != []) else told,
                Transmits(s, e))
    case TickEvent(ms) => t.Elapsed(ms)
    case _ => t
  }

  /** The call arms the timers with a timeout that does not fit their 32 bits. */
  predicate Truncates(s: Sender, e: Event) {
    e.TickEvent? && View(s).Expires(e.ms) && View(s).Backed() >= TWO_32
  }

  lemma {:induction false} DoubledGrows(x: nat, k: nat, n: nat)
    requires k <= n
    ensures Doubled(x, k) <= Doubled(x, n)
    decreases n - k
  {
    if k < n {
      DoubledGrows(x, k + 1, n);
    }
  }

  lemma DoubledSmall(x: nat)
    ensures Doubled(x, 8) == 0x100 * x && Doubled(x, 15) == 0x8000 * x
  {
    assert Doubled(x, 1) == 2 * x;
    assert Doubled(x, 2) == 4 * x;
    assert Doubled(x, 4) == 4 * Doubled(x, 2);
    assert Doubled(x, 6) == 4 * Doubled(x, 4);
    assert Doubled(x, 8) == 4 * Doubled(x, 6);
    assert Doubled(x, 10) == 4 * Doubled(x, 8);
    assert Doubled(x, 12) == 4 * Doubled(x, 10);
    assert Doubled(x, 14) == 4 * Doubled(x, 12);
  }

  lemma BackoffBound(rto: U64, initialRto: U16, n: nat)
    requires Backoff(rto, initialRto, n) && n <= 15
    ensures rto <= Doubled(initialRto, n) <= 0x8000 * initialRto
  {
    hide Low64;
    var k: nat :| k <= n && rto == Low64(Doubled(initialRto, k));
    DoubledSmall(initialRto);
    DoubledGrows(initialRto, k, n);
    DoubledGrows(initialRto, n, 15);
  }

  /** Nothing is truncated during the first fifteen retransmissions in a row. */
  lemma TimeoutFits(s: Sender, e: Event)
    requires Clocked(s) && s.retransmissions <= 15
    ensures !Truncates(s, e)
  {
    hide Low64, Timed, Backoff;
    BackoffBound(s.rto, s.initialRto, s.retransmissions);
  }

  /** A sender with nothing outstanding has its initial timeout. */
  lemma IdleTimeout(s: Sender)
    requires Clocked(s) && s.window.buffer == []
    ensures s.rto == s.initialRto
  {
    hide Timed;
    var k: nat :| k <= 0 && s.rto == Low64(Doubled(s.initialRto, k));
  }

  /** Sending leaves a running front timer alone, and a new front starts at the timeout. */
  lemma EmittedFront(s: Sender, seg: Segment)
    requires Clocked(s)
    ensures var t := s.Emitted(seg);
            && View(t) == StartedIf(View(s), t.out != s.out)
            && (t.out == s.out || t.out == s.out + [seg]) && t.stream == s.stream
  {
    hide Unwrap, Timed, Backoff;
    if s.window.buffer == [] {
      IdleTimeout(s);
    }
  }

  lemma {:induction false} FilledFront(s: Sender)
    requires s.Valid() && Clocked(s)
    ensures s.out <= s.Filled().out
    ensures View(s.Filled()) == StartedIf(View(s), s.Filled().out != s.out)
    decreases s.window.Space()
  {
    hide Sender.CanSend, Sender.NextSegment, Sender.Emitted, Clocked;
    if s.CanSend() && s.NextSegment().Length() != 0 {
      NotFullIfSending(s);
      SpaceShrinks(s);
      SentNextClocked(s);
      SentNextFront(s);
      FilledFront(s.SentNext());
    }
  }

  lemma SentNextFront(s: Sender)
    requires s.Valid() && Clocked(s)
    ensures View(s.SentNext()) == StartedIf(View(s), s.SentNext().out != s.out) && s.out <= s.SentNext().out
  {
    hide Sender.Emitted, Timed, Backoff;
    var u := s.(stream := s.stream.Pop(s.Chunk()));
    EmittedFront(u, s.NextSegment());
  }

  lemma NotFullIfSending(s: Sender)
    requires s.Valid() && s.CanSend()
    ensures !s.window.Full()
  {
  }

  lemma FillFront(s: Sender)
    requires s.Valid() && Clocked(s)
    ensures View(s.FillWindow()) == StartedIf(View(s), s.FillWindow().out != s.out)
  {
    hide Sender.Filled, Sender.Emitted, Sender.State, Clocked;
    EmittedFront(s, s.Syn());
    EmittedClocked(s, s.Syn());
    FilledFront(s.Opened());
  }

  lemma TickRefines(s: Sender, ms: nat)
    requires s.Valid() && Clocked(s)
    ensures View(s.Ticked(ms)) == View(s).Elapsed(ms) <==> !Truncates(s, TickEvent(ms))
    ensures s.Ticked(ms).out == s.out + if View(s).Expires(ms) then [s.window.buffer[0].segment] else []
  {
    hide Backoff, Low64;
    ExpiryFromTheFront(s.window.buffer, ms);
  }

  lemma AckRefines(s: Sender, ackno: U32, win: U16)
    requires s.Valid() && Clocked(s)
    ensures var told, t := View(s).Advertised(win), s.Acknowledged(ackno, win);
            View(t) == if s.window.Advances(ackno) then told.Restarted(s.initialRto, t.window.buffer != []) else told
  {
    hide Window.Acked, Window.Advances, Backoff;
    AckedDropsFront(s.window, ackno, Max(win, 1));
  }

  /** From any peer, every call does to the buffer of timers what the rules do to the one timer, if and
      only if no timeout is truncated; and a timer that runs out resends the oldest outstanding
      segment and nothing else. */
  lemma TimersRefineOneExactly(s: Sender, e: Event)
    requires s.Valid() && Clocked(s)
    ensures View(React(s, e)) == Ruled(View(s), s, e) <==> !Truncates(s, e)
    ensures e.TickEvent? ==>
              React(s, e).out == s.out + if View(s).Expires(e.ms) then [s.window.buffer[0].segment] else []
  {
    hide Sender.Acknowledged, Sender.Ticked, Clocked, Sender.FillWindow, View, Window.Advances;
    match e
    case FillEvent => FillFront(s);
    case AckEvent(ackno, win) =>
      AcknowledgedClocked(s, ackno, win);
      AckRefines(s, ackno, win);
      AckKeepsQueue(s, ackno, win);
      FillFront(s.Acknowledged(ackno, win));
    case TickEvent(ms) => TickRefines(s, ms);
    case _ => StreamKeepsView(s, e);
  }

  lemma AckKeepsQueue(s: Sender, ackno: U32, win: U16)
    ensures s.Acknowledged(ackno, win).out == s.out && s.Acknowledged(ackno, win).stream == s.stream
  {
    hide Window.Acked, Window.Advances;
  }

  lemma StreamKeepsView(s: Sender, e: Event)
    requires s.Valid() && !e.FillEvent? && !e.AckEvent? && !e.TickEvent?
    ensures View(React(s, e)) == View(s)
  {
  }

  /** The one timer followed through a run. */
  function Followed(s: Sender, events: seq<Event>): Rfc
    requires s.Valid()
  {
    if events == [] then View(s)
    else
      var n := |events| - 1;
      Ruled(Followed(s, events[..n]), Run(s, events[..n]), events[n])
  }

  /** In every run, whatever is called and acknowledged, as long as no timeout is truncated. */
  lemma {:induction false} RunRefinesOneTimer(s: Sender, events: seq<Event>)
    requires s.Valid() && Clocked(s)
    requires forall k | 0 <= k < |events| :: !Truncates(Run(s, events[..k]), events[k])
    ensures View(Run(s, events)) == Followed(s, events)
  {
    hide Clocked, Truncates, React, Ruled, View;
    if events != [] {
      var n := |events| - 1;
      Prefixes(events);
      RunRefinesOneTimer(s, events[..n]);
      RunClocked(s, events[..n]);
      TimersRefineOneExactly(Run(s, events[..n]), events[n]);
    }
  }

  // ---------------------------------------------------------------- probing

  /** The last acknowledgment, if there was one, advertised a closed window. */
  function LastSaidClosed(events: seq<Event>): bool {
    if events == [] then false
    else
      var n := |events| - 1;
      if events[n].AckEvent? then events[n].win == 0 else LastSaidClosed(events[..n])
  }

  lemma {:induction false} ProbingIsAsLastSaid(capacity: nat, rto: U16, isn: U32, events: seq<Event>)
    ensures Run(NewSender(capacity, rto, isn), events).zeroWindow == LastSaidClosed(events)
  {
    hide React;
    if events != [] {
      var n := |events| - 1;
      ProbingIsAsLastSaid(capacity, rto, isn, events[..n]);
      ReactProbing(Run(NewSender(capacity, rto, isn), events[..n]), events[n]);
    }
  }

  lemma ReactProbing(s: Sender, e: Event)
    requires s.Valid()
    ensures React(s, e).zeroWindow == if e.AckEvent? then e.win == 0 else s.zeroWindow
  {
    hide Window.Acked, Window.Advances, Sender.FillWindow;
    match e
    case FillEvent => FillExtends(s);
    case AckEvent(ackno, win) => FillExtends(s.Acknowledged(ackno, win));
    case _ =>
  }

  /** Over every run: when the front timer runs out, the timeout doubles, modulo 2^64, if the last
      acknowledgment did not advertise a closed window or there was none, and otherwise stays. */
  lemma BacksOffUnlessProbing(capacity: nat, rto: U16, isn: U32, events: seq<Event>, ms: nat)
    ensures var s := Run(NewSender(capacity, rto, isn), events);
            var t := s.Ticked(ms);
            t.rto == if s.window.buffer != [] && s.window.buffer[0].remaining <= ms && !LastSaidClosed(events)
                     then Low64(2 * s.rto) else s.rto
  {
    hide Run, Backoff;
    ProbingIsAsLastSaid(capacity, rto, isn, events);
    NewSenderHolds(capacity, rto, isn);
    RunClocked(NewSender(capacity, rto, isn), events);
    ExpiryFromTheFront(Run(NewSender(capacity, rto, isn), events).window.buffer, ms);
  }

  // ---------------------------------------------------------------- where bits are lost

  /** The SYN is sent and times out `n` times. */
  function Unanswered(n: nat): seq<Event> {
    if n == 0 then [FillEvent] else Unanswered(n - 1) + [TickEvent(TWO_32)]
  }

  /** One segment is out and has just been sent again. */
  ghost predicate JustResent(s: Sender) {
    |s.window.buffer| == 1 && !s.zeroWindow && s.window.buffer[0].remaining == Low32(s.rto)
  }

  lemma TimesOutAgain(s: Sender)
    requires JustResent(s)
    ensures JustResent(s.Ticked(TWO_32)) && s.Ticked(TWO_32).rto == Low64(2 * s.rto)
  {
    assert Expired(s.window.buffer[..0], TWO_32) == [];
  }

  lemma {:induction false} UnansweredBacksOff(capacity: nat, rto: U16, isn: U32, n: nat)
    requires n <= 16
    ensures var s := Run(NewSender(capacity, rto, isn), Unanswered(n));
            JustResent(s) && s.rto == Doubled(rto, n)
  {
    hide JustResent, Sender.FillWindow, Sender.Ticked, Low64;
    var s := NewSender(capacity, rto, isn);
    if n == 0 {
      assert [FillEvent][..0] == [];
      SynStartsTimer(capacity, rto, isn);
    } else {
      UnansweredBacksOff(capacity, rto, isn, n - 1);
      DoubledSmall(rto);
      DoubledGrows(rto, n - 1, 15);
      var t := Run(s, Unanswered(n - 1));
      TimesOutAgain(t);
      assert Run(s, Unanswered(n)) == React(t, TickEvent(TWO_32));
    }
  }

  lemma SynStartsTimer(capacity: nat, rto: U16, isn: U32)
    ensures var s := NewSender(capacity, rto, isn).FillWindow();
            JustResent(s) && s.rto == rto
  {
    UnwrapAtCheckpoint(0, isn);
    var s := NewSender(capacity, rto, isn);
    assert s.Opened().Filled() == s.Opened();
  }

  /** The one rule that the program breaks: with the largest initial timeout, the seventeenth expiry
      in a row arms the timers with a value that has lost its highest bit. */
  lemma SeventeenthTimeoutLosesBits(capacity: nat, isn: U32)
    ensures var s := Run(NewSender(capacity, 0xFFFF, isn), Unanswered(16));
            && Truncates(s, TickEvent(TWO_32))
            && React(s, TickEvent(TWO_32)).rto == 0x1_FFFE_0000
            && View(React(s, TickEvent(TWO_32))).timer == Running(0xFFFE_0000)
  {
    hide Unanswered, Run;
    UnansweredBacksOff(capacity, 0xFFFF, isn, 16);
    DoubledSmall(0xFFFF);
    assert Doubled(0xFFFF, 16) == 2 * Doubled(0xFFFF, 15);
    TimesOutAgain(Run(NewSender(capacity, 0xFFFF, isn), Unanswered(16)));
  }
}
