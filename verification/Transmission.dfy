/** What a sender puts on the wire (libsponge/tcp_sender.cc): first transmissions, their order and
    their contents. */
module Transmission {
  import opened Words
  import opened WrappingIntegers
  import opened Segments
  import opened Carriage
  import opened SendingWindows
  import opened Sending
  import opened SenderInvariants
  import opened Tiling

  /** The segments that the loop of `fill_window` sends. */
  function FilledNew(s: Sender): seq<Segment>
    requires s.Valid()
    decreases s.window.Space()
  {
    if !s.CanSend() || s.NextSegment().Length() == 0 then []
    else
      SpaceShrinks(s);
      [s.NextSegment()] + FilledNew(s.SentNext())
  }

  /** The segments that `fill_window` sends. */
  function FillNew(s: Sender): seq<Segment>
    requires s.Valid()
  {
    (if s.State().Closed? then [s.Syn()] else []) + FilledNew(s.Opened())
  }

  /** The segments that a call sends for the first time. */
  function New(s: Sender, e: Event): seq<Segment>
    requires s.Valid()
  {
    match e
    case FillEvent => FillNew(s)
    case AckEvent(ackno, win) => FillNew(s.Acknowledged(ackno, win))
    case _ => []
  }

  /** What is on the queue does not influence what is sent, and what is sent joins the queue. */
  lemma {:induction false} FilledIgnoresQueue(s: Sender, out: seq<Segment>)
    requires s.Valid()
    ensures s.(out := out).Filled() == s.Filled().(out := out + FilledNew(s))
    ensures FilledNew(s.(out := out)) == FilledNew(s)
    decreases s.window.Space()
  {
    hide Unwrap, Sender.State, Window.Space, Sender.CanSend, Sender.NextSegment, Sender.SentNext;
    var t := s.(out := out);
    SentNextIgnoresQueue(s, out);
    if s.CanSend() && s.NextSegment().Length() != 0 {
      FilledIgnoresQueue(s.SentNext(), t.SentNext().out);
      assert t.SentNext().out + FilledNew(s.SentNext()) == out + FilledNew(s);
    } else {
      assert out + FilledNew(s) == out;
    }
  }

  lemma SentNextIgnoresQueue(s: Sender, out: seq<Segment>)
    requires s.Valid()
    ensures var t := s.(out := out);
            && t.CanSend() == s.CanSend() && t.NextSegment() == s.NextSegment()
            && t.SentNext() == s.SentNext().(out := t.SentNext().out)
            && (s.CanSend() ==> t.SentNext().out == out + [s.NextSegment()])
            && (s.CanSend() && s.NextSegment().Length() != 0 ==> s.SentNext().window.Space() < s.window.Space())
  {
    hide Unwrap, Sender.State, Window.Space;
    StateIgnoresQueue(s, out);
    assert s.(out := out).NextSegment() == s.NextSegment();
    if s.CanSend() {
      SpaceShrinks(s);
    }
  }

  lemma FillIgnoresQueue(s: Sender, out: seq<Segment>)
    requires s.Valid() && !(s.State().Closed? && s.window.Full())
    ensures s.(out := out).FillWindow() == s.FillWindow().(out := out + FillNew(s))
    ensures FillNew(s.(out := out)) == FillNew(s)
  {
    hide Unwrap, Sender.Filled, Sender.State, Window.Full, FilledNew;
    StateIgnoresQueue(s, out);
    FilledIgnoresQueue(s.Opened(), s.(out := out).Opened().out);
    assert s.(out := out).Opened().out + FilledNew(s.Opened()) == out + FillNew(s);
  }

  lemma StateIgnoresQueue(s: Sender, out: seq<Segment>)
    ensures s.(out := out).State() == s.State()
  {
  }

  function Bytes(log: seq<Segment>): seq<Byte> {
    if log == [] then [] else Bytes(log[..|log| - 1]) + log[|log| - 1].payload
  }

  /** The `i`th first transmission carries the part of the stream that its place in the log names. */
  ghost predicate InPlace(log: seq<Segment>, i: nat, s: Sender)
    requires i < |log|
  {
    && log[i].Length() >= 1
    && (log[i].header.syn ==> log[i].Length() == 1)
    && |log[i].payload| <= MAX_PAYLOAD_SIZE
    && Carries(log[i], Span(log[..i]), s.window.isn, s.stream.written, s.stream.ended)
  }

  /** An empty segment that only shows a number up to the next one. */
  ghost predicate Idle(seg: Segment, s: Sender) {
    && seg.Length() == 0
    && exists v: nat :: v <= s.window.next && Carries(seg, v, s.window.isn, s.stream.written, s.stream.ended)
  }

  ghost predicate Genuine(seg: Segment, log: seq<Segment>, s: Sender) { seg in log || Idle(seg, s) }

  /** `log` is the list of all first transmissions: they tile the numbers used so far, their
      payloads are the bytes consumed, the buffer is a tail of them, and everything on the queue is
      one of them or empty. */
  ghost predicate Logged(s: Sender, log: seq<Segment>) {
    && Span(log) == s.window.next
    && (forall i | 0 <= i < |log| :: InPlace(log, i, s))
    && s.stream.Valid() && Bytes(log) == s.stream.written[..s.stream.readCount]
    && |s.window.buffer| <= |log|
    && Segs(s.window.buffer) == log[|log| - |s.window.buffer|..]
    && (forall seg | seg in s.out :: Genuine(seg, log, s))
  }

  lemma SpanAppend(log: seq<Segment>, seg: Segment)
    ensures Span(log + [seg]) == Span(log) + seg.Length()
    ensures Bytes(log + [seg]) == Bytes(log) + seg.payload
  {
    assert (log + [seg])[..|log|] == log;
  }

  lemma GenuineGrows(seg: Segment, log: seq<Segment>, log': seq<Segment>, s: Sender, s': Sender)
    requires Genuine(seg, log, s) && log <= log'
    requires s'.window.isn == s.window.isn && s'.window.next >= s.window.next
    requires s'.stream.written == s.stream.written && s'.stream.ended == s.stream.ended
    ensures Genuine(seg, log', s')
  {
    if seg !in log {
      var v: nat :| v <= s.window.next && Carries(seg, v, s.window.isn, s.stream.written, s.stream.ended);
    }
  }

  /** Sending a new segment extends the log. */
  lemma SendLogged(s: Sender, s': Sender, log: seq<Segment>, seg: Segment)
    requires Logged(s, log) && seg.Length() >= 1 && (seg.header.syn ==> seg.Length() == 1)
    requires |seg.payload| <= MAX_PAYLOAD_SIZE
    requires Carries(seg, s.window.next, s.window.isn, s.stream.written, s.stream.ended)
    requires s'.window.isn == s.window.isn && s'.window.next == s.window.next + seg.Length()
    requires s'.window.buffer == s.window.buffer + [Outstanding(seg, Low32(s.rto))]
    requires s'.out == s.out + [seg]
    requires s'.stream.Valid() && s'.stream.written == s.stream.written && s'.stream.ended == s.stream.ended
    requires s'.stream.written[..s'.stream.readCount] == s.stream.written[..s.stream.readCount] + seg.payload
    ensures Logged(s', log + [seg])
  {
    hide Carries, Span, Bytes;
    var log' := log + [seg];
    SpanAppend(log, seg);
    forall i | 0 <= i < |log'| ensures InPlace(log', i, s') {
      if i < |log| {
        assert InPlace(log, i, s);
        assert log'[..i] == log[..i];
      } else {
        assert log'[..i] == log;
      }
    }
    forall g | g in s'.out ensures Genuine(g, log', s') {
      if g in s.out {
        GenuineGrows(g, log, log', s, s');
      }
    }
  }

  lemma NextSegmentCarries(s: Sender)
    requires Core(s) && s.window.next > 0 && s.CanSend()
    ensures Carries(s.NextSegment(), s.window.next, s.window.isn, s.stream.written, s.stream.ended)
    ensures var t := s.SentNext().stream;
            t.written[..t.readCount] == s.stream.written[..s.stream.readCount] + s.NextSegment().payload
  {
    hide Unwrap, Wrap, Clocked;
    CanSendOnlyBetween(s);
  }

  lemma {:induction false} FilledLogged(s: Sender, log: seq<Segment>)
    requires Core(s) && s.window.next > 0 && Logged(s, log)
    ensures Logged(s.Filled(), log + FilledNew(s))
    decreases s.window.Space()
  {
    hide Logged, Carries, Numbered, Handshaking, Clocked, Sender.NextSegment, Sender.CanSend, Sender.SentNext;
    if s.CanSend() && s.NextSegment().Length() != 0 {
      var seg, t := s.NextSegment(), s.SentNext();
      StepLogged(s, log);
      FilledLogged(t, log + [seg]);
      assert log + FilledNew(s) == (log + [seg]) + FilledNew(t);
    } else {
      assert log + FilledNew(s) == log;
    }
  }

  lemma StepLogged(s: Sender, log: seq<Segment>)
    requires Core(s) && s.window.next > 0 && s.CanSend() && s.NextSegment().Length() != 0 && Logged(s, log)
    ensures Core(s.SentNext()) && s.SentNext().window.next > 0
    ensures s.SentNext().window.Space() < s.window.Space()
    ensures Logged(s.SentNext(), log + [s.NextSegment()])
  {
    hide Logged, Carries, Unwrap, Wrap, Clocked;
    SpaceShrinks(s);
    SentNextCore(s);
    NextSegmentCarries(s);
    SendLogged(s, s.SentNext(), log, s.NextSegment());
  }

  lemma OpenedLogged(s: Sender, log: seq<Segment>)
    requires Core(s) && Logged(s, log)
    ensures Logged(s.Opened(), log + if s.State().Closed? then [s.Syn()] else [])
  {
    hide Logged, Unwrap, Wrap, Clocked;
    OpenedCore(s);
    if s.State().Closed? {
      UnwrapAtCheckpoint(0, s.window.isn);
      SendLogged(s, s.Opened(), log, s.Syn());
    } else {
      assert log + [] == log;
    }
  }

  lemma FillLogged(s: Sender, log: seq<Segment>)
    requires Core(s) && Logged(s, log)
    ensures Logged(s.FillWindow(), log + FillNew(s))
  {
    hide Logged, Numbered, Handshaking, Clocked, Sender.Opened, Sender.State, Sender.Syn, Sender.Filled,
         FilledNew;
    OpenedCore(s);
    OpenedLogged(s, log);
    var opening := if s.State().Closed? then [s.Syn()] else [];
    FilledLogged(s.Opened(), log + opening);
    assert log + FillNew(s) == (log + opening) + FilledNew(s.Opened());
  }

  /** Only the window's left edge, its timers and the counters change. */
  lemma TailLogged(s: Sender, s': Sender, log: seq<Segment>, j: nat)
    requires Logged(s, log) && j <= |s.window.buffer|
    requires s'.window.isn == s.window.isn && s'.window.next == s.window.next
    requires s'.stream == s.stream && s'.out == s.out
    requires Segs(s'.window.buffer) == Segs(s.window.buffer[j..])
    ensures Logged(s', log)
  {
    hide Wrap, Span, Bytes, Carries;
    forall i | 0 <= i < |log| ensures InPlace(log, i, s') {
      assert InPlace(log, i, s);
    }
    assert Segs(s.window.buffer[j..]) == Segs(s.window.buffer)[j..];
    forall g | g in s'.out ensures Genuine(g, log, s') {
      GenuineGrows(g, log, log, s, s');
    }
  }

  lemma AcknowledgedLogged(s: Sender, ackno: U32, win: U16, log: seq<Segment>)
    requires Logged(s, log)
    ensures Logged(s.Acknowledged(ackno, win), log)
  {
    hide Logged, Window.Acked, Window.AckPosition;
    AckedDropsFront(s.window, ackno, Max(win, 1));
    var t := s.Acknowledged(ackno, win);
    TailLogged(s, t, log, |s.window.buffer| - |t.window.buffer|);
  }

  /** A retransmission repeats a first transmission. */
  lemma TickedLogged(s: Sender, ms: nat, log: seq<Segment>)
    requires Core(s) && Logged(s, log)
    ensures Logged(s.Ticked(ms), log)
  {
    hide Unwrap, Wrap, Span, Bytes, Carries, Backoff, Numbered, Handshaking;
    ExpiryFromTheFront(s.window.buffer, ms);
    var t := s.Ticked(ms);
    forall i | 0 <= i < |log| ensures InPlace(log, i, t) {
      assert InPlace(log, i, s);
    }
    assert Segs(t.window.buffer) == Segs(s.window.buffer);
    if t.out != s.out {
      var seg := s.window.buffer[0].segment;
      assert seg == Segs(s.window.buffer)[0] && seg in log;
    }
    forall g | g in t.out ensures Genuine(g, log, t) {
      if g in s.out {
        GenuineGrows(g, log, log, s, t);
      }
    }
  }

  /** The application writes to the stream or ends it. */
  lemma StreamLogged(s: Sender, s': Sender, log: seq<Segment>)
    requires Core(s) && Logged(s, log)
    requires s' == s.(stream := s'.stream)
    requires s.stream.written <= s'.stream.written && s'.stream.readCount == s.stream.readCount && s'.stream.Valid()
    requires s.stream.ended ==> s'.stream.ended && s'.stream.written == s.stream.written
    ensures Logged(s', log)
  {
    hide Wrap, Span, Bytes;
    forall i | 0 <= i < |log| ensures InPlace(log, i, s') {
      assert InPlace(log, i, s);
    }
    forall g | g in s'.out ensures Genuine(g, log, s') {
      if g !in log {
        var v: nat :| v <= s.window.next && Carries(g, v, s.window.isn, s.stream.written, s.stream.ended);
        CarriesExtends(g, v, s.window.isn, s.stream.written, s.stream.ended, s'.stream.written, s'.stream.ended);
      }
    }
  }

  lemma EmptyLogged(s: Sender, log: seq<Segment>)
    requires Core(s) && Logged(s, log)
    ensures Logged(s.SentEmpty(), log)
  {
    hide Wrap, Span, Bytes;
    var t := s.SentEmpty();
    forall i | 0 <= i < |log| ensures InPlace(log, i, t) {
      assert InPlace(log, i, s);
    }
    forall g | g in t.out ensures Genuine(g, log, t) {
      if g in s.out {
        GenuineGrows(g, log, log, s, t);
      } else {
        assert Carries(g, s.window.next, s.window.isn, s.stream.written, s.stream.ended);
      }
    }
  }

  /** Every call keeps the log, extended by what it sends for the first time. */
  lemma ReactLogged(s: Sender, e: Event, log: seq<Segment>)
    requires Core(s) && Regular(s, e) && Logged(s, log)
    ensures Logged(React(s, e), log + New(s, e))
  {
    hide Logged, Carries, Clocked, Window.Acked, Sender.FillWindow, FillNew;
    assert log + [] == log;
    match e
    case WriteEvent(data) => StreamLogged(s, React(s, e), log);
    case EndEvent => StreamLogged(s, React(s, e), log);
    case FillEvent => FillLogged(s, log);
    case AckEvent(ackno, win) =>
      AcknowledgedCore(s, ackno, win);
      AcknowledgedLogged(s, ackno, win, log);
      FillLogged(s.Acknowledged(ackno, win), log);
    case TickEvent(ms) => TickedLogged(s, ms, log);
    case EmptyEvent => EmptyLogged(s, log);
  }
}
