/** What one endpoint may send to another, before and after it has been reset
    (libsponge/tcp_sender.cc, libsponge/tcp_connection.cc). */
module Wire {
  import opened Words
  import opened WrappingIntegers
  import opened Segments
  import opened Carriage
  import opened SendingWindows
  import opened Sending
  import opened SenderInvariants
  import opened Tiling
  import opened Transmission
  import opened SenderRuns
  import opened Protocol
  import opened Lifecycle

  // ---------------------------------------------------------------- segments

  /** One FIN too many: a sender that has been reset fills its window with FINs. */
  predicate Surplus(seg: Segment, v: nat, s: Sender) {
    && s.stream.error && s.stream.ended && |s.stream.written| + 1 < v < s.window.next && v < TWO_64
    && seg.header.seqno == Wrap(v, s.window.isn)
    && seg.payload == [] && seg.header.fin && !seg.header.syn
  }

  /** The segment takes up no numbers, or carries what its number names in the stream of its sender, or is
      a FIN too many. A sender that is reset before it has `begun` never sends a SYN. */
  ghost predicate Truthful(seg: Segment, s: Sender, begun: bool) {
    || seg.Length() == 0
    || (!begun && s.stream.error && !seg.header.syn)
    || (begun && exists v: nat :: Carries(seg, v, s.window.isn, s.stream.written, s.stream.ended))
    || (begun && exists v: nat :: Surplus(seg, v, s))
  }

  /** What one endpoint relies on in the other: its sender, whether that has sent its SYN, how far into
      its numbers our acknowledgments go, and how far into ours its acknowledgments go. */
  datatype Peer = Peer(sender: Sender, begun: bool, limit: nat, cap: nat)

  /** A segment from the endpoint of `s` to `peer`. */
  ghost predicate Proper(seg: Segment, s: Sender, begun: bool, peer: Peer) {
    && Truthful(seg, s, begun)
    && (seg.header.ack ==> Known(seg.header.ackno, peer.sender.window.isn, peer.limit))
    && (seg.header.fin && begun ==> seg.header.ack)
  }

  ghost predicate Wired(out: seq<Segment>, s: Sender, begun: bool, peer: Peer) {
    forall seg | seg in out :: Proper(seg, s, begun, peer)
  }

  /** The stream has only grown or ended, and a sender that was reset still is and has not run out of
      numbers. */
  predicate Grows(s: Sender, t: Sender) {
    && t.window.isn == s.window.isn && s.stream.written <= t.stream.written
    && (s.stream.ended ==> t.stream.ended && t.stream.written == s.stream.written)
    && (s.stream.error ==> t.stream.error && s.window.next <= t.window.next)
  }

  /** The peer has only gone on. */
  predicate Advanced(p: Peer, q: Peer) {
    Grows(p.sender, q.sender) && (p.begun ==> q.begun) && p.limit <= q.limit && p.cap <= q.cap
  }

  lemma TruthfulGrows(seg: Segment, s: Sender, t: Sender, begun: bool)
    requires Truthful(seg, s, begun) && Grows(s, t)
    ensures Truthful(seg, t, begun)
  {
    hide Carries, Wrap;
    if seg.Length() != 0 && begun {
      if v: nat :| Carries(seg, v, s.window.isn, s.stream.written, s.stream.ended) {
        CarriesExtends(seg, v, s.window.isn, s.stream.written, s.stream.ended, t.stream.written, t.stream.ended);
      } else {
        var v: nat :| Surplus(seg, v, s);
        assert Surplus(seg, v, t);
      }
    }
  }

  lemma WiredGrows(out: seq<Segment>, s: Sender, t: Sender, begun: bool, peer: Peer, peer': Peer)
    requires Wired(out, s, begun, peer) && Grows(s, t) && Advanced(peer, peer')
    ensures Wired(out, t, begun, peer')
  {
    hide Truthful, Known;
    forall seg | seg in out ensures Proper(seg, t, begun, peer') {
      assert Proper(seg, s, begun, peer);
      TruthfulGrows(seg, s, t, begun);
      if seg.header.ack {
        KnownExtends(seg.header.ackno, peer.sender.window.isn, peer.limit, peer'.limit);
      }
    }
  }

  /** Before the SYN has gone out, a sender that has not been reset has sent only empty segments. */
  lemma WiredOpens(out: seq<Segment>, s: Sender, begun: bool, begun': bool, peer: Peer)
    requires Wired(out, s, begun, peer) && !s.stream.error && (begun ==> begun')
    ensures Wired(out, s, begun', peer)
  {
    hide Known, Carries;
    forall seg | seg in out ensures Proper(seg, s, begun', peer) {
      assert Proper(seg, s, begun, peer);
    }
  }

  // ---------------------------------------------------------------- a sender in order

  /** What waits in the sender's queue: an acknowledgment, or a FIN, only once the peer's SYN is `heard`. */
  ghost predicate Queueable(seg: Segment, s: Sender, begun: bool, heard: bool) {
    Truthful(seg, s, begun) && (seg.header.ack ==> heard) && (seg.header.fin && begun ==> heard)
  }

  /** `log` lists all first transmissions, and the queue holds only what may be sent. */
  ghost predicate Speaks(s: Sender, log: seq<Segment>, heard: bool) {
    && Logged(s.(out := []), log)
    && (forall seg | seg in log :: !seg.header.ack)
    && (s.window.first > 0 ==> heard)
    && (forall seg | seg in s.out :: Queueable(seg, s, log != [], heard))
  }

  lemma {:induction false} FilledNewIsPlain(s: Sender)
    requires s.Valid()
    ensures forall seg | seg in FilledNew(s) :: !seg.header.ack
    decreases s.window.Space()
  {
    hide Unwrap, Sender.State, Window.Space;
    if s.CanSend() && s.NextSegment().Length() != 0 {
      SpaceShrinks(s);
      FilledNewIsPlain(s.SentNext());
    }
  }

  lemma FillNewIsPlain(s: Sender)
    requires s.Valid()
    ensures forall seg | seg in FillNew(s) :: !seg.header.ack
  {
    hide FilledNew, Sender.State;
    FilledNewIsPlain(s.Opened());
  }

  /** A first transmission may be queued: it carries its part of the stream, and a FIN comes after the
      SYN has been acknowledged. */
  lemma LoggedIsQueueable(s: Sender, log: seq<Segment>, heard: bool, seg: Segment)
    requires Core(s) && Logged(s.(out := []), log) && seg in log && !seg.header.ack
    requires s.window.first > 0 ==> heard
    ensures Queueable(seg, s, true, heard)
  {
    hide Clocked, Bytes, Wrap;
    var i :| 0 <= i < |log| && log[i] == seg;
    assert InPlace(log, i, s.(out := []));
    assert log[..i + 1] == log[..i] + [seg];
    SpanAppend(log[..i], seg);
    SpanSplit(log, i + 1);
  }

  lemma FillSpeaks(s: Sender, rto: U16, log: seq<Segment>, heard: bool)
    requires Good(s, rto) && Speaks(s, log, heard)
    ensures Speaks(s.FillWindow(), log + FillNew(s), heard)
  {
    hide Core, Tiled, Logged, Sender.FillWindow, FillNew, Queueable;
    GoodIsSound(s, rto);
    var t, log' := s.FillWindow(), log + FillNew(s);
    FillExtends(s);
    FillCore(s);
    FillNewIsPlain(s);
    CoreCanOpen(s);
    FillIgnoresQueue(s, []);
    FillIgnoresQueue(s, s.out);
    assert s.(out := s.out) == s;
    assert t.out == s.out + FillNew(s);
    FillBareLogged(s, log);
    forall seg | seg in t.out ensures Queueable(seg, t, log' != [], heard) {
      if seg in s.out {
        StillQueueable(seg, s, t, log != [], log' != [], heard);
      } else {
        assert seg in log';
        LoggedIsQueueable(t, log', heard, seg);
      }
    }
  }

  lemma FillBareLogged(s: Sender, log: seq<Segment>)
    requires Core(s) && s.Valid() && Logged(s.(out := []), log)
    ensures Logged(s.FillWindow().(out := []), log + FillNew(s))
  {
    hide Clocked, Numbered, Handshaking, Logged, Sender.FillWindow, FillNew;
    var bare := s.(out := []);
    CoreIgnoresQueue(s, []);
    CoreCanOpen(s);
    FillIgnoresQueue(s, []);
    FillLogged(bare, log);
    QueueDropped(bare.FillWindow(), log + FillNew(s));
    FillIgnoresQueue(s, s.out);
    assert s.(out := s.out) == s;
    assert bare.FillWindow().(out := []) == s.FillWindow().(out := []);
  }

  lemma CoreIgnoresQueue(s: Sender, out: seq<Segment>)
    requires Core(s)
    ensures Core(s.(out := out))
  {
  }

  lemma QueueDropped(s: Sender, log: seq<Segment>)
    requires Logged(s, log)
    ensures Logged(s.(out := []), log)
  {
    hide Carries, Span, Bytes;
    forall i | 0 <= i < |log| ensures InPlace(log, i, s.(out := [])) {
      assert InPlace(log, i, s);
    }
  }

  predicate SameStream(s: Sender, t: Sender) {
    && t.window.isn == s.window.isn && t.stream.written == s.stream.written && t.stream.ended == s.stream.ended
  }

  lemma StillQueueable(seg: Segment, s: Sender, t: Sender, begun: bool, begun': bool, heard: bool)
    requires Queueable(seg, s, begun, heard) && SameStream(s, t) && !s.stream.error && (begun ==> begun')
    ensures Queueable(seg, t, begun', heard)
  {
    hide Carries;
  }

  lemma KnownIsAdmissible(s: Sender, ackno: U32, cap: nat)
    requires Core(s) && Short(s) && cap < TWO_31 && Known(ackno, s.window.isn, cap)
    ensures Admissible(s, ackno) && s.window.AckPosition(ackno) <= cap
  {
    hide Clocked, Wrap, Unwrap;
    var c: nat :| AckFor(ackno, c, s.window.isn, cap);
    UnwrapInvertsWrap(c, s.window.isn, s.window.next);
  }

  /** The peer acknowledges. */
  lemma AckSpeaks(s: Sender, rto: U16, log: seq<Segment>, ackno: U32, win: U16, cap: nat)
    requires Good(s, rto) && Speaks(s, log, true) && Short(s) && cap < TWO_31 && Known(ackno, s.window.isn, cap)
    ensures Good(s.AckReceived(ackno, win), rto)
    ensures Speaks(s.AckReceived(ackno, win), log + FillNew(s.Acknowledged(ackno, win)), true)
    ensures s.AckReceived(ackno, win).window.first <= Max(s.window.first, cap)
  {
    hide Core, Tiled, Logged, Window.Search, Window.Trimmed, Sender.FillWindow, FillNew, Window.AckPosition, Queueable,
         Known, Narrow, Straddled, Low64;
    var t := s.Acknowledged(ackno, win);
    KnownIsAdmissible(s, ackno, cap);
    SmallIsReadable(s);
    GoodIsSound(s, rto);
    AcknowledgedCore(s, ackno, win);
    AcknowledgedTiles(s, ackno, win);
    AcknowledgedLogged(s.(out := []), ackno, win, log);
    assert s.(out := []).Acknowledged(ackno, win) == t.(out := []);
    forall seg | seg in t.out ensures Queueable(seg, t, log != [], true) {
      StillQueueable(seg, s, t, log != [], log != [], true);
    }
    FillSpeaks(t, rto, log, true);
    GoodFill(t, rto);
    FillExtends(t);
  }

  lemma TickSpeaks(s: Sender, rto: U16, log: seq<Segment>, heard: bool, ms: nat)
    requires Good(s, rto) && Speaks(s, log, heard)
    ensures Speaks(s.Ticked(ms), log, heard)
  {
    hide Tiled, Logged, Queueable, Numbered, Handshaking, Backoff;
    var t := s.Ticked(ms);
    var bare := s.(out := []);
    CoreIgnoresQueue(s, []);
    TickedLogged(bare, ms, log);
    QueueDropped(bare.Ticked(ms), log);
    assert bare.Ticked(ms).(out := []) == t.(out := []);
    ExpiryFromTheFront(s.window.buffer, ms);
    forall seg | seg in t.out ensures Queueable(seg, t, log != [], heard) {
      if seg !in s.out {
        FrontIsLogged(bare, log, seg);
        LoggedIsQueueable(s, log, heard, seg);
      }
      StillQueueable(seg, s, t, log != [], log != [], heard);
    }
  }

  lemma FrontIsLogged(s: Sender, log: seq<Segment>, seg: Segment)
    requires Logged(s, log) && s.window.buffer != [] && seg == s.window.buffer[0].segment
    ensures seg in log
  {
    assert seg == Segs(s.window.buffer)[0];
  }

  /** The application writes or ends its stream. */
  lemma StreamSpeaks(s: Sender, t: Sender, log: seq<Segment>, heard: bool)
    requires Core(s) && Speaks(s, log, heard) && Grows(s, t) && t.stream.Valid()
    requires t == s.(stream := t.stream) && t.stream.readCount == s.stream.readCount
    ensures Speaks(t, log, heard)
  {
    hide Core, Logged, Truthful;
    CoreIgnoresQueue(s, []);
    StreamLogged(s.(out := []), t.(out := []), log);
    forall seg | seg in t.out ensures Queueable(seg, t, log != [], heard) {
      assert Queueable(seg, s, log != [], heard);
      TruthfulGrows(seg, s, t, log != []);
    }
  }

  lemma QueueSpeaks(s: Sender, log: seq<Segment>, heard: bool, seg: Segment)
    requires Speaks(s, log, heard) && seg.Length() == 0 && (seg.header.ack ==> heard)
    ensures Speaks(s.Queued(seg), log, heard)
  {
    hide Logged, Carries;
    forall g | g in s.Queued(seg).out ensures Queueable(g, s.Queued(seg), log != [], heard) {
      if g in s.out {
        assert Queueable(g, s, log != [], heard);
        TruthfulGrows(g, s, s.Queued(seg), log != []);
      }
    }
  }

  lemma SpeaksOnceHeard(s: Sender, log: seq<Segment>, heard: bool)
    requires Speaks(s, log, heard)
    ensures Speaks(s, log, true)
  {
    hide Logged, Truthful;
  }

  lemma SpeaksEmptied(s: Sender, log: seq<Segment>, heard: bool)
    requires Speaks(s, log, heard)
    ensures Speaks(s.(out := []), log, heard)
  {
    hide Logged;
  }

  // ---------------------------------------------------------------- a sender that has been reset

  /** The next number is the SYN, plus the bytes taken from the stream, plus any number of FINs. */
  predicate Overnumbered(s: Sender) {
    && s.window.next > 0 && Handshaking(s.window)
    && (s.window.next == 1 + s.stream.readCount || (s.window.next > 1 + s.stream.readCount && s.stream.Eof()))
  }

  ghost predicate Lapsed(s: Sender, begun: bool, heard: bool) {
    && s.Valid() && s.stream.error
    && (begun ==> Overnumbered(s) && (s.window.first > 0 ==> heard))
    && (forall i | 0 <= i < |s.window.buffer| :: Queueable(s.window.buffer[i].segment, s, begun, heard))
    && (forall seg | seg in s.out :: Queueable(seg, s, begun, heard))
  }

  lemma LogOpens(s: Sender, log: seq<Segment>)
    requires Core(s) && Logged(s, log)
    ensures log == [] ==> s.window.buffer == []
    ensures log != [] ==> s.window.next > 0
  {
    hide Clocked, Bytes, Carries;
    if log != [] {
      var n := |log| - 1;
      assert InPlace(log, n, s);
      assert Span(log) == Span(log[..n]) + log[n].Length();
    } else {
      assert |Segs(s.window.buffer)| == 0;
    }
  }

  /** A sender in order is reset. */
  lemma SpeakerLapses(s: Sender, log: seq<Segment>, heard: bool)
    requires Core(s) && Speaks(s, log, heard)
    ensures Lapsed(s.(stream := s.stream.(error := true)), log != [], heard)
  {
    hide Clocked, Logged, Truthful;
    var t := s.(stream := s.stream.(error := true));
    CoreIgnoresQueue(s, []);
    LogOpens(s.(out := []), log);
    forall i | 0 <= i < |t.window.buffer| ensures Queueable(t.window.buffer[i].segment, t, log != [], heard) {
      BufferIsLogged(s.(out := []), log, i);
      LoggedIsQueueable(s, log, heard, s.window.buffer[i].segment);
      TruthfulGrows(s.window.buffer[i].segment, s, t, log != []);
    }
    forall seg | seg in t.out ensures Queueable(seg, t, log != [], heard) {
      assert Queueable(seg, s, log != [], heard);
      TruthfulGrows(seg, s, t, log != []);
    }
  }

  lemma BufferIsLogged(s: Sender, log: seq<Segment>, i: nat)
    requires Logged(s, log) && i < |s.window.buffer|
    ensures s.window.buffer[i].segment in log
  {
    assert s.window.buffer[i].segment == Segs(s.window.buffer)[i];
  }

  /** How far the next number moves: as far as the space shrinks, modulo 2^64. */
  lemma {:induction false} FilledMoves(s: Sender)
    requires s.Valid()
    ensures var t := s.Filled();
            && t.window.Space() <= s.window.Space()
            && t.window.next == Low64(s.window.next + (s.window.Space() - t.window.Space()))
    decreases s.window.Space()
  {
    hide Unwrap, Sender.State, Window.Space, Sender.NextSegment, Low64;
    if s.CanSend() && s.NextSegment().Length() != 0 {
      SpaceShrinks(s);
      FilledMoves(s.SentNext());
      var n, l := s.window.next, s.NextSegment().Length();
      LowStep(n, l, s.SentNext().window.Space() - s.Filled().window.Space());
    } else {
      assert Low64(s.window.next) == s.window.next;
    }
  }

  lemma LowStep(n: nat, l: nat, d: nat)
    ensures Low64(Low64(n + l) + d) == Low64(n + l + d)
  {
  }

  /** If the next number has not wrapped round in the end, it has not wrapped round on the way. */
  lemma NoWrapOnTheWay(s: Sender)
    requires s.Valid() && s.CanSend() && s.NextSegment().Length() != 0 && s.Filled().window.next >= s.window.next
    ensures s.SentNext().window.next == s.window.next + s.NextSegment().Length()
    ensures s.SentNext().Filled().window.next >= s.SentNext().window.next
  {
    hide Unwrap, Window.Space, Sender.CanSend, Sender.SentNext, Sender.NextSegment, Low64;
    NotFullWhenSending(s);
    SpaceShrinks(s);
    FilledMoves(s);
    var t, u := s.SentNext(), s.Filled();
    assert t.Filled() == u;
    FilledMoves(t);
    NoWrap(s.window.next, s.NextSegment().Length(), s.window.Space() - u.window.Space());
  }

  lemma NoWrap(n: U64, l: nat, d: nat)
    requires l <= d < TWO_64 && Low64(n + d) >= n
    ensures Low64(n + l) == n + l <= Low64(n + l + (d - l))
  {
    assert n + d < TWO_64;
  }

  /** A sender that has been reset and may send has had its SYN acknowledged. */
  lemma LapsedIsOpen(s: Sender)
    requires s.Valid() && Overnumbered(s) && s.CanSend()
    ensures s.window.first > 0
  {
  }

  /** It sends the next part of its stream, with the FIN at the end of it. */
  lemma LapsedCarries(s: Sender)
    requires s.Valid() && s.window.next == 1 + s.stream.readCount && s.window.next < TWO_64
    ensures Carries(s.NextSegment(), s.window.next, s.window.isn, s.stream.written, s.stream.ended)
  {
    hide Wrap, Sender.State, Window.Space;
  }

  /** Or, if that has been sent, another FIN. */
  lemma LapsedSurplus(s: Sender, t: Sender)
    requires s.Valid() && s.stream.error && s.window.next > 1 + s.stream.readCount && s.stream.Eof()
    requires s.NextSegment().Length() != 0 && t.window.next == s.window.next + s.NextSegment().Length()
    requires t.window.isn == s.window.isn && t.stream.error && t.stream.ended && t.stream.written == s.stream.written
    ensures Surplus(s.NextSegment(), s.window.next, t) && s.NextSegment().payload == []
  {
    hide Wrap, Sender.State, Window.Space;
  }

  lemma SentNextStream(s: Sender)
    requires s.Valid() && !s.window.Full()
    ensures var t := s.SentNext();
            && t.stream == s.stream.(readCount := s.stream.readCount + |s.NextSegment().payload|)
            && t.window == s.window.(buffer := t.window.buffer, next := t.window.next)
            && t.window.buffer != []
  {
    hide Wrap, Unwrap, Sender.State, Window.Space, Window.Full;
  }

  /** What a sender that has been reset sends next. */
  lemma LapsedSends(s: Sender, begun: bool, heard: bool)
    requires Lapsed(s, begun, heard) && s.CanSend() && s.NextSegment().Length() != 0
    requires begun ==> s.SentNext().window.next == s.window.next + s.NextSegment().Length()
    ensures Queueable(s.NextSegment(), s.SentNext(), begun, heard)
    ensures begun ==> Overnumbered(s.SentNext()) && (s.SentNext().window.first > 0 ==> heard)
  {
    hide Wrap, Unwrap, Queueable, Carries, Sender.NextSegment, Sender.SentNext, Sender.CanSend, Surplus;
    var seg, t := s.NextSegment(), s.SentNext();
    NotFullWhenSending(s);
    SentNextStream(s);
    if begun {
      LapsedIsOpen(s);
      if s.window.next == 1 + s.stream.readCount {
        LapsedCarries(s);
        assert Carries(seg, s.window.next, t.window.isn, t.stream.written, t.stream.ended);
        FinOnlyAtEnd(s);
      } else {
        LapsedSurplus(s, t);
      }
    }
    PlainIsQueueable(s, begun, heard);
  }

  lemma FinOnlyAtEnd(s: Sender)
    requires s.Valid()
    ensures var seg := s.NextSegment();
            && (seg.header.fin ==> s.stream.ended && s.stream.readCount + |seg.payload| == |s.stream.written|)
            && !seg.header.syn
  {
    hide Wrap, Sender.State, Window.Space;
  }

  lemma PlainIsQueueable(s: Sender, begun: bool, heard: bool)
    requires s.Valid() && s.stream.error && (begun ==> heard)
    requires begun ==> Truthful(s.NextSegment(), s.SentNext(), begun)
    ensures Queueable(s.NextSegment(), s.SentNext(), begun, heard)
  {
    hide Carries, Unwrap;
  }

  lemma {:induction false} FilledLapsed(s: Sender, begun: bool, heard: bool)
    requires Lapsed(s, begun, heard) && (begun ==> s.Filled().window.next >= s.window.next)
    ensures Lapsed(s.Filled(), begun, heard)
    decreases s.window.Space()
  {
    hide Unwrap, Sender.State, Window.Space, Queueable, Sender.NextSegment, Sender.CanSend, Overnumbered;
    if s.CanSend() && s.NextSegment().Length() != 0 {
      var t := s.SentNext();
      NotFullWhenSending(s);
      SpaceShrinks(s);
      if begun {
        NoWrapOnTheWay(s);
      }
      LapsedSends(s, begun, heard);
      LapsedStep(s, begun, heard);
      FilledLapsed(t, begun, heard);
    }
  }

  lemma NotFullWhenSending(s: Sender)
    requires s.Valid() && s.CanSend()
    ensures !s.window.Full()
  {
  }

  lemma LapsedStep(s: Sender, begun: bool, heard: bool)
    requires Lapsed(s, begun, heard) && !s.window.Full()
    requires Queueable(s.NextSegment(), s.SentNext(), begun, heard)
    requires begun ==> Overnumbered(s.SentNext()) && (s.SentNext().window.first > 0 ==> heard)
    requires begun ==> s.SentNext().window.next >= s.window.next
    ensures Lapsed(s.SentNext(), begun, heard)
  {
    hide Unwrap, Truthful, Overnumbered, Sender.NextSegment, Window.Full;
    var t := s.SentNext();
    forall i | 0 <= i < |t.window.buffer| ensures Queueable(t.window.buffer[i].segment, t, begun, heard) {
      if i < |s.window.buffer| {
        LapsedStays(s.window.buffer[i].segment, s, t, begun, heard);
      }
    }
    forall seg | seg in t.out ensures Queueable(seg, t, begun, heard) {
      if seg in s.out {
        LapsedStays(seg, s, t, begun, heard);
      }
    }
  }

  lemma LapsedStays(seg: Segment, s: Sender, t: Sender, begun: bool, heard: bool)
    requires Queueable(seg, s, begun, heard) && (begun ==> s.window.next <= t.window.next)
    requires t.window.isn == s.window.isn && t.stream.error && s.stream.written <= t.stream.written
    requires s.stream.ended ==> t.stream.ended && t.stream.written == s.stream.written
    ensures Queueable(seg, t, begun, heard)
  {
    hide Carries;
    if begun {
      TruthfulGrows(seg, s, t, begun);
    }
  }

  lemma FillLapsed(s: Sender, begun: bool, heard: bool)
    requires Lapsed(s, begun, heard) && (begun ==> s.FillWindow().window.next >= s.window.next)
    ensures Lapsed(s.FillWindow(), begun, heard)
  {
    hide Queueable, Sender.Filled;
    assert s.Opened() == s;
    FilledLapsed(s, begun, heard);
  }

  lemma {:induction false} ExpiredIsBuffered(buffer: seq<Outstanding>, ms: nat, seg: Segment) returns (i: nat)
    requires seg in Expired(buffer, ms)
    ensures i < |buffer| && buffer[i].segment == seg
  {
    var n := |buffer| - 1;
    if buffer[n].segment == seg {
      i := n;
    } else {
      i := ExpiredIsBuffered(buffer[..n], ms, seg);
    }
  }

  lemma TickLapsed(s: Sender, begun: bool, heard: bool, ms: nat)
    requires Lapsed(s, begun, heard)
    ensures Lapsed(s.Ticked(ms), begun, heard)
  {
    hide Truthful;
    var t := s.Ticked(ms);
    forall i | 0 <= i < |t.window.buffer| ensures Queueable(t.window.buffer[i].segment, t, begun, heard) {
      assert t.window.buffer[i].segment == s.window.buffer[i].segment;
      LapsedStays(s.window.buffer[i].segment, s, t, begun, heard);
    }
    forall seg | seg in t.out ensures Queueable(seg, t, begun, heard) {
      if seg !in s.out {
        var i := ExpiredIsBuffered(s.window.buffer, ms, seg);
      }
      LapsedStays(seg, s, t, begun, heard);
    }
  }

  /** The queue or the stream of a sender that has been reset changes. */
  lemma LapsedGoesOn(s: Sender, t: Sender, begun: bool, heard: bool)
    requires Lapsed(s, begun, heard) && t == s.(stream := t.stream, out := t.out) && Grows(s, t)
    requires t.stream.readCount == s.stream.readCount && t.stream.Valid()
    requires forall seg | seg in t.out :: seg in s.out || (seg.Length() == 0 && !seg.header.ack)
    ensures Lapsed(t, begun, heard)
  {
    hide Truthful;
    forall i | 0 <= i < |t.window.buffer| ensures Queueable(t.window.buffer[i].segment, t, begun, heard) {
      LapsedStays(s.window.buffer[i].segment, s, t, begun, heard);
    }
    forall seg | seg in t.out ensures Queueable(seg, t, begun, heard) {
      if seg in s.out {
        LapsedStays(seg, s, t, begun, heard);
      } else {
        EmptyIsQueueable(seg, t, begun, heard);
      }
    }
  }

  lemma EmptyIsQueueable(seg: Segment, s: Sender, begun: bool, heard: bool)
    requires seg.Length() == 0 && (seg.header.ack ==> heard)
    ensures Queueable(seg, s, begun, heard)
  {
  }

  /** What the program does once it has been reset and its stream has ended: everything that is left of
      the window becomes FINs. */
  lemma {:induction false} ResetFloodsWithFins(s: Sender)
    requires s.Valid() && s.stream.error && s.stream.Eof()
    requires s.window.first <= s.window.next <= s.window.first + s.window.size < TWO_64 && s.window.size > 0
    requires s.window.buffer == [] ==> s.window.next < s.window.first + s.window.size
    ensures Fins(FilledNew(s)) == s.window.first + s.window.size - s.window.next
    decreases s.window.first + s.window.size - s.window.next
  {
    hide Wrap, Unwrap;
    if s.CanSend() && s.NextSegment().Length() != 0 {
      UnwrapAtCheckpoint(s.window.next, s.window.isn);
      ResetFloodsWithFins(s.SentNext());
      assert FilledNew(s)[1..] == FilledNew(s.SentNext());
    }
  }
}
