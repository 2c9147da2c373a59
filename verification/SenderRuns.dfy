/** Theorems about every run of a sender: conservation, tiling, maximal filling, one FIN, flow
    control (libsponge/tcp_sender.cc, libsponge/tcp_sending_window.cc). */
module SenderRuns {
  import opened Words
  import opened WrappingIntegers
  import opened Segments
  import opened ByteStreams
  import opened Carriage
  import opened SendingWindows
  import opened Sending
  import opened SenderInvariants
  import opened Tiling
  import opened Transmission

  // ---------------------------------------------------------------- tiling

  lemma SentNextTiles(s: Sender)
    requires Core(s) && s.window.next > 0 && s.CanSend() && s.NextSegment().Length() != 0 && Tiled(s.window)
    ensures Tiled(s.SentNext().window) && s.SentNext().window.faulted == s.window.faulted
  {
    hide Wrap, Unwrap, Clocked, Tiled;
    CanSendOnlyBetween(s);
    AddedTiles(s.window, s.NextSegment(), Low32(s.rto));
  }

  lemma {:induction false} FilledTiles(s: Sender)
    requires Core(s) && s.window.next > 0 && Tiled(s.window)
    ensures Tiled(s.Filled().window) && s.Filled().window.faulted == s.window.faulted
    decreases s.window.Space()
  {
    hide Tiled, Numbered, Handshaking, Clocked, Sender.NextSegment, Sender.CanSend, Sender.SentNext;
    if s.CanSend() && s.NextSegment().Length() != 0 {
      SpaceShrinks(s);
      SentNextCore(s);
      SentNextTiles(s);
      FilledTiles(s.SentNext());
    }
  }

  lemma FillTiles(s: Sender)
    requires Core(s) && Tiled(s.window)
    ensures Tiled(s.FillWindow().window) && s.FillWindow().window.faulted == s.window.faulted
  {
    hide Tiled, Wrap, Unwrap, Sender.Filled;
    OpenedCore(s);
    if s.window.next == 0 {
      UnwrapAtCheckpoint(0, s.window.isn);
      AddedTiles(s.window, s.Syn(), Low32(s.rto));
    }
    FilledTiles(s.Opened());
  }

  /** The buffer stays tiled whatever is acknowledged; the window goes wrong if and only if it cannot
      take the acknowledgment. */
  lemma AcknowledgedTiles(s: Sender, ackno: U32, win: U16)
    requires Core(s) && Tiled(s.window) && Narrow(s.window)
    ensures Tiled(s.Acknowledged(ackno, win).window)
    ensures s.Acknowledged(ackno, win).window.faulted <==> s.window.faulted || !Readable(s.window, ackno)
  {
    hide Tiled, Narrow, Readable, Window.Acked, Window.AckPosition, Numbered, Handshaking, Clocked;
    var w := s.window.Acked(ackno, Max(win, 1));
    AckFaultsExactly(s.window, ackno, Max(win, 1));
    if Readable(s.window, ackno) {
      var j := AckedTiles(s.window, ackno, Max(win, 1));
    } else {
      SameTiles(s.window, w);
    }
    assert Segs(Rearmed(w.buffer, s.initialRto)) == Segs(w.buffer);
    SameSegmentsTile(w, Rearmed(w.buffer, s.initialRto));
  }

  lemma SameTiles(w: Window, w': Window)
    requires Tiled(w) && w' == w.(faulted := true)
    ensures Tiled(w')
  {
    hide Wrap;
    forall i | 0 <= i < |w.buffer| ensures Placed(w', i) {
      assert Placed(w, i);
    }
  }

  lemma TickedTiles(s: Sender, ms: nat)
    requires Tiled(s.window)
    ensures Tiled(s.Ticked(ms).window) && s.Ticked(ms).window.faulted == s.window.faulted
  {
    hide Tiled;
    var t := s.Ticked(ms);
    assert Segs(t.window.buffer) == Segs(s.window.buffer);
    SameSegmentsTile(s.window, t.window.buffer);
  }

  lemma ReactTiles(s: Sender, e: Event)
    requires Core(s) && Regular(s, e) && Tiled(s.window) && (e.AckEvent? ==> Narrow(s.window))
    ensures Tiled(React(s, e).window)
    ensures React(s, e).window.faulted <==> s.window.faulted || (e.AckEvent? && !Readable(s.window, e.ackno))
  {
    hide Tiled, Narrow, Readable, Window.Acked, Sender.FillWindow, Numbered, Handshaking, Clocked;
    match e
    case FillEvent => FillTiles(s);
    case AckEvent(ackno, win) =>
      AcknowledgedCore(s, ackno, win);
      AcknowledgedTiles(s, ackno, win);
      FillTiles(s.Acknowledged(ackno, win));
    case TickEvent(ms) => TickedTiles(s, ms);
    case _ =>
  }

  // ---------------------------------------------------------------- filling is maximal

  /** The break on an empty segment is never taken. */
  lemma NeverAnEmptySegment(s: Sender)
    requires Core(s) && Tiled(s.window) && s.CanSend()
    ensures s.NextSegment().Length() > 0
  {
    hide Placed, At, Clocked;
  }

  lemma {:induction false} FilledIsMaximal(s: Sender)
    requires Core(s) && s.window.next > 0 && Tiled(s.window)
    ensures !s.Filled().CanSend()
    decreases s.window.Space()
  {
    hide Tiled, Numbered, Handshaking, Clocked, Sender.NextSegment, Sender.CanSend, Sender.SentNext;
    if s.CanSend() {
      NeverAnEmptySegment(s);
      SpaceShrinks(s);
      SentNextCore(s);
      SentNextTiles(s);
      FilledIsMaximal(s.SentNext());
    }
  }

  /** When `fill_window` returns, the window is full, or there is nothing to send and the stream may
      still grow, or the FIN has been sent. */
  lemma FillIsMaximal(s: Sender)
    requires Core(s) && Tiled(s.window)
    ensures var t := s.FillWindow();
            || t.window.Full()
            || (t.stream.BufferSize() == 0 && !t.stream.ended)
            || t.window.next == |t.stream.written| + 2
  {
    hide Tiled, Clocked, Wrap, Unwrap, Sender.Filled;
    OpenedCore(s);
    if s.window.next == 0 {
      UnwrapAtCheckpoint(0, s.window.isn);
      AddedTiles(s.window, s.Syn(), Low32(s.rto));
    }
    FilledCore(s.Opened());
    FilledIsMaximal(s.Opened());
  }

  // ---------------------------------------------------------------- one FIN

  /** At most one first transmission carries a FIN, so a FIN takes a number at most once. */
  lemma OneFin(s: Sender, log: seq<Segment>, i: nat, j: nat)
    requires Logged(s, log) && i < j < |log|
    ensures !(log[i].header.fin && log[j].header.fin)
  {
    assert InPlace(log, i, s) && InPlace(log, j, s);
    assert log[..i + 1] == log[..i] + [log[i]];
    SpanAppend(log[..i], log[i]);
    SpanSplit(log[..j], i + 1);
    assert log[..j][..i + 1] == log[..i + 1];
  }

  /** How many of the segments carry a FIN. */
  function Fins(segs: seq<Segment>): nat {
    if segs == [] then 0 else (if segs[0].header.fin then 1 else 0) + Fins(segs[1..])
  }

  /** A window that is open before the SYN is acknowledged: the sender keeps believing that it is
      still connecting, so once the data is out every number left in the window becomes a FIN. */
  lemma {:induction false} FinsWhileConnecting(s: Sender)
    requires s.Valid() && !s.stream.error && s.stream.ended
    requires s.window.first == 0 < s.window.next <= s.window.size < TWO_16 && s.window.buffer != []
    ensures Fins(FilledNew(s)) == Max(0, s.window.size - s.window.next - s.stream.BufferSize())
    decreases s.window.size - s.window.next
  {
    hide Wrap, Unwrap;
    if s.CanSend() && s.NextSegment().Length() != 0 {
      UnwrapAtCheckpoint(s.window.next, s.window.isn);
      var t := s.SentNext();
      assert t.window.next == s.window.next + s.NextSegment().Length();
      FinsWhileConnecting(t);
      assert FilledNew(s)[1..] == FilledNew(t);
    }
  }

  lemma {:induction false} NoFinsBeforeTheEnd(s: Sender)
    requires s.Valid() && !s.stream.ended
    ensures Fins(FilledNew(s)) == 0
    decreases s.window.Space()
  {
    hide Unwrap, Sender.State, Window.Space;
    if s.CanSend() && s.NextSegment().Length() != 0 {
      SpaceShrinks(s);
      NoFinsBeforeTheEnd(s.SentNext());
      assert FilledNew(s)[1..] == FilledNew(s.SentNext());
    }
  }

  /** An acknowledgment of the bare SYN number, which `Admissible` shuts out: how many FINs it sets
      off, and that it is at most one if and only if the stream is open or the advertised window has
      room for no more than the SYN, what is buffered and one FIN. */
  lemma BareAckFinsExactly(s: Sender, ackno: U32, win: U16)
    requires Core(s) && !Admissible(s, ackno)
    ensures var sent := New(s, AckEvent(ackno, win));
            && Fins(sent) == (if s.stream.ended then Max(0, Max(win, 1) - 1 - s.stream.BufferSize()) else 0)
            && (Fins(sent) <= 1 <==> !s.stream.ended || Max(win, 1) <= s.stream.BufferSize() + 2)
  {
    hide Clocked, Wrap, Unwrap, FilledNew;
    var t := s.Acknowledged(ackno, win);
    UnwrapAtCheckpoint(0, s.window.isn);
    var o := t.Opened();
    assert o.window.next == 1 && o.window.first == 0 && o.window.size == Max(win, 1) && o.window.buffer != [];
    if s.stream.ended {
      FinsWhileConnecting(o);
    } else {
      NoFinsBeforeTheEnd(o);
    }
    if t.State().Closed? {
      assert ([t.Syn()] + FilledNew(o))[1..] == FilledNew(o);
    } else {
      assert [] + FilledNew(o) == FilledNew(o);
    }
  }

  /** So a FIN can take many numbers: a sender that has sent its SYN and ended its stream answers an
      acknowledgment of the bare SYN number with a window full of FINs. */
  lemma BareAckRepeatsFin(capacity: nat, rto: U16, isn: U32, win: U16)
    requires win >= 3
    ensures var s := Run(NewSender(capacity, rto, isn), [FillEvent, EndEvent]);
            Fins(New(s, AckEvent(isn, win))) == win - 1 >= 2
  {
    hide Clocked, Unwrap, Sender.FillWindow, New;
    var s0 := NewSender(capacity, rto, isn);
    assert [FillEvent, EndEvent][..1] == [FillEvent] && [FillEvent][..0] == [];
    assert Run(s0, [FillEvent]) == s0.FillWindow();
    var s := Run(s0, [FillEvent, EndEvent]);
    assert s == React(s0.FillWindow(), EndEvent);
    SynIsOut(capacity, rto, isn);
    ReactCore(s0.FillWindow(), EndEvent);
    assert Wrap(0, isn) == isn;
    UnwrapInvertsWrap(0, isn, 1);
    BareAckFinsExactly(s, isn, win);
  }

  lemma SynIsOut(capacity: nat, rto: U16, isn: U32)
    ensures var s := NewSender(capacity, rto, isn).FillWindow();
            && Core(s) && s.stream == NewStream(capacity) && |s.window.buffer| == 1
            && s.window == Window(s.window.buffer, isn, 0, 1, 1, false)
            && s.window.buffer[0].segment == Segment(BLANK.(syn := true, seqno := Wrap(0, isn)), [])
  {
    var s := NewSender(capacity, rto, isn);
    NewSenderHolds(capacity, rto, isn);
    FillCore(s);
    UnwrapAtCheckpoint(0, isn);
    assert s.Opened().Filled() == s.Opened();
  }

  // ---------------------------------------------------------------- flow control

  predicate InWindow(s: Sender) { s.window.InFlight() <= s.window.size }

  lemma {:induction false} FilledKeepsEdges(s: Sender)
    requires Core(s) && s.window.next > 0
    ensures var t := s.Filled();
            && t.window.first == s.window.first && t.window.size == s.window.size
            && t.window.next >= s.window.next
            && (InWindow(t) <==> InWindow(s))
    decreases s.window.Space()
  {
    hide Clocked, Wrap, Unwrap;
    if s.CanSend() && s.NextSegment().Length() != 0 {
      SpaceShrinks(s);
      SentNextCore(s);
      CanSendOnlyBetween(s);
      FilledKeepsEdges(s.SentNext());
    }
  }

  lemma FillKeepsInWindow(s: Sender)
    requires Core(s)
    ensures InWindow(s.FillWindow()) <==> InWindow(s)
    ensures s.FillWindow().window.size == s.window.size
  {
    hide Clocked, Wrap, Unwrap, Sender.Filled;
    OpenedCore(s);
    FilledKeepsEdges(s.Opened());
  }

  /** The window that an accepted acknowledgment advertises covers all that has been sent. */
  predicate CoversSent(w: Window, ackno: U32, win: U16) {
    w.next <= w.AckPosition(ackno) + Max(win, 1)
  }

  /** After an accepted acknowledgment, and the sending it sets off, no more is in flight than the
      advertised window allows (a zero window counting as one), if and only if the advertised
      right edge does not fall short of what had been sent. If it does fall short, the space left
      wraps to a huge number and the sender empties its whole stream into the network. */
  lemma FlowControlExact(s: Sender, ackno: U32, win: U16)
    requires Core(s) && Admissible(s, ackno) && s.window.Accepts(ackno)
    requires Tiled(s.window) && Readable(s.window, ackno)
    ensures var t := s.AckReceived(ackno, win);
            && (t.window.InFlight() <= Max(win, 1) <==> CoversSent(s.window, ackno, win))
            && (!CoversSent(s.window, ackno, win) ==> t.stream.BufferSize() == 0)
  {
    hide Tiled, Readable, Clocked, Window.Search, Window.AckPosition, Sender.Filled;
    var t := s.Acknowledged(ackno, win);
    AcknowledgedCore(s, ackno, win);
    var j := AckedTiles(s.window, ackno, Max(win, 1));
    FillKeepsInWindow(t);
    if !CoversSent(s.window, ackno, win) {
      OverrunDrains(t);
    }
  }

  /** A right edge that does not move left is enough. */
  lemma RightEdgeSuffices(s: Sender, ackno: U32, win: U16)
    requires Core(s) && InWindow(s) && s.window.Accepts(ackno)
    requires s.window.AckPosition(ackno) + Max(win, 1) >= s.window.first + s.window.size
    ensures CoversSent(s.window, ackno, win)
  {
  }

  lemma {:induction false} OverrunDrains(s: Sender)
    requires Core(s) && s.window.first > 0 && !InWindow(s)
    ensures s.Filled().stream.BufferSize() == 0
    decreases s.window.Space()
  {
    hide Clocked, Wrap, Unwrap;
    if s.CanSend() {
      SpaceShrinks(s);
      SentNextCore(s);
      CanSendOnlyBetween(s);
      OverrunDrains(s.SentNext());
    } else {
      assert s.window.Space() > 0;
    }
  }

  /** Room in the window, and bytes ready to be sent. */
  function Room(s: Sender): int { s.window.first + s.window.size - s.window.next }

  /** The SYN is acknowledged, the FIN has not been sent, and the window is not overrun. */
  ghost predicate Flowing(s: Sender) {
    Core(s) && s.window.first > 0 && InWindow(s) && s.window.next == 1 + s.stream.readCount
  }

  /** One round of filling, in terms of room and of what is ready. */
  lemma RoundOfFilling(s: Sender)
    requires Flowing(s)
    ensures Room(s) >= 0
    ensures s.CanSend() && s.NextSegment().Length() != 0
            <==> Room(s) > 0 && (s.stream.BufferSize() > 0 || s.stream.ended)
    ensures s.CanSend() && s.NextSegment().Length() != 0 ==>
              var seg, t, n := s.NextSegment(), s.SentNext(), Min(1000, Min(Room(s), s.stream.BufferSize()));
              && |seg.payload| == n && (seg.header.fin <==> s.stream.ended && n == s.stream.BufferSize() < Room(s))
              && t.window.Space() < s.window.Space()
              && t.stream == s.stream.(readCount := s.stream.readCount + n)
              && if seg.header.fin then FilledNew(t) == [] && t.Filled() == t else Flowing(t) && Room(t) == Room(s) - n
  {
    hide Clocked, Wrap, Unwrap;
    if s.CanSend() && s.NextSegment().Length() != 0 {
      SpaceShrinks(s);
      SentNextCore(s);
    }
  }

  /** How the window is filled: as much of the stream goes out as there is room for, in segments of a
      thousand bytes except for the last, which alone carries the FIN, and does so if and only if the
      stream has ended and there is room beyond what was buffered. */
  lemma {:induction false} FilledIsPacked(s: Sender)
    requires Flowing(s)
    ensures var sent, ready := FilledNew(s), s.stream.BufferSize();
            && s.Filled().stream.readCount == s.stream.readCount + Min(ready, Room(s))
            && (sent == [] <==> Room(s) == 0 || (ready == 0 && !s.stream.ended))
            && (forall i | 0 <= i < |sent| - 1 :: |sent[i].payload| == 1000 && !sent[i].header.fin)
            && (sent != [] ==> (sent[|sent| - 1].header.fin <==> s.stream.ended && ready < Room(s)))
    decreases s.window.Space()
  {
    hide Clocked, Numbered, Handshaking, InWindow, Room, Sender.CanSend, Sender.NextSegment, Sender.SentNext;
    RoundOfFilling(s);
    if s.CanSend() && s.NextSegment().Length() != 0 {
      var seg, t := s.NextSegment(), s.SentNext();
      assert FilledNew(s) == [seg] + FilledNew(t) && s.Filled() == t.Filled();
      if !seg.header.fin {
        FilledIsPacked(t);
      }
    }
  }

  /** A probe's answer shows the next number and takes none up. */
  lemma EmptySegmentShowsNext(s: Sender)
    ensures var t := s.SentEmpty();
            && t == s.(out := t.out) && |t.out| == |s.out| + 1 && s.out <= t.out
            && t.out[|s.out|].Length() == 0 && !t.out[|s.out|].header.rst
            && Unwrap(t.out[|s.out|].header.seqno, s.window.isn, s.window.next) == s.window.next
  {
    UnwrapAtCheckpoint(s.window.next, s.window.isn);
  }

  // ---------------------------------------------------------------- runs

  function Run(s: Sender, events: seq<Event>): (s': Sender)
    requires s.Valid()
    ensures s'.Valid()
  {
    if events == [] then s else React(Run(s, events[..|events| - 1]), events[|events| - 1])
  }

  /** All first transmissions of a run. */
  function Sent(s: Sender, events: seq<Event>): seq<Segment>
    requires s.Valid()
  {
    if events == [] then []
    else
      var n := |events| - 1;
      Sent(s, events[..n]) + New(Run(s, events[..n]), events[n])
  }

  ghost predicate RegularRun(s: Sender, events: seq<Event>)
    requires s.Valid()
  {
    forall k | 0 <= k < |events| :: Regular(Run(s, events[..k]), events[k])
  }

  /** Whenever an acknowledgment arrives, fewer than 2^31 numbers are outstanding. */
  ghost predicate NarrowRun(s: Sender, events: seq<Event>)
    requires s.Valid()
  {
    forall k | 0 <= k < |events| && events[k].AckEvent? :: Narrow(Run(s, events[..k]).window)
  }

  /** The `k`th call is an acknowledgment that the window cannot take. */
  predicate Unreadable(s: Sender, events: seq<Event>, k: nat)
    requires s.Valid() && k < |events|
  {
    events[k].AckEvent? && !Readable(Run(s, events[..k]).window, events[k].ackno)
  }

  /** Some acknowledgment of the run is one that the window cannot take. */
  ghost predicate SomeUnreadable(s: Sender, events: seq<Event>)
    requires s.Valid()
  {
    exists k :: 0 <= k < |events| && Unreadable(s, events, k)
  }

  lemma SomeUnreadableStep(s: Sender, events: seq<Event>)
    requires s.Valid() && events != []
    ensures var n := |events| - 1;
            SomeUnreadable(s, events) <==> SomeUnreadable(s, events[..n]) || Unreadable(s, events, n)
  {
    hide Run, Readable;
    var n := |events| - 1;
    Prefixes(events);
    assert forall k | 0 <= k < n :: Unreadable(s, events[..n], k) <==> Unreadable(s, events, k);
  }

  /** Every accepted acknowledgment advertises a window that covers what has been sent. */
  ghost predicate CoveringRun(s: Sender, events: seq<Event>)
    requires s.Valid()
  {
    forall k | 0 <= k < |events| && events[k].AckEvent? ::
      var w := Run(s, events[..k]).window;
      w.Accepts(events[k].ackno) ==> CoversSent(w, events[k].ackno, events[k].win)
  }

  /** No accepted acknowledgment moves the right edge of the window to the left. */
  ghost predicate SteadyRun(s: Sender, events: seq<Event>)
    requires s.Valid()
  {
    forall k | 0 <= k < |events| && events[k].AckEvent? ::
      var w := Run(s, events[..k]).window;
      w.Accepts(events[k].ackno) ==> w.AckPosition(events[k].ackno) + Max(events[k].win, 1) >= w.first + w.size
  }

  lemma Prefixes(events: seq<Event>)
    requires events != []
    ensures forall k | 0 <= k < |events| :: events[..|events| - 1][..k] == events[..k]
  {
  }

  lemma NewSenderHolds(capacity: nat, rto: U16, isn: U32)
    ensures var s := NewSender(capacity, rto, isn);
            Core(s) && Tiled(s.window) && Logged(s, []) && InWindow(s)
  {
    BackoffStarts(rto);
  }

  /** In every run, whatever is called and whatever is acknowledged. */
  lemma {:induction false} RunClocked(s: Sender, events: seq<Event>)
    requires s.Valid() && Clocked(s)
    ensures Clocked(Run(s, events))
  {
    hide React, Clocked;
    if events != [] {
      RunClocked(s, events[..|events| - 1]);
      ReactClocked(Run(s, events[..|events| - 1]), events[|events| - 1]);
    }
  }

  /** In every run: the next number is the SYN, the bytes read and the FIN; the first transmissions
      tile the numbers used and concatenate to the bytes read; every segment on the queue is one of
      them or empty; the buffer is a tail of them. */
  lemma {:induction false} RunConserves(capacity: nat, rto: U16, isn: U32, events: seq<Event>)
    requires RegularRun(NewSender(capacity, rto, isn), events)
    ensures var s := NewSender(capacity, rto, isn);
            Core(Run(s, events)) && Logged(Run(s, events), Sent(s, events))
  {
    hide Core, Logged, Regular, React, New;
    var s := NewSender(capacity, rto, isn);
    NewSenderHolds(capacity, rto, isn);
    if events != [] {
      var n := |events| - 1;
      Prefixes(events);
      RunConserves(capacity, rto, isn, events[..n]);
      ReactCore(Run(s, events[..n]), events[n]);
      ReactLogged(Run(s, events[..n]), events[n], Sent(s, events[..n]));
    }
  }

  /** Every segment ever put on the queue, retransmissions included, carries exactly the part of the
      stream that its absolute number names; and a FIN takes a number at most once. */
  lemma RunSendsTheStream(capacity: nat, rto: U16, isn: U32, events: seq<Event>)
    requires RegularRun(NewSender(capacity, rto, isn), events)
    ensures var s := NewSender(capacity, rto, isn);
            var t, log := Run(s, events), Sent(s, events);
            && (forall seg | seg in t.out ::
                  exists v: nat :: v <= t.window.next && Carries(seg, v, isn, t.stream.written, t.stream.ended))
            && Bytes(log) == t.stream.written[..t.stream.readCount]
            && (forall i, j | 0 <= i < j < |log| :: !(log[i].header.fin && log[j].header.fin))
  {
    hide Core, Carries, Span, Regular;
    RunConserves(capacity, rto, isn, events);
    RunKeepsIsn(NewSender(capacity, rto, isn), events);
    var s := NewSender(capacity, rto, isn);
    var t, log := Run(s, events), Sent(s, events);
    forall seg | seg in t.out
      ensures exists v: nat :: v <= t.window.next && Carries(seg, v, isn, t.stream.written, t.stream.ended)
    {
      assert Genuine(seg, log, t);
      if seg in log {
        var i :| 0 <= i < |log| && log[i] == seg;
        assert InPlace(log, i, t);
        SpanSplit(log, i);
      }
    }
    forall i, j | 0 <= i < j < |log| ensures !(log[i].header.fin && log[j].header.fin) {
      OneFin(t, log, i, j);
    }
  }

  lemma {:induction false} RunKeepsIsn(s: Sender, events: seq<Event>)
    requires s.Valid()
    ensures Run(s, events).window.isn == s.window.isn
  {
    hide React;
    if events != [] {
      RunKeepsIsn(s, events[..|events| - 1]);
      ReactKeepsIsn(Run(s, events[..|events| - 1]), events[|events| - 1]);
    }
  }

  lemma ReactKeepsIsn(s: Sender, e: Event)
    requires s.Valid()
    ensures React(s, e).window.isn == s.window.isn
  {
    hide Window.Search, Window.AckPosition, Low64, Sender.FillWindow;
    match e
    case FillEvent => FillExtends(s);
    case AckEvent(ackno, win) => FillExtends(s.Acknowledged(ackno, win));
    case _ =>
  }

  lemma NoneUnreadable(s: Sender)
    requires s.Valid()
    ensures !SomeUnreadable(s, [])
  {
  }

  /** In every run with fewer than 2^31 numbers outstanding the buffer tiles them; and the window goes
      wrong if and only if some acknowledgment is one that it cannot take. */
  lemma {:induction false} RunTiles(capacity: nat, rto: U16, isn: U32, events: seq<Event>)
    requires RegularRun(NewSender(capacity, rto, isn), events)
    requires NarrowRun(NewSender(capacity, rto, isn), events)
    ensures var s := NewSender(capacity, rto, isn);
            var t := Run(s, events);
            && Tiled(t.window)
            && (t.window.faulted <==> SomeUnreadable(s, events))
  {
    hide Core, Logged, Regular, React, Tiled, Narrow, Readable, SomeUnreadable;
    var s := NewSender(capacity, rto, isn);
    NewSenderHolds(capacity, rto, isn);
    if events != [] {
      var n := |events| - 1;
      Prefixes(events);
      RunTiles(capacity, rto, isn, events[..n]);
      RunConserves(capacity, rto, isn, events[..n]);
      ReactTiles(Run(s, events[..n]), events[n]);
      SomeUnreadableStep(s, events);
    } else {
      NoneUnreadable(s);
    }
  }

  // ---------------------------------------------------------------- a run that goes wrong

  const WIDEST: U16 := 0xFFFF

  /** Every number before `v` has been sent and acknowledged. */
  ghost predicate CaughtUp(s: Sender, isn: U32, v: nat) {
    && Core(s) && s.stream.capacity >= 3 && !s.stream.ended && s.stream.readCount == |s.stream.written| == v - 1
    && s.window == Window([], isn, v, WIDEST, v, false)
  }

  lemma Appended(s: Sender, events: seq<Event>, e: Event)
    requires s.Valid() && RegularRun(s, events) && NarrowRun(s, events)
    requires Regular(Run(s, events), e) && (e.AckEvent? ==> Narrow(Run(s, events).window))
    ensures RegularRun(s, events + [e]) && NarrowRun(s, events + [e])
    ensures Run(s, events + [e]) == React(Run(s, events), e)
  {
    hide Regular, React, Narrow;
    var more := events + [e];
    assert more[..|events|] == events;
    forall k | 0 <= k < |events| ensures more[..k] == events[..k] {}
  }

  /** One segment of data goes out. */
  lemma OneGoesOut(s: Sender, isn: U32, v: nat, data: seq<Byte>)
    requires CaughtUp(s, isn, v) && v + 10 < TWO_64 && 1 <= |data| <= 3
    ensures var t := s.(stream := s.stream.Write(data)).FillWindow();
            && Core(t) && t.stream == s.stream.(written := s.stream.written + data, readCount := v - 1 + |data|)
            && t.window == Window([Outstanding(Segment(BLANK.(seqno := Wrap(v, isn)), data), Low32(s.rto))],
                                  isn, v, WIDEST, v + |data|, false)
            && Tiled(t.window) && Narrow(t.window)
  {
    hide Wrap, Unwrap, Clocked;
    var u := s.(stream := s.stream.Write(data));
    UnwrapAtCheckpoint(v, isn);
    ReactCore(s, WriteEvent(data));
    FillCore(u);
    var t := u.SentNext();
    assert u.NextSegment() == Segment(BLANK.(seqno := Wrap(v, isn)), data);
    assert u.FillWindow() == t.Filled() == t;
    AtEnd(t.window);
    AtStep(t.window, 0);
    assert Placed(t.window, 0);
    assert Segs(t.window.buffer)[0..] == Segs(t.window.buffer);
  }

  lemma OneIsAcked(s: Sender, isn: U32, v: nat, data: seq<Byte>)
    requires CaughtUp(s, isn, v) && v + |data| < TWO_32 && 1 <= |data| <= 3
    ensures var t := s.(stream := s.stream.Write(data)).FillWindow();
            CaughtUp(t.AckReceived(Wrap(v + |data|, isn), WIDEST), isn, v + |data|)
  {
    hide Wrap, Unwrap, Clocked, Sender.FillWindow, Tiled, Narrow;
    OneGoesOut(s, isn, v, data);
    var t := s.(stream := s.stream.Write(data)).FillWindow();
    UnwrapAtCheckpoint(v + |data|, isn);
    UnwrapInvertsWrap(v, isn, v + |data|);
    var u := t.Acknowledged(Wrap(v + |data|, isn), WIDEST);
    AcknowledgedCore(t, Wrap(v + |data|, isn), WIDEST);
    assert u.window == Window([], isn, v + |data|, WIDEST, v + |data|, false);
    assert u.FillWindow() == u by { Quiet(u); }
  }

  lemma Quiet(s: Sender)
    requires s.Valid() && s.window.next > 0 && !s.stream.ended && s.stream.BufferSize() == 0
    ensures s.FillWindow() == s
  {
    hide Unwrap;
  }

  lemma AckIsRegular(s: Sender, ackno: U32, win: U16)
    requires Core(s) && Admissible(s, ackno)
    ensures Regular(s, AckEvent(ackno, win))
  {
    hide Clocked, Window.Acked, Window.AckPosition, Sender.FillWindow;
    FillExtends(s.Acknowledged(ackno, win));
  }

  /** Write, fill, acknowledge everything. */
  lemma SendAndAck(s: Sender, events: seq<Event>, isn: U32, v: nat, data: seq<Byte>) returns (more: seq<Event>)
    requires s.Valid() && RegularRun(s, events) && NarrowRun(s, events)
    requires CaughtUp(Run(s, events), isn, v) && v + 10 < TWO_64 && 1 <= |data| <= 3
    ensures RegularRun(s, more) && NarrowRun(s, more)
    ensures var t := Run(s, events);
            Run(s, more) == t.(stream := t.stream.Write(data)).FillWindow().AckReceived(Wrap(v + |data|, isn), WIDEST)
  {
    hide Wrap, Unwrap, Clocked, Tiled, Narrow, Sender.FillWindow, Sender.AckReceived, RegularRun, NarrowRun, Run;
    var ack := AckEvent(Wrap(v + |data|, isn), WIDEST);
    var t := Run(s, events);
    OneGoesOut(t, isn, v, data);
    Appended(s, events, WriteEvent(data));
    Appended(s, events + [WriteEvent(data)], FillEvent);
    AckIsRegular(t.(stream := t.stream.Write(data)).FillWindow(), ack.ackno, WIDEST);
    Appended(s, events + [WriteEvent(data)] + [FillEvent], ack);
    more := events + [WriteEvent(data)] + [FillEvent] + [ack];
  }

  lemma NothingYet(s: Sender)
    requires s.Valid()
    ensures RegularRun(s, []) && NarrowRun(s, [])
  {
  }

  lemma Opening(capacity: nat, rto: U16, isn: U32) returns (events: seq<Event>)
    requires capacity >= 3
    ensures RegularRun(NewSender(capacity, rto, isn), events) && NarrowRun(NewSender(capacity, rto, isn), events)
    ensures CaughtUp(Run(NewSender(capacity, rto, isn), events), isn, 1)
  {
    hide Wrap, Unwrap, Clocked, Narrow, Tiled, RegularRun, NarrowRun, Sender.FillWindow, Sender.AckReceived;
    var s, ack := NewSender(capacity, rto, isn), AckEvent(Wrap(1, isn), WIDEST);
    SynIsOut(capacity, rto, isn);
    SynIsAcked(capacity, rto, isn);
    AckIsRegular(s.FillWindow(), ack.ackno, WIDEST);
    NothingYet(s);
    Appended(s, [], FillEvent);
    Appended(s, [] + [FillEvent], ack);
    events := [] + [FillEvent] + [ack];
  }

  lemma SynIsAcked(capacity: nat, rto: U16, isn: U32)
    requires capacity >= 3
    ensures var s := NewSender(capacity, rto, isn).FillWindow();
            && Admissible(s, Wrap(1, isn)) && Narrow(s.window)
            && CaughtUp(s.AckReceived(Wrap(1, isn), WIDEST), isn, 1)
  {
    hide Wrap, Unwrap, Clocked, Sender.FillWindow;
    SynIsOut(capacity, rto, isn);
    var s := NewSender(capacity, rto, isn).FillWindow();
    UnwrapAtCheckpoint(1, isn);
    UnwrapInvertsWrap(0, isn, 1);
    SpanOne(s.window.buffer[0].segment);
    assert Segs(s.window.buffer) == [s.window.buffer[0].segment];
    var u := s.Acknowledged(Wrap(1, isn), WIDEST);
    AcknowledgedCore(s, Wrap(1, isn), WIDEST);
    assert u.window == Window([], isn, 1, WIDEST, 1, false);
    Quiet(u);
  }

  /** A run in which everything is acknowledged as soon as it is sent. */
  lemma {:induction false} CatchUp(capacity: nat, rto: U16, isn: U32, v: nat) returns (events: seq<Event>)
    requires capacity >= 3 && 1 <= v < TWO_32
    ensures RegularRun(NewSender(capacity, rto, isn), events) && NarrowRun(NewSender(capacity, rto, isn), events)
    ensures CaughtUp(Run(NewSender(capacity, rto, isn), events), isn, v)
  {
    hide Wrap, Core, RegularRun, NarrowRun, Sender.FillWindow, Sender.AckReceived, Run;
    if v == 1 {
      events := Opening(capacity, rto, isn);
    } else {
      var before := CatchUp(capacity, rto, isn, v - 1);
      var s := NewSender(capacity, rto, isn);
      events := SendAndAck(s, before, isn, v - 1, [0]);
      OneIsAcked(Run(s, before), isn, v - 1, [0]);
    }
  }

  /** The fault is reached in a run in which nothing is lost and everything is acknowledged at once:
      when three bytes that start one number before 2^32 are acknowledged. */
  lemma RunReachesFault(capacity: nat, rto: U16, isn: U32) returns (events: seq<Event>)
    requires capacity >= 3
    ensures RegularRun(NewSender(capacity, rto, isn), events) && NarrowRun(NewSender(capacity, rto, isn), events)
    ensures Run(NewSender(capacity, rto, isn), events).window.faulted
  {
    hide Wrap, Unwrap, Clocked, Tiled, Narrow, Readable, RegularRun, NarrowRun, Sender.FillWindow,
         Sender.AckReceived, Run;
    var s, v := NewSender(capacity, rto, isn), TWO_32 - 1;
    var before := CatchUp(capacity, rto, isn, v);
    events := SendAndAck(s, before, isn, v, [0, 0, 0]);
    OneGoesOut(Run(s, before), isn, v, [0, 0, 0]);
    StraddlingAckFaults(isn, Low32(Run(s, before).rto), WIDEST, WIDEST);
    var t := Run(s, before).(stream := Run(s, before).stream.Write([0, 0, 0])).FillWindow();
    AckIsRegular(t, Wrap(v + 3, isn), WIDEST);
    ReactTiles(t, AckEvent(Wrap(v + 3, isn), WIDEST));
  }

  /** A run in which the window is overrun: three bytes are out when a repeated acknowledgment shrinks the
      window to one. */
  lemma ShrunkWindowIsOverrun(capacity: nat, rto: U16, isn: U32) returns (events: seq<Event>)
    requires capacity >= 3
    ensures var s := NewSender(capacity, rto, isn);
            && RegularRun(s, events) && NarrowRun(s, events)
            && var t, ack := Run(s, events), AckEvent(Wrap(1, isn), 1);
            && Regular(t, ack) && t.window.Accepts(ack.ackno) && !CoversSent(t.window, ack.ackno, ack.win)
            && React(t, ack).window.InFlight() > 1
  {
    hide Wrap, Unwrap, Clocked, RegularRun, NarrowRun, Sender.FillWindow, Run, Tiled, Narrow;
    var s, data := NewSender(capacity, rto, isn), [0, 0, 0];
    var before := Opening(capacity, rto, isn);
    var t := Run(s, before);
    OneGoesOut(t, isn, 1, data);
    Appended(s, before, WriteEvent(data));
    Appended(s, before + [WriteEvent(data)], FillEvent);
    events := before + [WriteEvent(data)] + [FillEvent];
    var u := t.(stream := t.stream.Write(data)).FillWindow();
    UnwrapInvertsWrap(1, isn, 4);
    AckIsRegular(u, Wrap(1, isn), 1);
    FlowControlExact(u, Wrap(1, isn), 1);
  }

  lemma AckKeepsInWindow(s: Sender, ackno: U32, win: U16)
    requires Core(s) && InWindow(s) && Admissible(s, ackno)
    requires s.window.Accepts(ackno) ==> CoversSent(s.window, ackno, win)
    ensures InWindow(s.AckReceived(ackno, win))
  {
    hide Clocked, Window.Search, Window.AckPosition, Window.Trimmed, Sender.FillWindow;
    AcknowledgedCore(s, ackno, win);
    FillKeepsInWindow(s.Acknowledged(ackno, win));
  }

  lemma ReactInWindow(s: Sender, e: Event)
    requires Core(s) && Regular(s, e) && InWindow(s)
    requires e.AckEvent? && s.window.Accepts(e.ackno) ==> CoversSent(s.window, e.ackno, e.win)
    ensures InWindow(React(s, e))
  {
    hide CoversSent, Numbered, Handshaking, Clocked;
    match e
    case FillEvent => FillKeepsInWindow(s);
    case AckEvent(ackno, win) => AckKeepsInWindow(s, ackno, win);
    case _ =>
  }

  /** Flow control in every run whose accepted windows cover what has been sent: never more in flight
      than the window last accepted allows. */
  lemma {:induction false} RunStaysInWindow(capacity: nat, rto: U16, isn: U32, events: seq<Event>)
    requires RegularRun(NewSender(capacity, rto, isn), events)
    requires CoveringRun(NewSender(capacity, rto, isn), events)
    ensures InWindow(Run(NewSender(capacity, rto, isn), events))
  {
    hide Core, Logged, Regular, React, CoversSent, InWindow, Window.Accepts;
    var s := NewSender(capacity, rto, isn);
    NewSenderHolds(capacity, rto, isn);
    if events != [] {
      var n := |events| - 1;
      Prefixes(events);
      RunStaysInWindow(capacity, rto, isn, events[..n]);
      RunConserves(capacity, rto, isn, events[..n]);
      ReactInWindow(Run(s, events[..n]), events[n]);
    }
  }

  /** Flow control in every run whose right edge never moves left: bytes in flight, SYN and FIN
      included, never exceed the window last accepted, a zero window counting as one. */
  lemma {:induction false} SteadyRunStaysInWindow(capacity: nat, rto: U16, isn: U32, events: seq<Event>)
    requires RegularRun(NewSender(capacity, rto, isn), events)
    requires SteadyRun(NewSender(capacity, rto, isn), events)
    ensures CoveringRun(NewSender(capacity, rto, isn), events)
    ensures InWindow(Run(NewSender(capacity, rto, isn), events))
  {
    hide Core, Logged, Regular, React, CoversSent, InWindow, Window.AckPosition;
    var s := NewSender(capacity, rto, isn);
    if events != [] {
      var n := |events| - 1;
      Prefixes(events);
      SteadyRunStaysInWindow(capacity, rto, isn, events[..n]);
      RunConserves(capacity, rto, isn, events[..n]);
      var e, t := events[n], Run(s, events[..n]);
      if e.AckEvent? && t.window.Accepts(e.ackno) {
        RightEdgeSuffices(t, e.ackno, e.win);
      }
    }
    RunStaysInWindow(capacity, rto, isn, events);
  }
}
