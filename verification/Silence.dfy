/** An endpoint that hears nothing while data is out gives up in time (libsponge/tcp_connection.cc). */
module Silence {
  import opened Words
  import opened Segments
  import opened Sending
  import opened SenderInvariants
  import opened Tiling
  import opened Connections
  import opened Lifecycle
  import opened Stranding
  import opened Naming
  import opened RetransmissionTimer

  /** Data is out and nobody has given up. */
  ghost predicate Waiting(c: Connection) { ConnInv(c) && c.active && c.sender.window.buffer != [] }

  /** What `k` further timeouts add up to, each twice the one before, the first twice `rto`. */
  function Ahead(rto: nat, k: nat): nat
    decreases k
  {
    if k == 0 then 0 else 2 * rto + Ahead(2 * rto, k - 1)
  }

  lemma {:induction false} AheadGrows(a: nat, b: nat, k: nat)
    requires a <= b
    ensures Ahead(a, k) <= Ahead(b, k)
    decreases k
  {
    if k > 0 {
      AheadGrows(2 * a, 2 * b, k - 1);
    }
  }

  /** A timeout and all that follow it, up to the last one that is allowed. */
  lemma {:induction false} AllTimeouts(initial: nat, n: nat)
    requires n <= MAX_RETX_ATTEMPTS
    ensures var rto := Doubled(initial, n);
            rto + Ahead(rto, MAX_RETX_ATTEMPTS - n) == 512 * initial - rto
    decreases MAX_RETX_ATTEMPTS - n
  {
    if n < MAX_RETX_ATTEMPTS {
      AllTimeouts(initial, n + 1);
    } else {
      DoubledSmall(initial);
    }
  }

  /** An upper bound on the milliseconds that can still pass before the endpoint gives up, when no tick
      is longer than `d`. */
  function TimeLeft(c: Connection, d: nat): nat
    requires c.sender.window.buffer != [] && c.sender.retransmissions <= MAX_RETX_ATTEMPTS
  {
    var k: nat := MAX_RETX_ATTEMPTS - c.sender.retransmissions;
    c.sender.window.buffer[0].remaining + k * d + Ahead(c.sender.rto, k)
  }

  /** All nine timeouts, from the initial one to 256 times that, and eight times the longest tick. */
  function Limit(rtTimeout: U16, d: nat): nat { 511 * rtTimeout + MAX_RETX_ATTEMPTS * d }

  lemma WaitingCounts(c: Connection)
    requires Waiting(c)
    ensures Clocked(c.sender) && c.sender.initialRto == c.rtTimeout && c.sender.retransmissions <= MAX_RETX_ATTEMPTS
  {
    hide Tiled, Clocked, Numbered, Handshaking;
  }

  lemma TimeLeftIsLimited(c: Connection, d: nat)
    requires Waiting(c)
    ensures c.sender.retransmissions <= MAX_RETX_ATTEMPTS && TimeLeft(c, d) <= Limit(c.rtTimeout, d)
  {
    hide ConnInv, Backoff;
    WaitingCounts(c);
    var n, rt := c.sender.retransmissions, c.rtTimeout;
    BackoffBound(c.sender.rto, rt, n);
    AheadGrows(c.sender.rto, Doubled(rt, n), MAX_RETX_ATTEMPTS - n);
    AllTimeouts(rt, n);
    DoubledGrows(rt, 0, n);
    assert (MAX_RETX_ATTEMPTS - n) * d <= MAX_RETX_ATTEMPTS * d;
  }

  /** The same front, with the same timer and timeout, after as many retransmissions. */
  predicate SameFront(c: Connection, c': Connection) {
    && c.sender.window.buffer != [] && c'.sender.window.buffer != []
    && c'.sender.window.buffer[0] == c.sender.window.buffer[0] && c'.sender.rto == c.sender.rto
    && c'.sender.retransmissions == c.sender.retransmissions && c'.rtTimeout == c.rtTimeout
  }

  lemma CollectKeepsFront(c: Connection)
    requires c.Valid() && c.sender.window.buffer != []
    ensures SameFront(c, c.Collected()) && c.Collected().active == c.active
  {
    hide Sender.FillWindow;
    FillExtends(c.sender);
  }

  // ---------------------------------------------------------------- ticks

  /** The front timer runs down, or it runs out, one more retransmission is counted and the timeout at
      most doubles. */
  lemma SenderTick(s: Sender, ms: nat)
    requires Clocked(s) && s.window.buffer != []
    ensures var t := s.Ticked(ms);
            && t.window.buffer != []
            && if s.window.buffer[0].remaining > ms
               then t.retransmissions == s.retransmissions && t.rto == s.rto
                    && t.window.buffer[0].remaining == s.window.buffer[0].remaining - ms
               else t.retransmissions == s.retransmissions + 1
                    && t.window.buffer[0].remaining <= t.rto <= 2 * s.rto
  {
    hide Backoff;
    ExpiryFromTheFront(s.window.buffer, ms);
  }

  lemma TimeRunsDown(c: Connection, t: Connection, ms: nat, d: nat)
    requires Waiting(c) && ms <= d && t.sender == c.sender.Ticked(ms) && t.rtTimeout == c.rtTimeout
    requires c.sender.retransmissions <= MAX_RETX_ATTEMPTS && t.sender.retransmissions <= MAX_RETX_ATTEMPTS
    ensures t.sender.window.buffer != [] && TimeLeft(t, d) + ms <= TimeLeft(c, d)
  {
    hide ConnInv, Clocked, Sender.Ticked;
    WaitingCounts(c);
    SenderTick(c.sender, ms);
    var k := MAX_RETX_ATTEMPTS - t.sender.retransmissions;
    if t.sender.retransmissions != c.sender.retransmissions {
      AheadGrows(t.sender.rto, 2 * c.sender.rto, k);
      assert (k + 1) * d == k * d + d;
    }
  }

  lemma NotIdle(c: Connection)
    requires Waiting(c)
    ensures !c.In(TIME_WAIT)
  {
    hide Good;
    if SenderSummary(c.sender) == FinAcked {
      FinAckedIsIdle(c.sender, c.rtTimeout);
    }
  }

  /** The endpoint still waits, with `ms` milliseconds less before it gives up. */
  ghost predicate LessLeft(c: Connection, e: Connection, d: nat, ms: nat) {
    && Waiting(c) && Waiting(e) && e.rtTimeout == c.rtTimeout
    && c.sender.retransmissions <= MAX_RETX_ATTEMPTS && e.sender.retransmissions <= MAX_RETX_ATTEMPTS
    && TimeLeft(e, d) + ms <= TimeLeft(c, d)
  }

  lemma WaitingTick(c: Connection, ms: nat, d: nat)
    requires Waiting(c) && ms <= d
    ensures var e := c.Ticked(ms);
            e.In(RESET) || LessLeft(c, e, d, ms)
  {
    hide ConnInv, Connection.Collected, Connection.Ticked, Connection.State, Sender.Ticked, TimeLeft;
    ConnInvIsValid(c);
    WaitingCounts(c);
    NotIdle(c);
    TickShape(c, ms);
    TickKeepsInv(c, ms);
    var t := c.(sinceLast := c.sinceLast + ms, sender := c.sender.Ticked(ms));
    if t.sender.retransmissions > MAX_RETX_ATTEMPTS {
      AbortedIsReset(t);
    } else {
      TimeRunsDown(c, t, ms, d);
      CollectKeepsFront(t);
      SameTimeLeft(t, c.Ticked(ms), d);
    }
  }

  lemma SameTimeLeft(c: Connection, c': Connection, d: nat)
    requires SameFront(c, c') || (c' == c && c.sender.window.buffer != [])
    requires c.sender.retransmissions <= MAX_RETX_ATTEMPTS
    ensures TimeLeft(c', d) == TimeLeft(c, d)
  {
  }

  // ---------------------------------------------------------------- other calls

  /** No call of the application touches the front of the buffer. */
  lemma WaitingCall(c: Connection, call: Call)
    requires Waiting(c) && !call.Arrive? && !call.Tick? && RegularCall(c, call)
    ensures Waiting(Answer(c, call)) && SameFront(c, Answer(c, call))
  {
    hide ConnInv, Connection.Collected, RegularCall;
    ConnInvIsValid(c);
    AnswerKeepsInv(c, call);
    match call
    case Connect => CollectKeepsFront(c);
    case Write(data) => CollectKeepsFront(c.(sender := c.sender.(stream := c.sender.stream.Write(data))));
    case EndInput => CollectKeepsFront(c.(sender := c.sender.(stream := c.sender.stream.(ended := true))));
    case ReadInbound(len) =>
  }

  /** Nor does a segment that is ignored. */
  lemma WaitingDeaf(c: Connection, seg: Segment)
    requires Waiting(c) && c.Valid() && Ignores(c, seg) && !seg.header.rst
    ensures Waiting(c.SegmentReceived(seg)) && SameFront(c, c.SegmentReceived(seg))
  {
    hide Good, Connection.Collected, Connection.SegmentReceived, Ignores, Low32, Sender.NextHeader;
    IgnoredArrive(c, seg);
    var c0 := c.(sinceLast := 0);
    var c1 := c0.(sender := c0.sender.SentEmpty());
    GoodQueue(c0.sender, c.rtTimeout, c1.sender.out);
    CollectKeepsInv(c1);
    CollectKeepsFront(c1);
  }

  // ---------------------------------------------------------------- over a run

  /** During the calls nothing is heard: what arrives is ignored, or a RST. No tick is longer than `d`, and
      the byte counter does not overflow. */
  ghost predicate NothingHeard(c: Connection, calls: seq<Call>, d: nat)
    requires c.Valid()
  {
    forall k | 0 <= k < |calls| ::
      && (calls[k].Arrive? ==> calls[k].seg.header.rst || Ignores(After(c, calls[..k]), calls[k].seg))
      && (!calls[k].Arrive? ==> RegularCall(After(c, calls[..k]), calls[k]))
      && (calls[k].Tick? ==> calls[k].ms <= d)
  }

  lemma WaitingAnswer(c: Connection, call: Call, d: nat)
    requires Waiting(c) && c.Valid()
    requires if call.Arrive? then call.seg.header.rst || Ignores(c, call.seg)
             else RegularCall(c, call) && (call.Tick? ==> call.ms <= d)
    ensures var e := Answer(c, call);
            e.In(RESET) || LessLeft(c, e, d, if call.Tick? then call.ms else 0)
  {
    hide ConnInv, RegularCall, Ignores, Connection.In, TimeLeft, Connection.SegmentReceived, Connection.Ticked;
    if call.Tick? {
      WaitingTick(c, call.ms, d);
    } else if IsRst(call) {
      RstIsArrive(c, call);
    } else {
      if call.Arrive? {
        WaitingDeaf(c, call.seg);
      } else {
        WaitingCall(c, call);
      }
      WaitingCounts(c);
      SameTimeLeft(c, Answer(c, call), d);
    }
  }

  lemma {:induction false} TimeRunsOut(c: Connection, calls: seq<Call>, d: nat)
    requires Waiting(c) && c.Valid() && NothingHeard(c, calls, d)
    ensures var e := After(c, calls);
            e.In(RESET) || LessLeft(c, e, d, Elapsed(calls))
  {
    hide Answer, ConnInv, TimeLeft, Connection.In, RegularCall, Ignores;
    WaitingCounts(c);
    if calls != [] {
      var n := |calls| - 1;
      forall k | 0 <= k < n ensures calls[..n][..k] == calls[..k] {}
      TimeRunsOut(c, calls[..n], d);
      var e := After(c, calls[..n]);
      if e.In(RESET) {
        ResetStays(e, calls[n]);
      } else {
        WaitingAnswer(e, calls[n], d);
      }
    }
  }

  /** With data out and nothing heard, the endpoint is reset once all nine timeouts, 511 initial ones in
      all, and eight times the longest tick have passed. */
  lemma NothingHeardForcesReset(c: Connection, calls: seq<Call>, d: nat)
    requires Waiting(c) && c.Valid() && NothingHeard(c, calls, d)
    requires Elapsed(calls) > 511 * c.rtTimeout + MAX_RETX_ATTEMPTS * d
    ensures After(c, calls).In(RESET)
  {
    hide ConnInv, NothingHeard, After, TimeLeft, Connection.In;
    TimeRunsOut(c, calls, d);
    TimeLeftIsLimited(c, d);
  }

  /** A peer that stays silent while data is out forces RESET, whatever the application calls in the
      meantime. */
  lemma SilentPeerForcesReset(c: Connection, calls: seq<Call>, d: nat)
    requires Waiting(c) && c.Valid() && RegularCalls(c, calls)
    requires forall k | 0 <= k < |calls| :: !calls[k].Arrive? && (calls[k].Tick? ==> calls[k].ms <= d)
    requires Elapsed(calls) > 511 * c.rtTimeout + MAX_RETX_ATTEMPTS * d
    ensures After(c, calls).In(RESET)
  {
    hide ConnInv, RegularCall, After, Connection.In, Ignores;
    NothingHeardForcesReset(c, calls, d);
  }

  /** The same from whatever state with data out a regular run reaches. */
  lemma SilentPeerInEveryRun(rtTimeout: U16, recvCapacity: nat, sendCapacity: nat, isn: U32,
      calls: seq<Call>, later: seq<Call>, d: nat)
    requires RegularCalls(NewConnection(rtTimeout, recvCapacity, sendCapacity, isn), calls)
    requires var c := After(NewConnection(rtTimeout, recvCapacity, sendCapacity, isn), calls);
             c.active && c.sender.window.buffer != [] && RegularCalls(c, later)
    requires forall k | 0 <= k < |later| :: !later[k].Arrive? && (later[k].Tick? ==> later[k].ms <= d)
    requires Elapsed(later) > 511 * rtTimeout + MAX_RETX_ATTEMPTS * d
    ensures After(After(NewConnection(rtTimeout, recvCapacity, sendCapacity, isn), calls), later).In(RESET)
  {
    hide ConnInv, RegularCalls, After, Connection.In, Onward;
    var c0 := NewConnection(rtTimeout, recvCapacity, sendCapacity, isn);
    NewConnectionInv(rtTimeout, recvCapacity, sendCapacity, isn);
    RunKeepsConnInv(c0, calls);
    KeepsTimeout(c0, calls);
    SilentPeerForcesReset(After(c0, calls), later, d);
  }

  lemma KeepsTimeout(c: Connection, calls: seq<Call>)
    requires c.Valid()
    ensures After(c, calls).rtTimeout == c.rtTimeout
  {
    hide After, Patient;
    AfterOnward(c, calls);
  }

  // ---------------------------------------------------------------- peers that answer in vain

  /** Calls as they come: no tick is longer than `d`, and the byte counter does not overflow. */
  ghost predicate Ordinary(c: Connection, calls: seq<Call>, d: nat)
    requires c.Valid()
  {
    forall k | 0 <= k < |calls| ::
      && (!calls[k].Arrive? ==> RegularCall(After(c, calls[..k]), calls[k]))
      && (calls[k].Tick? ==> calls[k].ms <= d)
  }

  /** An endpoint without a name that has data out, and does not get its FIN out, is reset even though its
      peer answers. */
  lemma LostGivesUp(c: Connection, calls: seq<Call>, d: nat)
    requires Lost(c) && Waiting(c) && c.Valid() && Ordinary(c, calls, d)
    requires Rescuable(c) ==> forall k | 0 <= k <= |calls| :: !After(c, calls[..k]).In(CLOSING)
    requires Elapsed(calls) > 511 * c.rtTimeout + MAX_RETX_ATTEMPTS * d
    ensures After(c, calls).In(RESET)
  {
    hide ConnInv, RegularCall, After, Connection.In, Lost, Rescuable, Frozen, Ignores;
    forall k | 0 <= k < |calls| && calls[k].Arrive?
      ensures Ignores(After(c, calls[..k]), calls[k].seg)
    {
      forall j | 0 <= j <= k ensures calls[..k][..j] == calls[..j] {}
      LostForEver(c, calls[..k]);
      DeafEnd(After(c, calls[..k]), calls[k].seg);
    }
    NothingHeardForcesReset(c, calls, d);
  }

  lemma DeafEnd(c: Connection, seg: Segment)
    requires Lost(c) || c.In(RESET)
    ensures Ignores(c, seg)
  {
    hide ConnInv, SenderSummary, ReceiverSummary;
  }

  /** Half-closed connections are deaf: in CLOSE_WAIT a segment without FIN, and in FIN_WAIT_2 one without
      FIN and ACK together, does nothing but restart the clock and have a probe answered. */
  lemma HalfClosedIsDeaf(c: Connection, seg: Segment)
    requires c.Valid() && !seg.header.rst
    requires (c.In(CLOSE_WAIT) && !seg.header.fin) || (c.In(FIN_WAIT_2) && !(seg.header.fin && seg.header.ack))
    ensures c.SegmentReceived(seg) == c.(sinceLast := 0).KeptAlive(seg)
    ensures c.SegmentReceived(seg).receiver == c.receiver
    ensures c.SegmentReceived(seg).sender.window.first == c.sender.window.first
  {
    hide Connection.In, Connection.SegmentReceived, Connection.Collected, Ignores, Sender.NextHeader, Onward;
    WhatIsIgnored(c, seg);
    IgnoredArrive(c, seg);
    var q := c.(sinceLast := 0, sender := c.sender.SentEmpty());
    CollectOnward(q);
    CollectFreezes(q);
  }

  /** So half-closed connections do not work: in CLOSE_WAIT everything without a FIN is ignored, plain
      acknowledgments included, so an endpoint that goes on sending is reset even though its peer
      acknowledges. */
  lemma HalfClosedGivesUp(c: Connection, calls: seq<Call>, d: nat)
    requires Waiting(c) && c.Valid() && Ordinary(c, calls, d)
    requires forall k | 0 <= k < |calls| && calls[k].Arrive? ::
               After(c, calls[..k]).In(CLOSE_WAIT) && !calls[k].seg.header.fin
    requires Elapsed(calls) > 511 * c.rtTimeout + MAX_RETX_ATTEMPTS * d
    ensures After(c, calls).In(RESET)
  {
    hide ConnInv, RegularCall, After, Connection.In, Ignores;
    forall k | 0 <= k < |calls| && calls[k].Arrive?
      ensures Ignores(After(c, calls[..k]), calls[k].seg)
    {
      WhatIsIgnored(After(c, calls[..k]), calls[k].seg);
    }
    NothingHeardForcesReset(c, calls, d);
  }
}
