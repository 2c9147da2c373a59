/** Two whole endpoints exchange data both ways over a network that loses, repeats and reorders
    (libsponge/tcp_connection.cc). Everything an endpoint has ever sent may be delivered at any time, any
    number of times, or never; its queue, which it only appends to, is the record of what it sent. */
module Duplex {
  import opened Words
  import opened Segments
  import opened Receiving
  import opened Carriage
  import opened Acknowledging
  import opened Sending
  import opened SenderInvariants
  import opened Tiling
  import opened Transmission
  import opened SenderRuns
  import opened Protocol
  import opened Connections
  import opened Lifecycle
  import opened Wire
  import opened Ends

  datatype Pair = Pair(a: Connection, b: Connection) {
    ghost predicate Valid() { a.Valid() && b.Valid() }
  }

  /** A call on one of the two. */
  datatype Act = ByA(call: Call) | ByB(call: Call)

  /** Anything may be called at any time, except that what arrives has been sent by the peer. */
  predicate Possible(p: Pair, act: Act) {
    act.call.Arrive? ==> act.call.seg in (if act.ByA? then p.b.out else p.a.out)
  }

  function Enact(p: Pair, act: Act): (p': Pair)
    requires p.Valid()
    ensures p'.Valid()
  {
    match act
    case ByA(call) => p.(a := Answer(p.a, call))
    case ByB(call) => p.(b := Answer(p.b, call))
  }

  /** `pairs` is a run of two endpoints under `acts`. */
  ghost predicate IsHistory(pairs: seq<Pair>, acts: seq<Act>) {
    && |pairs| == |acts| + 1
    && (forall k | 0 <= k < |pairs| :: pairs[k].Valid())
    && (forall k | 0 <= k < |acts| ::
          Possible(pairs[k], acts[k]) && pairs[k + 1] == Enact(pairs[k], acts[k]))
  }

  /** Fewer than 2^31 sequence numbers are needed, and fewer have been used. */
  predicate Within(s: Sender) { Short(s) && s.window.next < TWO_31 }

  /** A sender that has been reset does not use up all 2^64 numbers in one call. */
  predicate NoRollover(s: Sender, t: Sender) { s.stream.error ==> s.window.next <= t.window.next }

  /** Every state of the run stays within 2^31 numbers on either side. */
  ghost predicate SmallHistory(pairs: seq<Pair>) {
    && (forall k | 0 <= k < |pairs| :: Within(pairs[k].a.sender) && Within(pairs[k].b.sender))
    && (forall k | 0 <= k < |pairs| - 1 :: && NoRollover(pairs[k].a.sender, pairs[k + 1].a.sender)
                                           && NoRollover(pairs[k].b.sender, pairs[k + 1].b.sender))
  }

  // ---------------------------------------------------------------- what may be acknowledged

  /** One past the last number that the sender has used or needs. */
  function Bound(s: Sender): nat { Max(|s.stream.written| + 2, s.window.next) }

  /** How `x` sees `y`. */
  function ViewOf(x: Connection, y: Connection, begun: bool): Peer {
    Peer(y.sender, begun, Bound(y.sender), Bound(x.sender))
  }

  lemma SoundBound(s: Sender)
    requires Core(s)
    ensures Bound(s) == |s.stream.written| + 2
  {
    hide Clocked, Handshaking;
  }

  /** Whatever the peer sends, the receiver takes for what it is. */
  lemma TakeHears(r: Receiver, seg: Segment, peer: Peer)
    requires r.Valid() && Hearing(r, peer) && Truthful(seg, peer.sender, peer.begun)
    requires Bound(peer.sender) <= peer.limit < TWO_31
    ensures Hearing(r.SegmentReceived(seg), peer)
  {
    hide Receiver.SegmentReceived, Carries, Tracks;
    var isn, stream := peer.sender.window.isn, peer.sender.stream.written;
    if seg.Length() == 0 {
      EmptyTracks(r, seg, isn, stream, peer.limit);
    } else if !peer.begun {
      IgnoredUnset(r, seg);
    } else if v: nat :| Carries(seg, v, isn, stream, peer.sender.stream.ended) {
      DeliveryTracks(r, seg, v, isn, stream, peer.sender.stream.ended, peer.limit);
    } else {
      var v: nat :| Surplus(seg, v, peer.sender);
      SurplusTracks(r, seg, v, isn, stream, peer.limit);
    }
  }

  lemma SentIsProper(y: Connection, log: seq<Segment>, peer: Peer, seg: Segment)
    requires EndInv(y, log, peer) && seg in y.out
    ensures Proper(seg, y.sender, log != [], peer)
  {
    hide ConnInv, Hearing, Speaks, Lapsed, Proper;
  }

  /** A call on one endpoint keeps its invariant and its peer's. */
  lemma CallKeepsBoth(x: Connection, log: seq<Segment>, y: Connection, logY: seq<Segment>, call: Call)
      returns (log': seq<Segment>)
    requires x.Valid() && y.Valid()
    requires EndInv(x, log, ViewOf(x, y, logY != [])) && EndInv(y, logY, ViewOf(y, x, log != []))
    requires call.Arrive? ==> call.seg in y.out
    requires Within(x.sender) && Within(y.sender) && Within(Answer(x, call).sender)
    requires NoRollover(x.sender, Answer(x, call).sender)
    ensures var x' := Answer(x, call);
            EndInv(x', log', ViewOf(x', y, logY != [])) && EndInv(y, logY, ViewOf(y, x', log' != []))
  {
    hide EndInv, Answer, TakesIn, Hearing, Truthful, Known;
    var peer, x' := ViewOf(x, y, logY != []), Answer(x, call);
    if !x.sender.stream.error && call.Arrive? {
      SentIsProper(y, logY, ViewOf(y, x, log != []), call.seg);
      EndIsHearing(x, log, peer);
      TakeHears(x.receiver, call.seg, peer);
    }
    log' := CallKeepsEnd(x, log, peer, call);
    BoundGrows(x, log, peer, x');
    PeerAdvances(x', log', peer, ViewOf(x', y, logY != []));
    PeerAdvances(y, logY, ViewOf(y, x, log != []), ViewOf(y, x', log' != []));
  }

  lemma EndIsHearing(x: Connection, log: seq<Segment>, peer: Peer)
    requires EndInv(x, log, peer)
    ensures Hearing(x.receiver, peer)
  {
  }

  lemma BoundGrows(x: Connection, log: seq<Segment>, peer: Peer, x': Connection)
    requires EndInv(x, log, peer) && Grows(x.sender, x'.sender)
    ensures Bound(x.sender) <= Bound(x'.sender)
  {
    hide Hearing, Lapsed, Speaks, Wired, Core, Tiled;
    if !x.sender.stream.error {
      SoundBound(x.sender);
    }
  }

  // ---------------------------------------------------------------- over a run

  ghost predicate PairInv(p: Pair, logA: seq<Segment>, logB: seq<Segment>) {
    p.Valid() && EndInv(p.a, logA, ViewOf(p.a, p.b, logB != [])) && EndInv(p.b, logB, ViewOf(p.b, p.a, logA != []))
  }

  lemma ActKeepsInv(p: Pair, act: Act, logA: seq<Segment>, logB: seq<Segment>)
      returns (logA': seq<Segment>, logB': seq<Segment>)
    requires PairInv(p, logA, logB) && Possible(p, act) && SmallHistory([p, Enact(p, act)])
    ensures PairInv(Enact(p, act), logA', logB')
  {
    hide EndInv, Answer, Within, NoRollover;
    var pairs := [p, Enact(p, act)];
    assert pairs[0] == p && pairs[1] == Enact(p, act) && pairs[0 + 1] == Enact(p, act);
    logA', logB' := logA, logB;
    match act
    case ByA(call) => logA' := CallKeepsBoth(p.a, logA, p.b, logB, call);
    case ByB(call) => logB' := CallKeepsBoth(p.b, logB, p.a, logA, call);
  }

  lemma {:induction false} HistoryKeepsInv(pairs: seq<Pair>, acts: seq<Act>, k: nat)
      returns (logA: seq<Segment>, logB: seq<Segment>)
    requires IsHistory(pairs, acts) && k <= |acts| && SmallHistory(pairs)
    requires PairInv(pairs[0], [], [])
    ensures PairInv(pairs[k], logA, logB)
  {
    hide PairInv, Enact, Possible, Within, NoRollover;
    if k == 0 {
      logA, logB := [], [];
    } else {
      logA, logB := HistoryKeepsInv(pairs, acts, k - 1);
      assert pairs[k - 1 + 1] == Enact(pairs[k - 1], acts[k - 1]);
      logA, logB := ActKeepsInv(pairs[k - 1], acts[k - 1], logA, logB);
    }
  }

  /** An endpoint as it is created. */
  predicate IsNew(c: Connection) {
    c == NewConnection(c.rtTimeout, c.receiver.reassembler.capacity, c.sender.stream.capacity, c.sender.window.isn)
  }

  predicate IsFresh(p: Pair) { IsNew(p.a) && IsNew(p.b) }

  lemma NewEndInv(c: Connection, peer: Peer)
    requires IsNew(c)
    ensures EndInv(c, [], peer)
  {
    hide ConnInv, Core, Tiled, Logged;
    NewConnectionInv(c.rtTimeout, c.receiver.reassembler.capacity, c.sender.stream.capacity, c.sender.window.isn);
    NewSenderHolds(c.sender.stream.capacity, c.rtTimeout, c.sender.window.isn);
  }

  lemma FreshInv(p: Pair)
    requires IsFresh(p)
    ensures PairInv(p, [], [])
  {
    hide EndInv;
    NewEndInv(p.a, ViewOf(p.a, p.b, false));
    NewEndInv(p.b, ViewOf(p.b, p.a, false));
  }

  /** End-to-end safety both ways. In every state of every run of two endpoints within 2^31 sequence numbers
      each, whatever the network loses, repeats or reorders and whatever is called on either, including
      opening and closing from either side or from both, being reset, and being called after that: the
      bytes handed to each application are a prefix of those the other has written; and while an
      endpoint has not been reset, its window has not gone wrong. */
  lemma BothSinksArePrefixes(pairs: seq<Pair>, acts: seq<Act>, k: nat)
    requires IsHistory(pairs, acts) && k < |pairs| && IsFresh(pairs[0]) && SmallHistory(pairs)
    ensures var p := pairs[k];
            && p.b.receiver.Output().written <= p.a.sender.stream.written
            && p.a.receiver.Output().written <= p.b.sender.stream.written
            && (!p.a.sender.stream.error ==> !p.a.sender.window.faulted)
            && (!p.b.sender.stream.error ==> !p.b.sender.window.faulted)
  {
    hide Within, NoRollover, Core, Tiled, Speaks, Lapsed, Wired, Enact, Possible, IsFresh;
    FreshInv(pairs[0]);
    var logA, logB := HistoryKeepsInv(pairs, acts, k);
  }
}
