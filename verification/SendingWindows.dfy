/** The window of a sender and its retransmission buffer (libsponge/tcp_sending_window.cc). */
module SendingWindows {
  import opened Words
  import opened WrappingIntegers
  import opened Segments

  /** A segment that has been sent and not fully acknowledged, with its own timer. */
  datatype Outstanding = Outstanding(segment: Segment, remaining: U32)

  /** The buffer after `ms` milliseconds: a timer that runs out is left as it was. */
  function Aged(buffer: seq<Outstanding>, ms: nat): seq<Outstanding> {
    seq(|buffer|, i requires 0 <= i < |buffer| =>
      if buffer[i].remaining > ms then buffer[i].(remaining := buffer[i].remaining - ms) else buffer[i])
  }

  /** The segments whose timer runs out within `ms` milliseconds, oldest first. */
  function Expired(buffer: seq<Outstanding>, ms: nat): seq<Segment> {
    if buffer == [] then []
    else
      var n := |buffer| - 1;
      Expired(buffer[..n], ms) + if buffer[n].remaining > ms then [] else [buffer[n].segment]
  }

  /** The buffer with every timer set; `rto` is truncated to the 32-bit timer field. */
  function Rearmed(buffer: seq<Outstanding>, rto: nat): seq<Outstanding> {
    seq(|buffer|, i requires 0 <= i < |buffer| => buffer[i].(remaining := Low32(rto)))
  }

  /** `faulted` records that the program has thrown or indexed past its deque. */
  datatype Window = Window(
    buffer: seq<Outstanding>, isn: U32, first: U64, size: U64, next: U64, faulted: bool)
  {
    function InFlight(): U64 { Low64(next - first) }

    function Space(): U64 { Low64(size - InFlight()) }

    predicate Full() { size == 0 || (buffer != [] && Space() == 0) }

    function Added(seg: Segment, rto: U32): Window {
      this.(buffer := buffer + [Outstanding(seg, rto)],
            next := Low64(Unwrap(seg.header.seqno, isn, next) + seg.Length()))
    }

    /** Where the window believes its `i`th segment starts. */
    function Position(i: nat): U64
      requires i < |buffer|
    {
      Unwrap(buffer[i].segment.header.seqno, isn, next)
    }

    /** Search backward from position `n` for a segment that starts before `ack`; -1 if none does. */
    function Search(ack: U64, n: nat): (i: int)
      requires n <= |buffer|
      ensures -1 <= i < n
      ensures i >= 0 ==> ack > Position(i)
      ensures forall k | 0 <= k < n && k > i :: ack <= Position(k)
    {
      if n == 0 then -1
      else if ack > Position(n - 1) then n - 1
      else Search(ack, n - 1)
    }

    function AckPosition(ackno: U32): U64 { Unwrap(ackno, isn, next) }

    /** The acknowledgment is in the window, repeated or not. */
    predicate Accepts(ackno: U32) { first <= AckPosition(ackno) <= next }

    /** The acknowledgment covers something new. */
    predicate Advances(ackno: U32) { first < AckPosition(ackno) <= next }

    /** The buffer without the segments that `ack` covers entirely. */
    function Trimmed(ack: U64, i: nat): seq<Outstanding>
      requires i < |buffer|
    {
      if ack >= Low64(Position(i) + buffer[i].segment.Length()) then buffer[i + 1..] else buffer[i..]
    }

    function Acked(ackno: U32, advertised: U64): (w: Window)
      ensures w.isn == isn && w.next == next
    {
      var ack := AckPosition(ackno);
      if !Accepts(ackno) then this
      else if !Advances(ackno) then this.(size := advertised)
      else
        var i := Search(ack, |buffer|);
        if i < 0 || Low64(size + (ack - first)) < ack - first then this.(faulted := true)
        else this.(buffer := Trimmed(ack, i), first := ack, size := advertised)
    }
  }

  function NewWindow(isn: U32, size: U64): Window { Window([], isn, 0, size, 0, false) }

  /** An acknowledgment only ever drops segments from the front. */
  lemma AckedDropsFront(w: Window, ackno: U32, advertised: U64)
    ensures var b := w.Acked(ackno, advertised).buffer;
            |b| <= |w.buffer| && b == w.buffer[|w.buffer| - |b|..]
    ensures !w.Advances(ackno) ==> w.Acked(ackno, advertised).buffer == w.buffer
  {
    hide Low64, Window.AckPosition, Window.Search, Window.Position;
  }

  /** Where the program throws: the left edge would carry the right one past 2^64. */
  lemma OverflowIsCaught(w: Window, ackno: U32, advertised: U64)
    requires w.Advances(ackno) && w.size + (w.AckPosition(ackno) - w.first) >= TWO_64
    ensures w.Acked(ackno, advertised) == w.(faulted := true)
  {
    hide Window.AckPosition, Window.Search;
    assert w.size + (w.AckPosition(ackno) - w.first) < 2 * TWO_64;
  }

  lemma ExpiredStep(buffer: seq<Outstanding>, ms: nat, i: nat)
    requires i < |buffer|
    ensures Expired(buffer[..i + 1], ms)
            == Expired(buffer[..i], ms) + if buffer[i].remaining > ms then [] else [buffer[i].segment]
  {
    assert buffer[..i + 1][..i] == buffer[..i];
  }

  class TCPSendingWindow {
    const isn: U32
    var buffer: seq<Outstanding>
    var first: U64
    var size: U64
    var next: U64
    var faulted: bool

    ghost function Model(): Window
      reads this
    {
      Window(buffer, isn, first, size, next, faulted)
    }

    constructor (isn: U32, size: U64)
      ensures Model() == NewWindow(isn, size)
    {
      this.isn := isn;
      buffer := [];
      first, this.size, next, faulted := 0, size, 0, false;
    }

    function BytesInFlight(): U64
      reads this
    {
      Low64(next as int - first as int)
    }

    function Space(): U64
      reads this
    {
      Low64(size as int - BytesInFlight() as int)
    }

    predicate Full()
      reads this
      ensures Full() <==> Model().Full()
    {
      if size == 0 then true
      else if buffer == [] then false
      else Space() <= 0
    }

    /** Refused, where the program throws, when the window is full. */
    method AddSegment(seg: Segment, rto: U32) returns (ok: bool)
      modifies this
      ensures ok == !old(Model().Full())
      ensures Model() == if ok then old(Model()).Added(seg, rto) else old(Model())
    {
      if Full() {
        return false;
      }
      buffer := buffer + [Outstanding(seg, rto)];
      next := Low64(Unwrap(seg.header.seqno, isn, next) + seg.Length());
      return true;
    }

    method AckReceived(ackno: U32, windowSize: U64) returns (advanced: bool)
      modifies this
      ensures Model() == old(Model()).Acked(ackno, windowSize)
      ensures advanced == old(Model()).Advances(ackno)
    {
      hide Unwrap, Low64, Window.Search;
      ghost var w := Model();
      var ack: U64 := Unwrap(ackno, isn, next);
      if ack > next || ack < first {
        return false;
      }
      if ack == first {
        size := windowSize;
        return false;
      }
      var i := SearchBack(ack);
      if i < 0 {
        faulted := true;
        return true;
      }
      var kept := buffer[i..];
      if ack >= Low64(Unwrap(kept[0].segment.header.seqno, isn, next) + kept[0].segment.Length()) {
        kept := kept[1..];
      }
      assert kept == w.Trimmed(ack, i);
      var step := ack as int - first as int;
      if Low64(size + step) < step {
        faulted := true;
        return true;
      }
      buffer := kept;
      first := ack;
      size := windowSize;
      return true;
    }

    /** The search loop of `ack_received`. */
    method SearchBack(ack: U64) returns (i: int)
      ensures i == Model().Search(ack, |buffer|)
    {
      hide Unwrap;
      i := |buffer| - 1;
      while i >= 0 && ack <= Unwrap(buffer[i].segment.header.seqno, isn, next)
        invariant -1 <= i < |buffer|
        invariant Model().Search(ack, |buffer|) == Model().Search(ack, i + 1)
      {
        i := i - 1;
      }
    }

    method Tick(ms: nat) returns (ret: seq<Segment>)
      modifies this`buffer
      ensures ret == Expired(old(buffer), ms)
      ensures Model() == old(Model()).(buffer := Aged(old(buffer), ms))
    {
      ret := [];
      var i := 0;
      while i < |buffer|
        invariant 0 <= i <= |buffer| == |old(buffer)|
        invariant forall k | 0 <= k < i :: buffer[k] == Aged(old(buffer), ms)[k]
        invariant forall k | i <= k < |buffer| :: buffer[k] == old(buffer)[k]
        invariant ret == Expired(old(buffer)[..i], ms)
      {
        ExpiredStep(old(buffer), ms, i);
        if buffer[i].remaining > ms {
          buffer := buffer[i := buffer[i].(remaining := buffer[i].remaining - ms)];
        } else {
          ret := ret + [buffer[i].segment];
        }
        i := i + 1;
      }
      assert old(buffer)[..i] == old(buffer);
    }

    method ResetTimer(rto: nat)
      modifies this`buffer
      ensures Model() == old(Model()).(buffer := Rearmed(old(buffer), rto))
    {
      var i := 0;
      while i < |buffer|
        invariant 0 <= i <= |buffer| == |old(buffer)|
        invariant forall k | 0 <= k < i :: buffer[k] == Rearmed(old(buffer), rto)[k]
        invariant forall k | i <= k < |buffer| :: buffer[k] == old(buffer)[k]
      {
        buffer := buffer[i := buffer[i].(remaining := Low32(rto))];
        i := i + 1;
      }
    }
  }
}
