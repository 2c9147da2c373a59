/** The retransmission buffer tiles the unacknowledged sequence numbers
    (libsponge/tcp_sending_window.cc). */
module Tiling {
  import opened Words
  import opened WrappingIntegers
  import opened Segments
  import opened SendingWindows

  function Segs(buffer: seq<Outstanding>): (g: seq<Segment>)
    ensures |g| == |buffer|
    ensures forall i | 0 <= i < |g| :: g[i] == buffer[i].segment
  {
    seq(|buffer|, i requires 0 <= i < |buffer| => buffer[i].segment)
  }

  /** The sequence numbers a list of segments takes up. */
  function Span(g: seq<Segment>): nat {
    if g == [] then 0 else Span(g[..|g| - 1]) + g[|g| - 1].Length()
  }

  lemma {:induction false} SpanConcat(a: seq<Segment>, b: seq<Segment>)
    ensures Span(a + b) == Span(a) + Span(b)
  {
    if b == [] {
      assert a + b == a;
    } else {
      assert (a + b)[..|a + b| - 1] == a + b[..|b| - 1];
      SpanConcat(a, b[..|b| - 1]);
    }
  }

  lemma SpanOne(seg: Segment)
    ensures Span([seg]) == seg.Length()
  {
    assert [seg][..0] == [];
  }

  lemma SpanSplit(g: seq<Segment>, i: nat)
    requires i <= |g|
    ensures Span(g) == Span(g[..i]) + Span(g[i..])
  {
    assert g == g[..i] + g[i..];
    SpanConcat(g[..i], g[i..]);
  }

  /** Where the `i`th outstanding segment starts, counted back from the next number. */
  function At(w: Window, i: nat): int
    requires i <= |w.buffer|
  {
    w.next - Span(Segs(w.buffer)[i..])
  }

  /** The `i`th outstanding segment is non-empty and numbered by the place it has in the buffer. */
  predicate Placed(w: Window, i: nat)
    requires i < |w.buffer|
  {
    && w.buffer[i].segment.Length() >= 1
    && 0 <= At(w, i) < TWO_64
    && w.buffer[i].segment.header.seqno == Wrap(At(w, i), w.isn)
  }

  /** The outstanding segments are non-empty and follow one another without a gap up to the next
      number, and the first unacknowledged number lies in the front one. */
  ghost predicate Tiled(w: Window) {
    && (forall i | 0 <= i < |w.buffer| :: Placed(w, i))
    && (if w.buffer == [] then w.first == w.next
        else At(w, 0) <= w.first < At(w, 1))
  }

  /** All of the `i`th outstanding segment lies before `ack`. */
  predicate Covered(w: Window, i: nat, ack: U64)
    requires i < |w.buffer|
  {
    At(w, i + 1) <= ack
  }

  /** Fewer than 2^31 numbers are outstanding. */
  predicate Narrow(w: Window) { Span(Segs(w.buffer)) < TWO_31 }

  /** The next number lies between 2^32 and 2^33, and the outstanding segment that `ack` points into
      or just past starts before 2^32. */
  predicate Straddled(w: Window, ack: U64) {
    w.next / TWO_32 == 1 && exists i :: 0 <= i < |w.buffer| && At(w, i) < Min(TWO_32, ack) && ack <= At(w, i + 1)
  }

  /** The window can take this acknowledgment. */
  predicate Readable(w: Window, ackno: U32) {
    Narrow(w) && !(w.Advances(ackno) && Straddled(w, w.AckPosition(ackno)))
  }

  lemma AtStep(w: Window, i: nat)
    requires i < |w.buffer|
    ensures At(w, i + 1) == At(w, i) + w.buffer[i].segment.Length()
  {
    var g := Segs(w.buffer);
    assert g[i..] == [g[i]] + g[i + 1..];
    SpanConcat([g[i]], g[i + 1..]);
    SpanOne(g[i]);
  }

  lemma {:induction false} AtGrows(w: Window, i: nat, j: nat)
    requires i <= j <= |w.buffer|
    ensures At(w, i) <= At(w, j) <= w.next
    ensures Tiled(w) && i < j ==> At(w, i) < At(w, j)
    decreases j - i
  {
    if i < j {
      assert Tiled(w) ==> Placed(w, i);
      AtStep(w, i);
      AtGrows(w, i + 1, j);
    } else if i < |w.buffer| {
      AtStep(w, i);
    }
  }

  /** The window sees a segment less than 2^31 back where it is, unless the segment lies before 2^32
      and the next number between 2^32 and 2^33. */
  lemma PositionIsExactExactly(w: Window, i: nat)
    requires Tiled(w) && i < |w.buffer| && w.next - At(w, i) < TWO_31
    ensures w.Position(i) == At(w, i) <==> !(w.next / TWO_32 == 1 && At(w, i) < TWO_32)
  {
    hide Wrap, Unwrap;
    AtGrows(w, 0, i);
    assert Placed(w, i);
    UnwrapInvertsWrap(At(w, i), w.isn, w.next);
  }

  /** A segment that is not seen where it is, is seen beyond the next number. */
  lemma PositionIs(w: Window, i: nat)
    requires Tiled(w) && Narrow(w) && i < |w.buffer|
    ensures if w.next / TWO_32 == 1 && At(w, i) < TWO_32 then w.Position(i) > w.next
            else w.Position(i) == At(w, i)
  {
    hide Wrap, Unwrap;
    AtGrows(w, 0, i);
    PositionIsExactExactly(w, i);
    assert Placed(w, i);
    UnwrapWrapsBack(w.buffer[i].segment.header.seqno, w.isn, w.next);
    SameResidue(At(w, i), w.Position(i), w.isn);
  }

  lemma AddedAt(w: Window, w': Window, o: Outstanding, i: nat)
    requires w'.buffer == w.buffer + [o] && w'.next == w.next + o.segment.Length() && i <= |w.buffer|
    ensures At(w', i) == At(w, i)
  {
    var g := Segs(w.buffer);
    assert Segs(w'.buffer)[i..] == g[i..] + [o.segment];
    SpanConcat(g[i..], [o.segment]);
    SpanOne(o.segment);
  }

  lemma AtEnd(w: Window)
    ensures At(w, |w.buffer|) == w.next
  {
  }

  lemma AddedTiles(w: Window, seg: Segment, rto: U32)
    requires Tiled(w) && w.next + seg.Length() < TWO_64 && seg.Length() >= 1
    requires seg.header.seqno == Wrap(w.next, w.isn)
    ensures Tiled(w.Added(seg, rto))
    ensures w.Added(seg, rto).next == w.next + seg.Length()
  {
    hide Wrap, Unwrap, At;
    UnwrapAtCheckpoint(w.next, w.isn);
    var w' := w.Added(seg, rto);
    forall i | 0 <= i < |w'.buffer| ensures Placed(w', i) {
      AddedAt(w, w', w'.buffer[|w.buffer|], i);
      if i < |w.buffer| {
        assert Placed(w, i);
      } else {
        AtEnd(w);
      }
    }
    AddedAt(w, w', w'.buffer[|w.buffer|], 0);
    if |w.buffer| > 0 {
      AddedAt(w, w', w'.buffer[|w.buffer|], 1);
    } else {
      AtEnd(w);
      AtEnd(w');
    }
  }

  /** Only the timers differ. */
  lemma SameSegmentsTile(w: Window, buffer: seq<Outstanding>)
    requires Tiled(w) && Segs(buffer) == Segs(w.buffer)
    ensures Tiled(w.(buffer := buffer))
  {
    hide Wrap;
    var w' := w.(buffer := buffer);
    forall i | 0 <= i < |buffer| ensures Placed(w', i) {
      assert Placed(w, i) && Segs(buffer)[i] == Segs(w.buffer)[i];
    }
  }

  lemma SuffixAt(w: Window, w': Window, j: nat, i: nat)
    requires j <= |w.buffer| && w'.buffer == w.buffer[j..] && w'.next == w.next && i <= |w'.buffer|
    ensures At(w', i) == At(w, i + j)
  {
    assert Segs(w'.buffer)[i..] == Segs(w.buffer)[i + j..];
  }

  /** Dropping the covered segments keeps the tiling. */
  lemma SuffixTiles(w: Window, w': Window, j: nat)
    requires Tiled(w) && j <= |w.buffer|
    requires w'.buffer == w.buffer[j..] && w'.next == w.next && w'.isn == w.isn
    requires if j < |w.buffer| then At(w, j) <= w'.first < At(w, j + 1) else w'.first == w.next
    ensures Tiled(w')
  {
    hide Wrap, At;
    forall i | 0 <= i < |w'.buffer| ensures Placed(w', i) {
      SuffixAt(w, w', j, i);
      assert Placed(w, i + j);
    }
    if j < |w.buffer| {
      SuffixAt(w, w', j, 0);
      SuffixAt(w, w', j, 1);
    }
  }

  /** Some outstanding segment is the one that `ack` points into or just past. */
  lemma {:induction false} TileOf(w: Window, ack: U64, n: nat) returns (i: nat)
    requires n <= |w.buffer| && n > 0 && At(w, 0) < ack <= At(w, n)
    ensures i < n && At(w, i) < ack <= At(w, i + 1)
  {
    if At(w, n - 1) < ack {
      i := n - 1;
    } else {
      i := TileOf(w, ack, n - 1);
    }
  }

  /** The backward search finds the segment that the acknowledgment points into or just past, if and
      only if that segment does not start before 2^32 with the next number beyond. */
  lemma SearchFindsExactly(w: Window, ack: U64)
    requires Tiled(w) && Narrow(w) && w.first < ack <= w.next
    ensures var i := w.Search(ack, |w.buffer|);
            if Straddled(w, ack) then i == -1
            else i >= 0 && w.Position(i) == At(w, i) < ack <= At(w, i + 1)
  {
    hide Wrap, Unwrap, At, Narrow, Window.Search, Window.Position;
    AtEnd(w);
    var t := TileOf(w, ack, |w.buffer|);
    forall k: nat | k < |w.buffer|
      ensures k < t ==> At(w, k) < At(w, t)
      ensures k > t ==> ack <= At(w, t + 1) <= At(w, k)
      ensures if w.next / TWO_32 == 1 && At(w, k) < TWO_32 then w.Position(k) > w.next
              else w.Position(k) == At(w, k)
    {
      PositionIs(w, k);
      if k < t {
        AtGrows(w, k, t);
      } else if k > t {
        AtGrows(w, t + 1, k);
      }
    }
    TileIsOne(w, ack, t);
  }

  lemma TileIsOne(w: Window, ack: U64, t: nat)
    requires Tiled(w) && t < |w.buffer| && At(w, t) < ack <= At(w, t + 1)
    ensures Straddled(w, ack) <==> w.next / TWO_32 == 1 && At(w, t) < TWO_32
  {
    hide At;
    if w.next / TWO_32 == 1 && At(w, t) < TWO_32 {
      assert At(w, t) < Min(TWO_32, ack);
    } else if Straddled(w, ack) {
      var i :| 0 <= i < |w.buffer| && At(w, i) < Min(TWO_32, ack) && ack <= At(w, i + 1);
      if i < t {
        AtGrows(w, i + 1, t);
      } else if i > t {
        AtGrows(w, t + 1, i);
      }
    }
  }

  lemma AckedFound(w: Window, ackno: U32, advertised: U64, i: nat)
    requires w.Advances(ackno) && i < |w.buffer| && i == w.Search(w.AckPosition(ackno), |w.buffer|)
    requires Low64(w.size + (w.AckPosition(ackno) - w.first)) >= w.AckPosition(ackno) - w.first
    ensures var ack := w.AckPosition(ackno);
            w.Acked(ackno, advertised) == w.(buffer := w.Trimmed(ack, i), first := ack, size := advertised)
  {
    hide Low64, Window.Search, Window.Position, Window.AckPosition, Window.Trimmed;
  }

  lemma TrimmedAt(w: Window, ack: U64, i: nat, end: U64)
    requires i < |w.buffer| && w.Position(i) + w.buffer[i].segment.Length() == end
    ensures w.Trimmed(ack, i) == if ack >= end then w.buffer[i + 1..] else w.buffer[i..]
  {
    hide Low64, Window.Position;
  }

  /** What an acknowledgment of something new does: it drops the segments up to some `j`. */
  lemma AckedDrops(w: Window, ackno: U32, advertised: U64) returns (j: nat)
    requires Tiled(w) && Readable(w, ackno) && w.size < TWO_16 && w.Advances(ackno)
    ensures j <= |w.buffer|
    ensures var ack := w.AckPosition(ackno);
            && w.Acked(ackno, advertised) == w.(buffer := w.buffer[j..], first := ack, size := advertised)
            && At(w, j) <= ack
            && (j < |w.buffer| ==> ack < At(w, j + 1))
  {
    hide Tiled, At, Low64, Narrow, Straddled, Window.Search, Window.Position, Window.AckPosition, Window.Acked,
         Window.Trimmed;
    var ack := w.AckPosition(ackno);
    SearchFindsExactly(w, ack);
    NoOverflow(w, ack);
    var i := w.Search(ack, |w.buffer|);
    AtStep(w, i);
    AtGrows(w, i + 1, |w.buffer|);
    AckedFound(w, ackno, advertised, i);
    TrimmedAt(w, ack, i, At(w, i + 1));
    if ack < At(w, i + 1) {
      j := i;
    } else {
      j := i + 1;
      if j < |w.buffer| {
        AtGrows(w, j, j + 1);
      }
    }
  }

  lemma CoveredBelow(w: Window, j: nat, ack: U64, i: nat)
    requires Tiled(w) && j <= |w.buffer| && i < |w.buffer|
    requires At(w, j) <= ack && (j < |w.buffer| ==> ack < At(w, j + 1))
    ensures i < j <==> Covered(w, i, ack)
  {
    hide At;
    if i < j {
      AtGrows(w, i + 1, j);
    } else {
      AtGrows(w, j + 1, i + 1);
    }
  }

  /** An acknowledgment that the window can take removes exactly the segments it covers entirely,
      keeps the tiling, and neither throws nor searches in vain. */
  lemma AckedTiles(w: Window, ackno: U32, advertised: U64) returns (j: nat)
    requires Tiled(w) && Readable(w, ackno) && w.size < TWO_16
    ensures j <= |w.buffer|
    ensures var w' := w.Acked(ackno, advertised);
            && Tiled(w') && w'.faulted == w.faulted
            && w'.buffer == w.buffer[j..]
            && w'.first == (if w.Advances(ackno) then w.AckPosition(ackno) else w.first)
            && (w.Accepts(ackno) ==> w'.size == advertised)
    ensures forall i | 0 <= i < |w.buffer| :: i < j <==> Covered(w, i, w.Acked(ackno, advertised).first)
  {
    hide Wrap, At, Low64, Readable, Placed, Covered, Window.Search, Window.Position, Window.AckPosition;
    var w' := w.Acked(ackno, advertised);
    AtEnd(w);
    if w.Advances(ackno) {
      j := AckedDrops(w, ackno, advertised);
    } else {
      j := 0;
    }
    SuffixTiles(w, w', j);
    forall i | 0 <= i < |w.buffer| ensures i < j <==> Covered(w, i, w'.first) {
      CoveredBelow(w, j, w'.first, i);
    }
  }

  /** The window goes wrong if and only if it cannot take the acknowledgment, and the fault is all
      that changes. */
  lemma AckFaultsExactly(w: Window, ackno: U32, advertised: U64)
    requires Tiled(w) && Narrow(w) && w.size < TWO_16
    ensures w.Acked(ackno, advertised).faulted <==> w.faulted || !Readable(w, ackno)
    ensures !Readable(w, ackno) ==> w.Acked(ackno, advertised) == w.(faulted := true)
  {
    hide Tiled, At, Low64, Narrow, Straddled, Window.Search, Window.Position, Window.AckPosition, Window.Trimmed;
    if Readable(w, ackno) {
      var j := AckedTiles(w, ackno, advertised);
    } else {
      SearchFindsExactly(w, w.AckPosition(ackno));
    }
  }

  lemma NoOverflow(w: Window, ack: U64)
    requires Tiled(w) && Narrow(w) && w.size < TWO_16 && w.first < ack <= w.next
    ensures Low64(w.size + (ack - w.first)) >= ack - w.first
  {
    AtGrows(w, 0, |w.buffer|);
  }

  /** An input at which the window searches in vain: three bytes that start one number before 2^32
      are acknowledged in full. */
  lemma StraddlingAckFaults(isn: U32, timer: U32, size: U64, advertised: U64)
    requires size < TWO_16
    ensures var seg := Segment(BLANK.(seqno := Wrap(TWO_32 - 1, isn)), [0, 0, 0]);
            var w := Window([Outstanding(seg, timer)], isn, TWO_32 - 1, size, TWO_32 + 2, false);
            && Tiled(w) && Narrow(w) && !Readable(w, Wrap(TWO_32 + 2, isn))
            && w.Acked(Wrap(TWO_32 + 2, isn), advertised).faulted
  {
    hide Wrap, Unwrap;
    var seg := Segment(BLANK.(seqno := Wrap(TWO_32 - 1, isn)), [0, 0, 0]);
    var w := Window([Outstanding(seg, timer)], isn, TWO_32 - 1, size, TWO_32 + 2, false);
    AtEnd(w);
    AtStep(w, 0);
    assert Placed(w, 0);
    assert Segs(w.buffer)[0..] == Segs(w.buffer);
    UnwrapAtCheckpoint(w.next, isn);
    assert At(w, 0) < Min(TWO_32, w.next);
    AckFaultsExactly(w, Wrap(TWO_32 + 2, isn), advertised);
  }
}
