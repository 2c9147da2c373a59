/** What a reassembler guarantees over whole runs of pushes and reads
    (libsponge/stream_reassembler.cc). */
module ReassemblyRuns {
  import opened Words
  import opened Reassembly

  /** `data` is what `stream` holds from `index` on. */
  predicate Slice(data: seq<Byte>, index: nat, stream: seq<Byte>) {
    data == [] || (index + |data| <= |stream| && data == stream[index..index + |data|])
  }

  /** Everything stored and everything written agrees with `stream`. */
  ghost predicate Holds(r: Reassembler, stream: seq<Byte>) {
    && r.Valid()
    && r.firstUnacceptable <= |stream|
    && (forall i | 0 <= i < |r.count| && r.count[i] > 0 ::
          i < r.firstUnacceptable && r.buffer[i] == stream[i])
    && r.output.written <= stream
  }

  ghost predicate Agrees(r: Reassembler, stream: seq<Byte>) {
    r.Valid() && r.Settled() && Holds(r, stream)
  }

  /** The assembled count never passes the highest index seen. */
  lemma AssembledWithinSeen(r: Reassembler, stream: seq<Byte>)
    requires Holds(r, stream)
    ensures |r.output.written| <= r.firstUnassembled <= r.firstUnacceptable <= |stream|
    ensures !r.output.ended ==> |r.output.written| == r.firstUnassembled
  {
    if r.firstUnassembled > 0 {
      assert r.count[r.firstUnassembled - 1] > 0;
    }
  }

  lemma StoredHolds(r: Reassembler, data: seq<Byte>, index: U64, stream: seq<Byte>)
    requires Holds(r, stream) && |stream| < TWO_64 && Slice(data, index, stream)
    ensures Holds(r.Stored(data, index), stream)
  {
  }

  lemma FlushedHolds(r: Reassembler, stream: seq<Byte>)
    requires Holds(r, stream)
    ensures Agrees(r.Flushed(), stream)
  {
    AssembledWithinSeen(r, stream);
    var j := FirstGap(r.count, r.firstUnassembled);
    var s := r.buffer[r.firstUnassembled..j];
    assert j > r.firstUnassembled ==> r.count[j - 1] > 0;
    assert s == stream[r.firstUnassembled..j];
    if r.output.ended {
      assert r.output.Write(s).written == r.output.written;
    } else {
      assert r.output.Accepts(s) == |s|;
      assert r.Flushed().output.written == stream[..j];
    }
  }

  lemma PushAgrees(r: Reassembler, data: seq<Byte>, index: U64, eof: bool, stream: seq<Byte>)
    requires Agrees(r, stream) && |stream| < TWO_64 && Slice(data, index, stream)
    ensures Agrees(r.Push(data, index, eof), stream)
  {
    var t := r.Resized().(eofed := r.eofed || eof);
    StoredHolds(t, data, index, stream);
    FlushedHolds(t.Stored(data, index), stream);
  }

  lemma AgreesExtends(r: Reassembler, stream: seq<Byte>, more: seq<Byte>)
    requires Agrees(r, stream) && stream <= more
    ensures Agrees(r, more)
  {
  }

  /** A call: the network pushes a substring, or the reader takes bytes. */
  datatype Op = PushOp(data: seq<Byte>, index: U64, eof: bool) | ReadOp(len: nat) {

    /** The call is about `stream`; only its last byte may be flagged as the end. */
    predicate About(stream: seq<Byte>) {
      PushOp? ==> Slice(data, index, stream) && (eof ==> index + |data| == |stream|)
    }

    predicate Covers(i: nat) { PushOp? && index <= i < index + |data| }
  }

  function Step(r: Reassembler, op: Op): (r': Reassembler)
    requires r.Valid()
    ensures r'.Valid()
  {
    match op
    case PushOp(data, index, eof) => r.Push(data, index, eof)
    case ReadOp(len) => r.ReadOut(len)
  }

  function Run(r: Reassembler, ops: seq<Op>): (r': Reassembler)
    requires r.Valid()
    ensures r'.Valid()
  {
    if ops == [] then r else Step(Run(r, ops[..|ops| - 1]), ops[|ops| - 1])
  }

  ghost predicate AllAbout(ops: seq<Op>, stream: seq<Byte>) {
    forall op | op in ops :: op.About(stream)
  }

  /** Whatever arrives in whatever order, however cut, repeated or truncated: what is handed on is a
      prefix of the stream, and it stops at the first byte that is not there yet. */
  lemma {:induction false} RunAgrees(r: Reassembler, ops: seq<Op>, stream: seq<Byte>)
    requires Agrees(r, stream) && |stream| < TWO_64 && AllAbout(ops, stream)
    ensures Agrees(Run(r, ops), stream)
  {
    if ops != [] {
      var n := |ops| - 1;
      RunAgrees(r, ops[..n], stream);
      assert ops[n] in ops;
      if ops[n].PushOp? {
        PushAgrees(Run(r, ops[..n]), ops[n].data, ops[n].index, ops[n].eof, stream);
      }
    }
  }

  // ---------------------------------------------------------------- order does not matter

  /** No push of the run was cut short by the capacity. */
  ghost predicate Untruncated(r: Reassembler, ops: seq<Op>)
    requires r.Valid()
  {
    forall k | 0 <= k < |ops| && ops[k].PushOp? && ops[k].data != [] ::
      ops[k].index + |ops[k].data| <= Run(r, ops[..k]).Size()
  }

  ghost predicate CoveredBy(ops: seq<Op>, i: nat) {
    exists op :: op in ops && op.Covers(i)
  }

  ghost predicate Holding(r: Reassembler, i: nat) { i < |r.count| && r.count[i] > 0 }

  /** What a push stores: the bytes it covers, as far as they fit. */
  lemma PushStores(r: Reassembler, op: Op, i: nat)
    requires r.Valid() && op.PushOp?
    ensures Holding(Step(r, op), i) <==> Holding(r, i) || (op.Covers(i) && i < r.Size())
  {
  }

  lemma PushHolding(r: Reassembler, op: Op, i: nat)
    requires r.Valid() && op.PushOp?
    requires op.data == [] || op.index + |op.data| <= r.Size()
    ensures Holding(Step(r, op), i) <==> Holding(r, i) || op.Covers(i)
  {
    PushStores(r, op, i);
  }

  /** It does not matter where nothing is pushed. */
  lemma PushNothingAnywhere(r: Reassembler, i: U64, j: U64, eof: bool)
    requires r.Valid()
    ensures r.Push([], i, eof) == r.Push([], j, eof)
  {
    var t := r.Resized().(eofed := r.eofed || eof);
    StoreNone(t.buffer, t.count, i);
    StoreNone(t.buffer, t.count, j);
    assert t.Stored([], i) == t.Stored([], j);
  }

  lemma SizeCoversAssembled(r: Reassembler)
    requires r.Valid()
    ensures r.firstUnassembled <= r.Size()
  {
  }

  lemma AssembledGrows(r: Reassembler, op: Op)
    requires r.Valid()
    ensures Step(r, op).firstUnassembled >= r.firstUnassembled
  {
  }

  /** What arrives in order, and fits, is assembled on the spot. */
  lemma InOrderIsAssembled(r: Reassembler, op: Op)
    requires r.Valid() && op.PushOp?
    requires op.data == [] || (op.index + |op.data| <= r.Size() && op.index <= r.firstUnassembled)
    ensures op.data != [] ==> Step(r, op).firstUnassembled >= op.index + |op.data|
  {
    PushHolding(r, op, Step(r, op).firstUnassembled);
  }

  /** What arrives in order but does not all fit leaves the mark beyond what is assembled. */
  lemma TruncatedLeavesMark(r: Reassembler, op: Op, stream: seq<Byte>)
    requires r.Valid() && op.PushOp? && op.About(stream) && |stream| < TWO_64
    requires op.data != [] && op.index <= r.firstUnassembled && op.index + |op.data| > r.Size()
    ensures Step(r, op).firstUnassembled <= r.Size() < Step(r, op).firstUnacceptable
    ensures Step(r, op).output.ended == r.output.ended
    ensures |Step(r, op).output.written| <= Step(r, op).firstUnassembled
  {
  }

  lemma {:induction false} HoldsExactlyTheCovered(capacity: nat, ops: seq<Op>, i: nat)
    requires Untruncated(NewReassembler(capacity), ops)
    ensures Holding(Run(NewReassembler(capacity), ops), i) <==> CoveredBy(ops, i)
  {
    if ops != [] {
      var n := |ops| - 1;
      var r := NewReassembler(capacity);
      assert ops == ops[..n] + [ops[n]];
      forall k | 0 <= k < n ensures ops[..n][..k] == ops[..k] {}
      HoldsExactlyTheCovered(capacity, ops[..n], i);
      if ops[n].PushOp? {
        PushHolding(Run(r, ops[..n]), ops[n], i);
      }
      assert CoveredBy(ops, i) <==> CoveredBy(ops[..n], i) || ops[n].Covers(i);
    }
  }

  lemma StartAgrees(capacity: nat, ops: seq<Op>, stream: seq<Byte>)
    requires |stream| < TWO_64 && AllAbout(ops, stream)
    ensures Agrees(Run(NewReassembler(capacity), ops), stream)
  {
    RunAgrees(NewReassembler(capacity), ops, stream);
  }

  /** The assembled count is the least index that no push has covered. */
  lemma AssemblesTheLongestPrefix(capacity: nat, ops: seq<Op>, stream: seq<Byte>)
    requires |stream| < TWO_64 && AllAbout(ops, stream)
    requires Untruncated(NewReassembler(capacity), ops)
    ensures var r := Run(NewReassembler(capacity), ops);
            && r.firstUnassembled <= |stream|
            && (forall i | 0 <= i < r.firstUnassembled :: CoveredBy(ops, i))
            && !CoveredBy(ops, r.firstUnassembled)
            && (!r.output.ended ==> r.output.written == stream[..r.firstUnassembled])
  {
    var r := Run(NewReassembler(capacity), ops);
    StartAgrees(capacity, ops, stream);
    AssembledWithinSeen(r, stream);
    forall i: nat ensures Holding(r, i) <==> CoveredBy(ops, i) {
      HoldsExactlyTheCovered(capacity, ops, i);
    }
    forall i | 0 <= i < r.firstUnassembled ensures CoveredBy(ops, i) {
      assert Holding(r, i);
    }
    assert !Holding(r, r.firstUnassembled);
  }

  ghost predicate SamePushes(a: seq<Op>, b: seq<Op>) {
    forall op: Op | op.PushOp? :: op in a <==> op in b
  }

  /** Two runs that made the same pushes, in any order and any number of times, with any reads in
      between and even with different capacities, have assembled equally much. If no end marker
      came as an empty substring they have also produced the same output and the same end. */
  lemma OrderDoesNotMatter(capA: nat, a: seq<Op>, capB: nat, b: seq<Op>, stream: seq<Byte>)
    requires |stream| < TWO_64 && AllAbout(a, stream) && AllAbout(b, stream) && SamePushes(a, b)
    requires Untruncated(NewReassembler(capA), a) && Untruncated(NewReassembler(capB), b)
    ensures var ra, rb := Run(NewReassembler(capA), a), Run(NewReassembler(capB), b);
            && ra.firstUnassembled == rb.firstUnassembled
            && ((forall op | op in a && op.PushOp? && op.eof :: op.data != [] || stream == []) ==>
                  ra.output.written == rb.output.written && ra.output.ended == rb.output.ended)
  {
    hide Run, Untruncated, Reassembler.Valid, Holds, Agrees;
    var ra, rb := Run(NewReassembler(capA), a), Run(NewReassembler(capB), b);
    AssemblesTheLongestPrefix(capA, a, stream);
    AssemblesTheLongestPrefix(capB, b, stream);
    assert CoveredBy(a, rb.firstUnassembled) <==> CoveredBy(b, rb.firstUnassembled);
    assert CoveredBy(b, ra.firstUnassembled) <==> CoveredBy(a, ra.firstUnassembled);
    if forall op | op in a && op.PushOp? && op.eof :: op.data != [] || stream == [] {
      UntruncatedEofReaches(capA, a, stream);
      UntruncatedEofReaches(capB, b, stream);
      EofedIffFlagged(NewReassembler(capA), a);
      EofedIffFlagged(NewReassembler(capB), b);
      SameEnd(ra, rb, stream);
    }
  }

  lemma SameEnd(ra: Reassembler, rb: Reassembler, stream: seq<Byte>)
    requires EofReached(ra, stream) && EofReached(rb, stream)
    requires ra.firstUnassembled == rb.firstUnassembled && ra.eofed == rb.eofed
    ensures ra.output.written == rb.output.written && ra.output.ended == rb.output.ended
  {
  }

  // ---------------------------------------------------------------- the end of the stream

  /** The output has ended exactly when the end has been flagged and every byte handed on. */
  predicate EofExact(r: Reassembler, stream: seq<Byte>) {
    r.output.ended <==> r.eofed && |r.output.written| == |stream|
  }

  /** Once the end has been flagged, the highest index seen is the end of the stream. */
  ghost predicate EofReached(r: Reassembler, stream: seq<Byte>) {
    && Agrees(r, stream)
    && (r.eofed ==> r.firstUnacceptable == |stream|)
    && (r.output.ended <==> r.eofed && r.firstUnassembled == |stream|)
    && |r.output.written| == r.firstUnassembled
  }

  /** At the flagged push: the end of the stream has been seen before, or at most the last byte of
      a non-empty substring fails to fit. */
  predicate EndInReach(r: Reassembler, data: seq<Byte>, index: U64, stream: seq<Byte>) {
    r.firstUnacceptable == |stream| || (data != [] && |data| <= Fits(|data|, index, r.Size()) + 1)
  }

  /** The mark after a push. */
  function MarkAfter(r: Reassembler, op: Op): nat
    requires op.PushOp?
  {
    Raised(r.firstUnacceptable, |op.data|, op.index, Fits(|op.data|, op.index, r.Size()))
  }

  /** What a push does to the end marker, the mark and the end of the output. */
  lemma PushMarks(r: Reassembler, op: Op)
    requires r.Valid() && op.PushOp?
    ensures var t := Step(r, op);
            && t.eofed == (r.eofed || op.eof)
            && t.firstUnacceptable == MarkAfter(r, op)
            && (t.output.ended <==> r.output.ended || (t.eofed && t.Empty()))
            && (r.output.ended ==> t.output.written == r.output.written)
            && (!r.output.ended ==> |t.output.written| == t.firstUnassembled)
  {
  }

  /** Nothing is held at or beyond the mark. */
  ghost predicate HeldBelowMark(r: Reassembler) {
    forall i: nat | Holding(r, i) :: i < r.firstUnacceptable
  }

  lemma PushKeepsHeldBelowMark(r: Reassembler, op: Op)
    requires r.Valid() && op.PushOp? && HeldBelowMark(r) && r.Size() + 1 < TWO_64
    ensures HeldBelowMark(Step(r, op))
  {
    hide Reassembler.Push, Reassembler.Valid, Holding;
    PushMarks(r, op);
    forall i: nat | Holding(Step(r, op), i) ensures i < Step(r, op).firstUnacceptable {
      PushStores(r, op, i);
    }
  }

  /** The byte at `k` is below the mark that the push leaves, but neither held nor brought by it. */
  ghost predicate Missing(r: Reassembler, op: Op, k: nat)
    requires op.PushOp?
  {
    r.firstUnassembled <= k < MarkAfter(r, op) && !Holding(r, k) && !(op.Covers(k) && k < r.Size())
  }

  /** A push ends the output if and only if the end is or has been flagged and no byte is missing. */
  lemma PushEndsExactly(r: Reassembler, op: Op)
    requires r.Valid() && HeldBelowMark(r) && r.Size() + 1 < TWO_64
    requires op.PushOp? && !r.output.ended
    ensures Step(r, op).output.ended <==> (r.eofed || op.eof) && forall k: nat :: !Missing(r, op, k)
  {
    hide Reassembler.Push;
    var t := Step(r, op);
    PushMarks(r, op);
    PushKeepsHeldBelowMark(r, op);
    AssembledGrows(r, op);
    PushSettles(r, op);
    forall k: nat ensures Holding(t, k) <==> Holding(r, k) || (op.Covers(k) && k < r.Size()) {
      PushStores(r, op, k);
    }
    AssembledBelowMark(t);
    if t.firstUnassembled < t.firstUnacceptable {
      assert Missing(r, op, t.firstUnassembled);
    } else {
      forall k: nat ensures !Missing(r, op, k) {
        assert k < t.firstUnassembled ==> Holding(t, k);
      }
    }
  }

  lemma AssembledBelowMark(r: Reassembler)
    requires r.Valid() && HeldBelowMark(r)
    ensures r.firstUnassembled <= r.firstUnacceptable
  {
    if r.firstUnassembled > 0 {
      assert Holding(r, r.firstUnassembled - 1);
    }
  }

  /** As long as the next byte in line is missing, nothing ends. */
  lemma GapKeepsOpen(r: Reassembler, op: Op)
    requires r.Valid() && r.Settled() && op.PushOp? && !r.output.ended
    requires !op.Covers(r.firstUnassembled) && MarkAfter(r, op) > r.firstUnassembled
    ensures !Step(r, op).output.ended
  {
    hide Reassembler.Push;
    PushMarks(r, op);
    PushStores(r, op, r.firstUnassembled);
    assert Step(r, op).firstUnassembled > r.firstUnassembled ==> Holding(Step(r, op), r.firstUnassembled);
  }

  /** Counting the unassembled bytes after a push reads past the vector if and only if the push has been cut
      short by the capacity, as long as no earlier one has. */
  lemma CountingStraysExactly(r: Reassembler, op: Op)
    requires r.Valid() && op.PushOp? && r.firstUnacceptable <= r.Size() && op.index + |op.data| < TWO_64
    ensures var t := Step(r, op);
            t.firstUnacceptable > |t.count| <==> op.data != [] && op.index + |op.data| > r.Size()
  {
    hide Overlay, Bump;
  }

  lemma PushSettles(r: Reassembler, op: Op)
    requires r.Valid() && op.PushOp?
    ensures !Holding(Step(r, op), Step(r, op).firstUnassembled)
  {
  }

  lemma PushKeepsEofReached(r: Reassembler, op: Op, stream: seq<Byte>)
    requires EofReached(r, stream) && |stream| < TWO_64 && op.PushOp? && op.About(stream)
    requires op.eof && !r.eofed ==> EndInReach(r, op.data, op.index, stream)
    ensures EofReached(Step(r, op), stream)
  {
    hide Reassembler.Push, Reassembler.Valid, Holds;
    PushAgrees(r, op.data, op.index, op.eof, stream);
    PushMarks(r, op);
    AssembledGrows(r, op);
    AssembledWithinSeen(r, stream);
    AssembledWithinSeen(Step(r, op), stream);
  }

  /** Reaching the end once keeps the end exact for ever. */
  lemma {:induction false} RunKeepsEofReached(r: Reassembler, ops: seq<Op>, stream: seq<Byte>)
    requires EofReached(r, stream) && r.eofed && |stream| < TWO_64 && AllAbout(ops, stream)
    ensures EofReached(Run(r, ops), stream) && Run(r, ops).eofed
  {
    if ops != [] {
      var n := |ops| - 1;
      RunKeepsEofReached(r, ops[..n], stream);
      assert ops[n] in ops;
      if ops[n].PushOp? {
        PushKeepsEofReached(Run(r, ops[..n]), ops[n], stream);
      }
    }
  }

  lemma {:induction false} UntruncatedEofReaches(capacity: nat, ops: seq<Op>, stream: seq<Byte>)
    requires |stream| < TWO_64 && AllAbout(ops, stream)
    requires Untruncated(NewReassembler(capacity), ops)
    requires forall op | op in ops && op.PushOp? && op.eof :: op.data != [] || stream == []
    ensures EofReached(Run(NewReassembler(capacity), ops), stream)
  {
    if ops != [] {
      var n := |ops| - 1;
      forall k | 0 <= k < n ensures ops[..n][..k] == ops[..k] {}
      UntruncatedEofReaches(capacity, ops[..n], stream);
      assert ops[n] in ops;
      if ops[n].PushOp? {
        PushKeepsEofReached(Run(NewReassembler(capacity), ops[..n]), ops[n], stream);
      }
    }
  }

  lemma {:induction false} EofedIffFlagged(r: Reassembler, ops: seq<Op>)
    requires r.Valid()
    ensures Run(r, ops).eofed <==> r.eofed || exists op :: op in ops && op.PushOp? && op.eof
  {
    if ops != [] {
      var n := |ops| - 1;
      assert ops == ops[..n] + [ops[n]];
      EofedIffFlagged(r, ops[..n]);
    }
  }

  lemma {:induction false} RunConcat(r: Reassembler, a: seq<Op>, b: seq<Op>)
    requires r.Valid()
    ensures Run(r, a + b) == Run(Run(r, a), b)
  {
    if b == [] {
      assert a + b == a;
    } else {
      var n := |b| - 1;
      assert (a + b)[..|a + b| - 1] == a + b[..n];
      RunConcat(r, a, b[..n]);
    }
  }

  /** Reading everything and pushing the next byte moves the reassembler on. */
  lemma NextByteAdvances(r: Reassembler, stream: seq<Byte>)
    requires Agrees(r, stream) && |stream| < TWO_64 && r.capacity > 0 && r.eofed
    requires !r.output.ended && r.firstUnassembled < r.firstUnacceptable < |stream|
    ensures var i := r.firstUnassembled;
            var r' := Step(Step(r, ReadOp(i)), PushOp(stream[i..i + 1], i, false));
            && Agrees(r', stream) && r'.capacity == r.capacity && r'.eofed
            && r'.firstUnacceptable == r.firstUnacceptable
            && r'.firstUnassembled > i
            && (r'.output.ended <==> r'.firstUnassembled == r'.firstUnacceptable)
  {
    var i := r.firstUnassembled;
    var push := PushOp(stream[i..i + 1], i, false);
    var r1 := Step(r, ReadOp(i));
    PushAgrees(r1, push.data, push.index, push.eof, stream);
    InOrderIsAssembled(r1, push);
  }

  /** If the flagged push does not reach the end, the reader and the network can drive the
      reassembler to the highest index seen, where it ends the output although bytes are missing. */
  lemma {:induction false} DriveToSeen(r: Reassembler, stream: seq<Byte>) returns (ops: seq<Op>)
    requires Agrees(r, stream) && |stream| < TWO_64 && r.capacity > 0
    requires r.eofed && r.firstUnacceptable < |stream|
    requires r.output.ended <==> r.firstUnassembled == r.firstUnacceptable
    ensures AllAbout(ops, stream)
    ensures Run(r, ops).output.ended && |Run(r, ops).output.written| < |stream|
    decreases |stream| - r.firstUnassembled
  {
    hide Holds, Reassembler.Push, Reassembler.ReadOut;
    AssembledWithinSeen(r, stream);
    if r.output.ended {
      return [];
    }
    var i := r.firstUnassembled;
    var read, push := ReadOp(i), PushOp(stream[i..i + 1], i, false);
    NextByteAdvances(r, stream);
    var r' := Step(Step(r, read), push);
    AssembledWithinSeen(r', stream);
    var rest := DriveToSeen(r', stream);
    ops := [read, push] + rest;
    assert [read, push][..1] == [read];
    assert Run(r, [read]) == Step(r, read);
    RunConcat(r, [read, push], rest);
  }

  /** After a push flagged as the end, the output ends neither early nor late whatever follows,
      if and only if that push puts the end in reach. */
  lemma EndIsExact(r: Reassembler, data: seq<Byte>, index: U64, stream: seq<Byte>)
    requires Agrees(r, stream) && |stream| < TWO_64 && r.capacity > 0
    requires !r.eofed && !r.output.ended
    requires PushOp(data, index, true).About(stream)
    ensures (forall ops | AllAbout(ops, stream) :: EofExact(Run(r.Push(data, index, true), ops), stream))
            <==> EndInReach(r, data, index, stream)
  {
    var t := r.Push(data, index, true);
    assert t == Step(r, PushOp(data, index, true));
    if EndInReach(r, data, index, stream) {
      PushKeepsEofReached(r, PushOp(data, index, true), stream);
      forall ops | AllAbout(ops, stream) ensures EofExact(Run(t, ops), stream) {
        RunKeepsEofReached(t, ops, stream);
      }
    } else {
      PushAgrees(r, data, index, true, stream);
      AssembledWithinSeen(t, stream);
      var ops := DriveToSeen(t, stream);
      assert !EofExact(Run(t, ops), stream);
    }
  }

  /** Nothing is handed on after the end. */
  lemma {:induction false} EndedFreezes(r: Reassembler, ops: seq<Op>)
    requires r.Valid() && r.output.ended
    ensures Run(r, ops).output.ended && Run(r, ops).output.written == r.output.written
  {
    if ops != [] {
      EndedFreezes(r, ops[..|ops| - 1]);
    }
  }

  /** An empty end marker that overtakes data, when nothing else is waiting, ends the output at
      once; whatever arrives later, the missing bytes are never handed on. */
  lemma EarlyEmptyEndLosesData(r: Reassembler, stream: seq<Byte>, ops: seq<Op>)
    requires Agrees(r, stream) && |stream| < TWO_64
    requires r.Empty() && !r.output.ended && r.firstUnassembled < |stream|
    ensures var t := r.Push([], |stream|, true);
            t.output.ended && Run(t, ops).output.written == r.output.written < stream
  {
    var t := r.Push([], |stream|, true);
    var u := r.Resized().(eofed := true).Stored([], |stream|);
    assert FirstGap(u.count, u.firstUnassembled) == u.firstUnassembled by {
      assert u.firstUnassembled < |u.count| ==> u.count[u.firstUnassembled] == 0;
    }
    EndedFreezes(t, ops);
  }
}
