/** The in-order byte stream: a bounded FIFO, and the ring buffer that implements it
    (libsponge/byte_stream.cc). */
module ByteStreams {
  import opened Words

  /** The value of a byte stream. `written` is everything ever accepted; the first `readCount`
      of those bytes have been popped. */
  datatype Stream = Stream(capacity: nat, written: seq<Byte>, readCount: nat, ended: bool, error: bool) {

    predicate Valid() {
      readCount <= |written| <= readCount + capacity
    }

    function BufferSize(): nat
      requires Valid()
    {
      |written| - readCount
    }

    function Buffered(): seq<Byte>
      requires Valid()
    {
      written[readCount..]
    }

    predicate Eof() { ended && readCount >= |written| }

    function Accepts(data: seq<Byte>): nat
      requires Valid()
    {
      if ended then 0 else Min(|data|, capacity - BufferSize())
    }

    function Write(data: seq<Byte>): Stream
      requires Valid()
    {
      this.(written := written + data[..Accepts(data)])
    }

    function Peek(len: nat): seq<Byte>
      requires Valid()
    {
      Buffered()[..Min(len, BufferSize())]
    }

    function Pop(len: nat): Stream
      requires Valid()
    {
      this.(readCount := readCount + Min(len, BufferSize()))
    }
  }

  function NewStream(capacity: nat): Stream { Stream(capacity, [], 0, false, false) }

  /** One call on a stream. */
  datatype StreamCall = WriteCall(data: seq<Byte>) | ReadCall(len: nat) | EndCall

  function Perform(s: Stream, c: StreamCall): (t: Stream)
    requires s.Valid()
    ensures t.Valid() && t.capacity == s.capacity
  {
    match c
    case WriteCall(data) => s.Write(data)
    case ReadCall(len) => s.Pop(len)
    case EndCall => s.(ended := true)
  }

  function PerformAll(s: Stream, calls: seq<StreamCall>): (t: Stream)
    requires s.Valid()
    ensures t.Valid() && t.capacity == s.capacity
    decreases |calls|
  {
    if calls == [] then s else PerformAll(Perform(s, calls[0]), calls[1..])
  }

  /** What the reader gets from one call. */
  function Got(s: Stream, c: StreamCall): seq<Byte>
    requires s.Valid()
  {
    if c.ReadCall? then s.Peek(c.len) else []
  }

  /** What one call gets accepted. */
  function Gave(s: Stream, c: StreamCall): seq<Byte>
    requires s.Valid()
  {
    if c.WriteCall? then c.data[..s.Accepts(c.data)] else []
  }

  /** What the reader got from its reads, in order. */
  function Received(s: Stream, calls: seq<StreamCall>): seq<Byte>
    requires s.Valid()
    decreases |calls|
  {
    if calls == [] then [] else Got(s, calls[0]) + Received(Perform(s, calls[0]), calls[1..])
  }

  /** What the writer got accepted, in order. */
  function AcceptedBytes(s: Stream, calls: seq<StreamCall>): seq<Byte>
    requires s.Valid()
    decreases |calls|
  {
    if calls == [] then [] else Gave(s, calls[0]) + AcceptedBytes(Perform(s, calls[0]), calls[1..])
  }

  lemma CallConserves(s: Stream, c: StreamCall)
    requires s.Valid()
    ensures s.Buffered() + Gave(s, c) == Got(s, c) + Perform(s, c).Buffered()
  {
    match c
    case WriteCall(data) => assert Perform(s, c).Buffered() == s.Buffered() + Gave(s, c);
    case ReadCall(len) => assert s.Buffered() == Got(s, c) + Perform(s, c).Buffered();
    case EndCall =>
  }

  /** Nothing is lost, invented, repeated or reordered: in every run, what was buffered at the start
      followed by what was accepted is what was read followed by what is still buffered. */
  lemma {:induction false} FifoConservation(s: Stream, calls: seq<StreamCall>)
    requires s.Valid()
    ensures s.Buffered() + AcceptedBytes(s, calls)
            == Received(s, calls) + PerformAll(s, calls).Buffered()
    decreases |calls|
  {
    hide Perform, Got, Gave, Stream.Buffered;
    if calls != [] {
      var t := Perform(s, calls[0]);
      var rest := AcceptedBytes(t, calls[1..]);
      CallConserves(s, calls[0]);
      FifoConservation(t, calls[1..]);
      assert s.Buffered() + AcceptedBytes(s, calls) == (s.Buffered() + Gave(s, calls[0])) + rest;
      assert Got(s, calls[0]) + (t.Buffered() + rest) == (Got(s, calls[0]) + t.Buffered()) + rest;
    } else {
      assert s.Buffered() + [] == [] + s.Buffered();
    }
  }

  /** What a call on a bounded FIFO may do, said by what is there before and after: a write appends a
      beginning of the data, all of it unless that fills the stream, and nothing after the end; a read takes
      as many of the oldest bytes as are asked for, fewer only if that empties the stream; the end is only
      marked. */
  predicate FifoStep(s: Stream, c: StreamCall, t: Stream)
    requires s.Valid() && t.Valid()
  {
    match c
    case WriteCall(data) =>
      && t == s.(written := t.written) && s.written <= t.written <= s.written + data
      && if s.ended then t.written == s.written
         else t.written == s.written + data || t.BufferSize() == t.capacity
    case ReadCall(len) =>
      && t == s.(readCount := t.readCount) && s.readCount <= t.readCount <= s.readCount + len
      && (t.readCount == s.readCount + len || t.BufferSize() == 0)
    case EndCall => t == s.(ended := true)
  }

  lemma {:induction false} PerformAllStep(s: Stream, calls: seq<StreamCall>, k: nat)
    requires s.Valid() && k < |calls|
    ensures PerformAll(s, calls[..k + 1]) == Perform(PerformAll(s, calls[..k]), calls[k])
    decreases k
  {
    hide Perform;
    if k > 0 {
      assert calls[..k][1..] == calls[1..][..k - 1] && calls[..k + 1][1..] == calls[1..][..k];
      PerformAllStep(Perform(s, calls[0]), calls[1..], k - 1);
    } else {
      assert calls[..1][1..] == [];
    }
  }

  /** Every call of every run is such a step, and what a read returns is what it takes. */
  lemma RunIsFifo(s: Stream, calls: seq<StreamCall>, k: nat)
    requires s.Valid() && k < |calls|
    ensures var t, u := PerformAll(s, calls[..k]), PerformAll(s, calls[..k + 1]);
            && FifoStep(t, calls[k], u)
            && (calls[k].ReadCall? ==> Got(t, calls[k]) == t.written[t.readCount..u.readCount])
  {
    hide PerformAll;
    PerformAllStep(s, calls, k);
    CallIsFifoStep(PerformAll(s, calls[..k]), calls[k]);
  }

  lemma CallIsFifoStep(s: Stream, c: StreamCall)
    requires s.Valid()
    ensures FifoStep(s, c, Perform(s, c))
    ensures c.ReadCall? ==> Got(s, c) == s.written[s.readCount..Perform(s, c).readCount]
  {
    if c.WriteCall? {
      var n := s.Accepts(c.data);
      assert c.data == c.data[..n] + c.data[n..];
      assert s.written + c.data == (s.written + c.data[..n]) + c.data[n..];
    }
  }

  lemma ModOnce(x: int, n: int)
    requires 0 < n && 0 <= x < 2 * n
    ensures x % n == if x < n then x else x - n
  {
    if x < n {
      assert x / n == 0;
    } else {
      assert x / n == 1;
    }
  }

  /** The ring buffer, with one spare slot to tell full from empty. */
  class ByteStream {
    const capacity: nat
    const channel: array<Byte>
    var readIndex: nat
    var writeIndex: nat
    var bytesRead: nat
    var bytesWritten: nat
    var endFlag: bool
    var errorFlag: bool
    ghost var history: seq<Byte>

    /** The bytes between the two indices, going round the ring. */
    ghost function Contents(): seq<Byte>
      requires readIndex < channel.Length && writeIndex < channel.Length
      reads this, channel
    {
      if readIndex <= writeIndex then channel[readIndex..writeIndex]
      else channel[readIndex..] + channel[..writeIndex]
    }

    ghost predicate Valid()
      reads this, channel
    {
      && channel.Length == capacity + 1
      && readIndex < channel.Length
      && writeIndex < channel.Length
      && |history| == bytesWritten
      && bytesRead <= bytesWritten
      && history[bytesRead..] == Contents()
    }

    ghost function Model(): (s: Stream)
      requires Valid()
      reads this, channel
      ensures s.Valid()
    {
      Stream(capacity, history, bytesRead, endFlag, errorFlag)
    }

    constructor (capacity: nat)
      ensures Valid() && fresh(channel)
      ensures Model() == NewStream(capacity)
    {
      this.capacity := capacity;
      channel := new Byte[capacity + 1];
      readIndex, writeIndex, bytesRead, bytesWritten := 0, 0, 0, 0;
      endFlag, errorFlag := false, false;
      history := [];
    }

    function NextIndexOf(index: nat, step: nat): (r: nat)
      requires channel.Length == capacity + 1 && index <= capacity && step <= capacity + 1
      ensures r == if index + step <= capacity then index + step else index + step - (capacity + 1)
    {
      ModOnce(step, capacity + 1);
      ModOnce(index + step % (capacity + 1), capacity + 1);
      (index + step % (capacity + 1)) % (capacity + 1)
    }

    function BufferSize(): (n: nat)
      requires Valid()
      reads this, channel
      ensures n == Model().BufferSize()
    {
      ModOnce(capacity + 1 + writeIndex - readIndex, capacity + 1);
      (capacity + 1 + writeIndex - readIndex) % (capacity + 1)
    }

    predicate BufferFull()
      requires Valid()
      reads this, channel
      ensures BufferFull() <==> Model().BufferSize() == capacity
    {
      NextIndexOf(writeIndex, 1) == readIndex
    }

    function RemainingCapacity(): (n: nat)
      requires Valid()
      reads this, channel
      ensures n + Model().BufferSize() == capacity
    {
      capacity - BufferSize()
    }

    predicate BufferEmpty()
      requires Valid()
      reads this, channel
      ensures BufferEmpty() <==> Model().Buffered() == []
    {
      writeIndex == readIndex
    }

    predicate Eof()
      requires Valid()
      reads this, channel
      ensures Eof() <==> Model().Eof()
    {
      endFlag && BufferEmpty()
    }

    method Write(data: seq<Byte>) returns (count: nat)
      requires Valid()
      modifies this, channel
      ensures Valid()
      ensures count == old(Model().Accepts(data))
      ensures Model() == old(Model().Write(data))
      ensures count <= |data| && history == old(history) + data[..count]
      ensures if old(endFlag) then count == 0 else count == |data| || BufferFull()
    {
      if endFlag {
        return 0;
      }
      count := 0;
      while !BufferFull() && count < |data|
        invariant Valid()
        invariant count <= |data|
        invariant Model() == old(Model()).(written := old(history) + data[..count])
        decreases |data| - count
      {
        Put(data[count]);
        assert data[..count + 1] == data[..count] + [data[count]];
        count := count + 1;
      }
    }

    /** The body of the loop of `Write`. */
    method Put(b: Byte)
      requires Valid() && !BufferFull()
      modifies this, channel
      ensures Valid()
      ensures Model() == old(Model()).(written := old(history) + [b])
    {
      channel[writeIndex] := b;
      writeIndex := NextIndexOf(writeIndex, 1);
      bytesWritten := bytesWritten + 1;
      history := history + [b];
      assert Contents() == old(Contents()) + [b];
      assert history[bytesRead..] == old(history[bytesRead..]) + [b];
    }

    method PeekOutput(len: nat) returns (ret: seq<Byte>)
      requires Valid()
      ensures ret == Model().Peek(len)
      ensures ret <= Contents() && (|ret| == len || ret == Contents())
    {
      ret := [];
      var i := readIndex;
      while i != writeIndex && |ret| < len
        invariant |ret| <= len && |ret| <= |Contents()|
        invariant ret == Contents()[..|ret|]
        invariant i == if readIndex + |ret| <= capacity then readIndex + |ret| else readIndex + |ret| - (capacity + 1)
        decreases |Contents()| - |ret|
      {
        ret := ret + [channel[i]];
        i := NextIndexOf(i, 1);
      }
    }

    method PopOutput(len: nat)
      requires Valid()
      modifies this
      ensures Valid()
      ensures Model() == old(Model().Pop(len))
      ensures old(bytesRead) <= bytesRead <= old(bytesRead) + len
      ensures bytesRead == old(bytesRead) + len || BufferEmpty()
    {
      var popLen := Min(len, BufferSize());
      readIndex := NextIndexOf(readIndex, popLen);
      bytesRead := bytesRead + popLen;
      assert Contents() == old(Contents())[popLen..];
    }

    method Read(len: nat) returns (ret: seq<Byte>)
      requires Valid()
      modifies this
      ensures Valid()
      ensures ret == old(Model().Peek(len))
      ensures Model() == old(Model().Pop(len))
    {
      ret := PeekOutput(len);
      PopOutput(len);
    }

    method EndInput()
      requires Valid()
      modifies this
      ensures Valid()
      ensures Model() == old(Model()).(ended := true)
    {
      endFlag := true;
    }

    method SetError()
      requires Valid()
      modifies this
      ensures Valid()
      ensures Model() == old(Model()).(error := true)
    {
      errorFlag := true;
    }
  }
}
