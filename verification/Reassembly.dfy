/** Putting substrings of a byte stream back in order (libsponge/stream_reassembler.cc):
    the value of a reassembler and what each call does to it. */
module Reassembly {
  import opened Words
  import opened ByteStreams

  function Resize<T>(s: seq<T>, n: nat, zero: T): seq<T> {
    if n <= |s| then s[..n] else s + seq(n - |s|, _ => zero)
  }

  /** How many of `len` bytes starting at `index` lie below `size`. */
  function Fits(len: nat, index: nat, size: nat): (k: nat)
    ensures k <= len
    ensures k > 0 ==> index + k <= size
  {
    if index >= size then 0 else Min(len, size - index)
  }

  /** The high-water mark after offering `len` bytes at `index` of which `k` fitted: it is raised
      for every byte looked at, including the first one that does not fit. */
  function Raised(mark: nat, len: nat, index: nat, k: nat): nat {
    if len == 0 then mark else Max(mark, Low64(index + Min(k + 1, len)))
  }

  /** `s` with `d` copied over it from position `at`. */
  function Overlay(s: seq<Byte>, at: nat, d: seq<Byte>): (t: seq<Byte>)
    ensures |t| == |s|
  {
    seq(|s|, i requires 0 <= i < |s| => if at <= i < at + |d| then d[i - at] else s[i])
  }

  /** `count` with `n` entries from position `at` raised by one. */
  function Bump(count: seq<nat>, at: nat, n: nat): (t: seq<nat>)
    ensures |t| == |count|
  {
    seq(|count|, i requires 0 <= i < |count| => if at <= i < at + n then count[i] + 1 else count[i])
  }

  lemma StoreNone(s: seq<Byte>, count: seq<nat>, at: nat)
    ensures Overlay(s, at, []) == s && Bump(count, at, 0) == count
  {
  }

  lemma StoreOne(s: seq<Byte>, count: seq<nat>, at: nat, d: seq<Byte>, i: nat)
    requires |s| == |count| && i < |d| && at + i < |s|
    ensures Overlay(s, at, d[..i])[at + i := d[i]] == Overlay(s, at, d[..i + 1])
    ensures var c := Bump(count, at, i); c[at + i := c[at + i] + 1] == Bump(count, at, i + 1)
  {
  }

  /** The first position from `i` on that holds no byte. */
  function FirstGap(count: seq<nat>, i: nat): (j: nat)
    requires i <= |count|
    ensures i <= j <= |count|
    ensures forall k | i <= k < j :: count[k] > 0
    ensures j < |count| ==> count[j] == 0
    decreases |count| - i
  {
    if i < |count| && count[i] > 0 then FirstGap(count, i + 1) else i
  }

  datatype Reassembler = Reassembler(
    output: Stream, capacity: nat, eofed: bool,
    firstUnassembled: nat, firstUnacceptable: nat,
    buffer: seq<Byte>, count: seq<nat>)
  {
    ghost predicate Valid() {
      && output.Valid()
      && output.capacity == capacity
      && |buffer| == |count| <= output.readCount + capacity
      && firstUnassembled <= |count|
      && |output.written| <= firstUnassembled
      && (!output.ended ==> |output.written| == firstUnassembled)
      && forall i | 0 <= i < firstUnassembled :: count[i] > 0
    }

    /** Between calls nothing that could be assembled is left waiting. */
    predicate Settled() {
      firstUnassembled < |count| ==> count[firstUnassembled] == 0
    }

    predicate Empty() { firstUnacceptable == firstUnassembled }

    /** One past the last index that can be stored. */
    function Size(): nat { output.readCount + capacity }

    function Resized(): (r: Reassembler)
      requires Valid()
      ensures r.Valid() && |r.count| == r.Size()
    {
      this.(buffer := Resize(buffer, Size(), 0), count := Resize(count, Size(), 0))
    }

    function Stored(data: seq<Byte>, index: U64): (r: Reassembler)
      requires Valid()
      ensures r.Valid()
    {
      var k := Fits(|data|, index, |buffer|);
      this.(buffer := Overlay(buffer, index, data[..k]),
            count := Bump(count, index, k),
            firstUnacceptable := Raised(firstUnacceptable, |data|, index, k))
    }

    function Flushed(): (r: Reassembler)
      requires Valid()
      ensures r.Valid() && r.Settled()
    {
      var j := FirstGap(count, firstUnassembled);
      var out := output.Write(buffer[firstUnassembled..j]);
      this.(firstUnassembled := j,
            output := if eofed && firstUnacceptable == j then out.(ended := true) else out)
    }

    function Push(data: seq<Byte>, index: U64, eof: bool): (r: Reassembler)
      requires Valid()
      ensures r.Valid() && r.Settled()
    {
      Resized().(eofed := eofed || eof).Stored(data, index).Flushed()
    }

    /** The reader takes up to `len` assembled bytes. */
    function ReadOut(len: nat): (r: Reassembler)
      requires Valid()
      ensures r.Valid()
    {
      this.(output := output.Pop(len))
    }
  }

  function NewReassembler(capacity: nat): (r: Reassembler)
    ensures r.Valid() && r.Settled()
  {
    Reassembler(NewStream(capacity), capacity, false, 0, 0, seq(capacity, _ => 0), seq(capacity, _ => 0))
  }

  /** The reassembler object. Its vectors are indexed by stream position and only grow. */
  class StreamReassembler {
    const output: ByteStream
    const capacity: nat
    var eofed: bool
    var firstUnread: nat
    var firstUnassembled: nat
    var firstUnacceptable: nat
    var buffer: seq<Byte>
    var count: seq<nat>

    ghost function Repr(): set<object> { {this, output, output.channel} }

    ghost predicate Valid()
      reads this, output, output.channel
    {
      output.Valid() && Value().Valid()
    }

    ghost function Value(): Reassembler
      requires output.Valid()
      reads this, output, output.channel
    {
      Reassembler(output.Model(), capacity, eofed, firstUnassembled, firstUnacceptable, buffer, count)
    }

    ghost function Model(): (r: Reassembler)
      requires Valid()
      reads this, output, output.channel
      ensures r.Valid()
    {
      Value()
    }

    constructor (capacity: nat)
      ensures Valid() && fresh(output) && fresh(output.channel)
      ensures Model() == NewReassembler(capacity)
    {
      output := new ByteStream(capacity);
      this.capacity := capacity;
      eofed := false;
      firstUnread, firstUnassembled, firstUnacceptable := 0, 0, 0;
      buffer := seq(capacity, _ => 0);
      count := seq(capacity, _ => 0);
    }

    predicate Empty()
      reads this
    {
      firstUnacceptable == firstUnassembled
    }

    /** The vectors must be addressable: the program cannot hold 2^64 bytes. */
    method PushSubstring(data: seq<Byte>, index: U64, eof: bool)
      requires Valid()
      requires output.bytesRead + capacity < TWO_64 - 1
      modifies Repr()
      ensures Valid()
      ensures Model() == old(Model().Push(data, index, eof))
    {
      UpdateSize();
      eofed := eofed || eof;
      Store(data, index);
      UpdateOutput();
    }

    /** The loop of `push_substring`. */
    method Store(data: seq<Byte>, index: U64)
      requires |buffer| == |count| < TWO_64 - 1
      modifies this`buffer, this`count, this`firstUnacceptable
      ensures var k := Fits(|data|, index, |old(buffer)|);
              && buffer == Overlay(old(buffer), index, data[..k])
              && count == Bump(old(count), index, k)
              && firstUnacceptable == Raised(old(firstUnacceptable), |data|, index, k)
    {
      hide Overlay, Bump;
      ghost var k := Fits(|data|, index, |buffer|);
      var i := 0;
      StoreNone(buffer, count, index);
      while i < |data|
        invariant 0 <= i <= k
        invariant |buffer| == |old(buffer)| && |count| == |old(count)|
        invariant buffer == Overlay(old(buffer), index, data[..i])
        invariant count == Bump(old(count), index, i)
        invariant firstUnacceptable ==
                  if i == 0 then old(firstUnacceptable) else Max(old(firstUnacceptable), index + i)
      {
        var realIndex := Low64(index + i);
        firstUnacceptable := Max(firstUnacceptable, Low64(realIndex + 1));
        if realIndex >= |buffer| {
          break;
        }
        StoreOne(old(buffer), old(count), index, data, i);
        buffer := buffer[realIndex := data[i]];
        count := count[realIndex := count[realIndex] + 1];
        i := i + 1;
      }
      assert i == k;
    }

    method UpdateSize()
      requires Valid()
      modifies this
      ensures Valid()
      ensures Model() == old(Model().Resized())
      ensures firstUnread == output.bytesRead
    {
      firstUnread := output.bytesRead;
      buffer := Resize(buffer, firstUnread + capacity, 0);
      count := Resize(count, firstUnread + capacity, 0);
    }

    method UpdateOutput()
      requires Valid()
      modifies Repr()
      ensures Valid()
      ensures Model() == old(Model().Flushed())
    {
      hide FirstGap;
      var s := Gather();
      var _ := output.Write(s);
      if eofed && Empty() {
        output.EndInput();
      }
    }

    /** The loop of `_update_output`, with the bound looked at before the element it guards. */
    method Gather() returns (s: seq<Byte>)
      requires |buffer| == |count| && firstUnassembled <= |count|
      modifies this`firstUnassembled
      ensures firstUnassembled == FirstGap(count, old(firstUnassembled))
      ensures s == buffer[old(firstUnassembled)..firstUnassembled]
    {
      s := [];
      while firstUnassembled < |buffer| && count[firstUnassembled] > 0
        invariant old(firstUnassembled) <= firstUnassembled <= |buffer|
        invariant s == buffer[old(firstUnassembled)..firstUnassembled]
        invariant FirstGap(count, firstUnassembled) == FirstGap(count, old(firstUnassembled))
      {
        s := s + [buffer[firstUnassembled]];
        firstUnassembled := firstUnassembled + 1;
      }
    }

    /** How many bytes are stored but not yet assembled, each index once; `strayed` where the source goes on
        to read past its vector. */
    method UnassembledBytes() returns (n: nat, strayed: bool)
      requires Valid()
      ensures n == |set i: nat | firstUnassembled <= i < Min(firstUnacceptable, |count|) && count[i] > 0|
      ensures strayed == (firstUnacceptable > |count|)
    {
      n, strayed := 0, false;
      ghost var seen: set<nat> := {};
      var i := firstUnassembled;
      while i < firstUnacceptable
        invariant firstUnassembled <= i <= Max(firstUnassembled, Min(firstUnacceptable, |count|)) && !strayed
        invariant seen == set k: nat | firstUnassembled <= k < i && k < |count| && count[k] > 0
        invariant n == |seen|
      {
        if i >= |count| {
          strayed := true;
          break;
        }
        if count[i] > 0 {
          n := n + 1;
          seen := seen + {i};
        }
        i := i + 1;
      }
      assert seen == set k: nat | firstUnassembled <= k < Min(firstUnacceptable, |count|) && count[k] > 0;
    }
  }
}
