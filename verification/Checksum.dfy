/** The Internet checksum of RFC 1071 (libsponge/util/util.cc). */
module Checksum {
  import opened Words

  /** The sum of `data` read as big-endian 16-bit words; `odd` says that an odd number of bytes has
      gone before. */
  function WordSum(data: seq<Byte>, odd: bool): nat {
    if data == [] then 0
    else
      var n := |data| - 1;
      var last: int := data[n];
      WordSum(data[..n], odd) + if odd == (n % 2 == 0) then last else 0x100 * last
  }

  /** The parity after `data`. */
  function Parity(data: seq<Byte>, odd: bool): bool { odd != (|data| % 2 == 1) }

  /** Summing in pieces is summing the whole, wherever the cut falls. */
  lemma {:induction false} WordSumConcat(a: seq<Byte>, b: seq<Byte>, odd: bool)
    ensures WordSum(a + b, odd) == WordSum(a, odd) + WordSum(b, Parity(a, odd))
    ensures Parity(a + b, odd) == Parity(b, Parity(a, odd))
  {
    if b == [] {
      assert a + b == a;
    } else {
      assert (a + b)[..|a + b| - 1] == a + b[..|b| - 1];
      WordSumConcat(a, b[..|b| - 1], odd);
    }
  }

  /** Adding carries back in until 16 bits are left. */
  function Fold(x: nat): (r: nat)
    ensures r <= 0xFFFF
    ensures r % 0xFFFF == x % 0xFFFF
    ensures r == 0 <==> x == 0
  {
    if x > 0xFFFF then FoldStep(x); Fold(x / TWO_16 + x % TWO_16) else x
  }

  lemma FoldStep(x: nat)
    requires x > 0xFFFF
    ensures 0 < x / TWO_16 + x % TWO_16 < x
    ensures (x / TWO_16 + x % TWO_16) % 0xFFFF == x % 0xFFFF
  {
    Multiples(x / TWO_16 + x % TWO_16, x / TWO_16);
  }

  lemma Multiples(y: nat, k: nat)
    ensures (y + k * 0xFFFF) % 0xFFFF == y % 0xFFFF
  {
  }

  /** The value of a checksum whose sum is `sum`. */
  function Complement(sum: nat): U16 { 0xFFFF - Fold(sum) }

  /** What the checksum is, whatever way it is folded: with it the sum is a multiple of 2^16 - 1; of the two
      values for which that can be so, all ones is the one for the sum of nothing. */
  lemma ComplementCompletes(sum: nat)
    ensures (sum + Complement(sum)) % 0xFFFF == 0
    ensures Complement(sum) == 0xFFFF <==> sum == 0
    ensures Complement(sum) == 0 <==> sum > 0 && sum % 0xFFFF == 0
  {
    MultipleOf(sum, Fold(sum));
  }

  /** Changing one byte changes the sum by that much, or 256 times that much. */
  lemma {:induction false} WordSumChange(data: seq<Byte>, odd: bool, i: nat, x: Byte)
    requires i < |data|
    ensures WordSum(data[i := x], odd) - WordSum(data, odd)
            == (x as int - data[i] as int) * if odd == (i % 2 == 0) then 1 else 0x100
  {
    var n := |data| - 1;
    if i < n {
      assert data[i := x][..n] == data[..n][i := x];
      WordSumChange(data[..n], odd, i, x);
    } else {
      assert data[i := x][..n] == data[..n];
    }
  }

  /** Adding its own checksum to a 32-bit sum never overflows, because 2^32 - 1 is a multiple of
      2^16 - 1, and makes the checksum zero. */
  lemma ChecksumCancels(sum: U32)
    ensures sum + Complement(sum) < TWO_32
    ensures Complement(sum + Complement(sum)) == 0
  {
    var c := Complement(sum);
    assert (sum + c) % 0xFFFF == 0 && sum + c > 0 by {
      MultipleOf(sum, Fold(sum));
    }
    assert TWO_32 - 1 == 0x10001 * 0xFFFF;
    assert Fold(sum + c) % 0xFFFF == 0;
  }

  lemma MultipleOf(x: nat, f: nat)
    requires f <= 0xFFFF && f % 0xFFFF == x % 0xFFFF
    ensures (x + (0xFFFF - f)) % 0xFFFF == 0
  {
  }

  class InternetChecksum {
    var sum: U32
    var parity: bool

    constructor (initial: U32)
      ensures sum == initial && !parity
    {
      sum := initial;
      parity := false;
    }

    method Add(data: seq<Byte>)
      modifies this
      ensures sum == Low32(old(sum) + WordSum(data, old(parity)))
      ensures parity == Parity(data, old(parity))
    {
      var i := 0;
      assert data[..0] == [];
      while i < |data|
        invariant 0 <= i <= |data|
        invariant sum == Low32(old(sum) + WordSum(data[..i], old(parity)))
        invariant parity == Parity(data[..i], old(parity))
      {
        assert data[..i + 1][..i] == data[..i];
        var val: int := data[i];
        if !parity {
          val := val * 0x100;
        }
        LowAdd(old(sum) + WordSum(data[..i], old(parity)), val);
        sum := Low32(sum + val);
        parity := !parity;
        i := i + 1;
      }
      assert data[..i] == data;
    }

    method Value() returns (v: U16)
      ensures v == Complement(sum)
      ensures (sum + v) % 0xFFFF == 0 && (v == 0xFFFF <==> sum == 0)
    {
      ComplementCompletes(sum);
      var ret: int := sum;
      while ret > 0xFFFF
        invariant ret >= 0 && Fold(ret) == Fold(sum)
        decreases ret
      {
        ret := ret / TWO_16 + ret % TWO_16;
      }
      return 0xFFFF - ret;
    }
  }

  lemma LowAdd(x: nat, y: nat)
    ensures Low32(Low32(x) + y) == Low32(x + y)
  {
  }
}
