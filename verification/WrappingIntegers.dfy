/** 32-bit sequence numbers on the wire and the 64-bit absolute numbers behind them
    (libsponge/wrapping_integers.cc). */
module WrappingIntegers {
  import opened Words

  /** The relative number that the absolute number `n` travels as. */
  function Wrap(n: U64, isn: U32): U32 { Low32(n + isn) }

  /** The absolute number that `n` is taken to stand for, near `checkpoint`. */
  function Unwrap(n: U32, isn: U32, checkpoint: U64): U64 {
    var epoch := checkpoint / TWO_32;
    var out := Low32(n - isn) + epoch * TWO_32;
    if out < checkpoint then
      if checkpoint - out > TWO_31 && epoch < TWO_32 - 1 then out + TWO_32 else out
    else
      if out - checkpoint > TWO_31 && epoch > 1 then out - TWO_32 else out
  }

  /** `r` wraps to `n` and no other 64-bit number that does lies closer to `checkpoint`. */
  ghost predicate Nearest(r: U64, n: U32, isn: U32, checkpoint: U64) {
    && Wrap(r, isn) == n
    && forall v: U64 :: Wrap(v, isn) == n ==> Abs(r - checkpoint) <= Abs(v - checkpoint)
  }

  /** The guard of the one branch that goes wrong: in epoch 1 the code never steps down. */
  predicate StuckInEpochOne(n: U32, isn: U32, checkpoint: U64) {
    checkpoint / TWO_32 == 1 && Low32(n - isn) - checkpoint % TWO_32 > TWO_31
  }

  lemma UnwrapWrapsBack(n: U32, isn: U32, checkpoint: U64)
    ensures Wrap(Unwrap(n, isn, checkpoint), isn) == n
  {
    var k := (Unwrap(n, isn, checkpoint) - Low32(n - isn)) / TWO_32;
    assert Unwrap(n, isn, checkpoint) == Low32(n - isn) + k * TWO_32;
  }

  /** `Unwrap` returns the nearest number exactly when it is not stuck in epoch 1. */
  lemma UnwrapIsNearest(n: U32, isn: U32, checkpoint: U64)
    ensures Nearest(Unwrap(n, isn, checkpoint), n, isn, checkpoint)
            <==> !StuckInEpochOne(n, isn, checkpoint)
  {
    var r := Unwrap(n, isn, checkpoint);
    UnwrapWrapsBack(n, isn, checkpoint);
    if StuckInEpochOne(n, isn, checkpoint) {
      var v: U64 := r - TWO_32;
      assert Wrap(v, isn) == n;
    } else {
      forall v: U64 | Wrap(v, isn) == n
        ensures Abs(r - checkpoint) <= Abs(v - checkpoint)
      {
        SameResidue(v, r, isn);
      }
    }
  }

  lemma SameResidue(v: U64, r: U64, isn: U32)
    requires Wrap(v, isn) == Wrap(r, isn)
    ensures v <= r - TWO_32 || v == r || v >= r + TWO_32
  {
    var q := (v + isn) / TWO_32 - (r + isn) / TWO_32;
    assert v - r == q * TWO_32;
  }

  /** A number within 2^31 of the checkpoint survives the trip over the wire, except when the
      checkpoint is in epoch 1 and the number is still in epoch 0. */
  lemma UnwrapInvertsWrap(v: U64, isn: U32, checkpoint: U64)
    requires Abs(v - checkpoint) < TWO_31
    ensures Unwrap(Wrap(v, isn), isn, checkpoint) == v
            <==> !(checkpoint / TWO_32 == 1 && v < TWO_32)
  {
    var n := Wrap(v, isn);
    assert Low32(n - isn) == v % TWO_32;
    UnwrapWrapsBack(n, isn, checkpoint);
    SameResidue(v, Unwrap(n, isn, checkpoint), isn);
  }

  /** The checkpoint itself always survives. */
  lemma UnwrapAtCheckpoint(v: U64, isn: U32)
    ensures Unwrap(Wrap(v, isn), isn, v) == v
  {
    assert Low32(Wrap(v, isn) - isn) == v % TWO_32;
  }

  /** The promise of the documentation fails at a checkpoint just past 2^32: the number 2^32 - 1
      is four away from it, yet the code answers 2^33 - 1. */
  lemma UnwrapMissesNearest()
    ensures Unwrap(Wrap(TWO_32 - 1, 0), 0, TWO_32 + 3) == 2 * TWO_32 - 1
    ensures !Nearest(2 * TWO_32 - 1, Wrap(TWO_32 - 1, 0), 0, TWO_32 + 3)
  {
    UnwrapIsNearest(Wrap(TWO_32 - 1, 0), 0, TWO_32 + 3);
  }
}
