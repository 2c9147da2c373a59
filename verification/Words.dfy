/** Machine words of the C++ program, and the truncations it performs between them. */
module Words {

  const TWO_16: int := 0x1_0000
  const TWO_31: int := 0x8000_0000
  const TWO_32: int := 0x1_0000_0000
  const TWO_64: int := 0x1_0000_0000_0000_0000

  type Byte = x: int | 0 <= x < 0x100
  type U16 = x: int | 0 <= x < TWO_16
  type U32 = x: int | 0 <= x < TWO_32
  type U64 = x: int | 0 <= x < TWO_64

  datatype Option<T> = None | Some(value: T)

  function Min(a: int, b: int): int { if a <= b then a else b }

  function Max(a: int, b: int): int { if a >= b then a else b }

  function Abs(a: int): int { if a >= 0 then a else -a }

  /** Conversion to `uint16_t`. */
  function Low16(x: int): (r: U16)
    ensures 0 <= x < TWO_16 ==> r == x
  {
    x % TWO_16
  }

  /** Conversion to `uint32_t`. */
  function Low32(x: int): (r: U32)
    ensures 0 <= x < TWO_32 ==> r == x
  {
    x % TWO_32
  }

  /** `uint64_t` (and `size_t`) arithmetic wraps modulo 2^64. */
  function Low64(x: int): (r: U64)
    ensures 0 <= x < TWO_64 ==> r == x
  {
    x % TWO_64
  }
}
