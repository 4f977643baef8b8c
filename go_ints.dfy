/** Go's fixed-width unsigned integers, as far as the quantizer uses them:
    `uint8` values and the explicit conversions that truncate a wider integer
    to 8 or 32 bits. */
module GoInts {

  /** A Go `uint8`: the gray intensity of one pixel and the luminance. */
  newtype uint8 = x: int | 0 <= x < 0x100

  const Two32: int := 0x1_0000_0000

  /** Go's conversion `uint8(x)` of an integer: it keeps the low 8 bits of the
      two's-complement representation, which is the Euclidean remainder
      modulo 256, also for negative `x`. */
  function Uint8(x: int): (r: uint8)
    ensures 0 <= x < 0x100 ==> r as int == x
    ensures (x - r as int) % 0x100 == 0
  {
    (x % 0x100) as uint8
  }

  /** The value a `uint32` expression takes when its mathematical value is `x`:
      additions and multiplications in Go wrap modulo 2^32, and wrapping each
      step gives the same result as wrapping once at the end. */
  function Wrap32(x: int): (r: int)
    ensures 0 <= r < Two32
    ensures 0 <= x < Two32 ==> r == x
    ensures (x - r) % Two32 == 0
  {
    x % Two32
  }
}
