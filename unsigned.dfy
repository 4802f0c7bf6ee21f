/**
 * C++ `unsigned` arithmetic on a 32-bit platform: every result is reduced
 * modulo 2^32. The tool relies on this in two places, the base byte count
 * and the hold time of the oscillation controller.
 */
module Unsigned {
  const TWO_TO_32: int := 0x1_0000_0000
  const UINT_MAX: int := TWO_TO_32 - 1

  /** The values of a 32-bit `unsigned`. */
  type u32 = x: int | 0 <= x < TWO_TO_32

  /** Conversion of a mathematical integer to `unsigned` (reduction modulo 2^32). */
  function Wrap(x: int): (r: u32)
    ensures 0 <= x < TWO_TO_32 ==> r == x
    ensures TWO_TO_32 <= x < 2 * TWO_TO_32 ==> r == x - TWO_TO_32
  {
    x % TWO_TO_32
  }

  /** `a + b` on two `unsigned` operands. */
  function Add(a: u32, b: u32): (r: u32)
    ensures a + b <= UINT_MAX ==> r == a + b
    ensures a + b > UINT_MAX ==> r == a + b - TWO_TO_32 && r < a && r < b
  {
    Wrap(a + b)
  }

  /** `a - b` on two `unsigned` operands. */
  function Sub(a: u32, b: u32): (r: u32)
    ensures b <= a ==> r == a - b
    ensures a < b ==> r == a - b + TWO_TO_32
  {
    Wrap(a - b)
  }

  /** `a * b` on two `unsigned` operands. */
  function Mul(a: u32, b: u32): (r: u32)
    ensures a * b <= UINT_MAX ==> r == a * b
    ensures (a * b - r) % TWO_TO_32 == 0
  {
    Wrap(a * b)
  }
}
