/** Fixed-width integer behaviour of the firmware's C/C++ code (ESP32: `int` and
    `unsigned long` are 32 bits, `int64_t` is 64 bits, two's complement). */
module Ints {

  const TWO_31: int := 0x8000_0000
  const TWO_32: int := 0x1_0000_0000
  const TWO_63: int := 0x8000_0000_0000_0000
  const TWO_64: int := 0x1_0000_0000_0000_0000

  /** uint32_t / unsigned long */
  type u32 = x: int | 0 <= x < 0x1_0000_0000
  /** int */
  type i32 = x: int | -0x8000_0000 <= x < 0x8000_0000
  /** int64_t */
  type i64 = x: int | -0x8000_0000_0000_0000 <= x < 0x8000_0000_0000_0000

  /** uint8_t. Masks and shifts on bytes are written with `/`, `%` and `*` by
      powers of two: `(x & m) >> k` is `(x / 2^k) % ((m >> k) + 1)` for a
      contiguous mask `m`, and `x << k` stored back into a byte is `(x * 2^k) % 256`. */
  type byte = x: int | 0 <= x < 256

  /** Unsigned 32-bit wrap-around of an exact result. */
  function U32(x: int): (r: u32)
    ensures 0 <= x < TWO_32 ==> r == x
    ensures (x - r) % TWO_32 == 0
  {
    x % TWO_32
  }

  /** Narrowing to a signed 32-bit int, as the `(int)` cast of a wider value does. */
  function I32(x: int): (r: i32)
    ensures -TWO_31 <= x < TWO_31 ==> r == x
    ensures (x - r) % TWO_32 == 0
  {
    var m := x % TWO_32;
    if m >= TWO_31 then m - TWO_32 else m
  }

  /** Signed 64-bit wrap-around of an exact result. */
  function I64(x: int): (r: i64)
    ensures -TWO_63 <= x < TWO_63 ==> r == x
    ensures (x - r) % TWO_64 == 0
  {
    var m := x % TWO_64;
    if m >= TWO_63 then m - TWO_64 else m
  }

  /** C's `/` on integers: the quotient truncated toward zero. */
  function Quot(a: int, b: int): (q: int)
    requires b > 0
    ensures a >= 0 ==> 0 <= a - b * q < b
    ensures a < 0 ==> -b < a - b * q <= 0
  {
    if a >= 0 then a / b else -((-a) / b)
  }

  /** C's `%` on integers: the remainder takes the sign of the dividend. */
  function Rem(a: int, b: int): (r: int)
    requires b > 0
    ensures a == b * Quot(a, b) + r
    ensures a >= 0 ==> 0 <= r < b
    ensures a < 0 ==> -b < r <= 0
  {
    a - b * Quot(a, b)
  }
}
