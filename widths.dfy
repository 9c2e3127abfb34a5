/** Fixed-width unsigned integers of the target (a 32-bit microcontroller). */
module Widths {
  /** `uint64_t`: millisecond timestamps since boot. */
  newtype uint64 = x: int | 0 <= x < 0x1_0000_0000_0000_0000

  /** `uint` / `uint32_t`: GPIO pin numbers and interrupt event masks. */
  newtype uint32 = x: int | 0 <= x < 0x1_0000_0000

  /** `a - b` on `uint64_t`: C reduces the mathematical difference modulo 2^64. */
  function Sub64(a: uint64, b: uint64): (r: uint64)
    ensures a >= b ==> r as int == a as int - b as int
    ensures a < b ==> r as int == 0x1_0000_0000_0000_0000 + a as int - b as int
  {
    ((a as int - b as int) % 0x1_0000_0000_0000_0000) as uint64
  }
}
