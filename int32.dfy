/** C# `int` arithmetic: 32-bit two's complement with silent wrap-around (unchecked context). */
module Int32 {

  const MIN_INT32: int := -0x8000_0000
  const MAX_INT32: int := 0x7FFF_FFFF
  const TWO_POW_32: int := 0x1_0000_0000

  predicate IsInt32(x: int) {
    MIN_INT32 <= x <= MAX_INT32
  }

  /** The int32 value congruent to `x` modulo 2^32. */
  function Wrap32(x: int): (r: int)
    ensures IsInt32(r)
    ensures (r - x) % TWO_POW_32 == 0
    ensures IsInt32(x) ==> r == x
  {
    (x - MIN_INT32) % TWO_POW_32 + MIN_INT32
  }

  /** `a + b` on two C# ints. */
  function Add32(a: int, b: int): (r: int)
    ensures IsInt32(r)
    ensures IsInt32(a + b) ==> r == a + b
  {
    Wrap32(a + b)
  }

  /** `x - 1` on a C# int: only int.MinValue wraps, to int.MaxValue. */
  function Dec32(x: int): (r: int)
    requires IsInt32(x)
    ensures IsInt32(r)
    ensures x == MIN_INT32 ==> r == MAX_INT32
    ensures x != MIN_INT32 ==> r == x - 1
  {
    Wrap32(x - 1)
  }
}
