/** Optional values and the fixed-width integers that the components share. */
module Basics {

  datatype Option<+T> = None | Some(value: T)

  const I32_MIN: int := -0x8000_0000
  const I32_MAX: int := 0x7FFF_FFFF
  const U32_SIZE: int := 0x1_0000_0000

  type i16 = x: int | -0x8000 <= x < 0x8000
  type i32 = x: int | I32_MIN <= x <= I32_MAX
  type u8 = x: int | 0 <= x < 0x100
  type u16 = x: int | 0 <= x < 0x1_0000
  type u32 = x: int | 0 <= x < 0x1_0000_0000

  /** Rounding halves away from zero, then a cast to 32 bits that saturates. */
  function RoundI32(x: real): i32 {
    var n := if x >= 0.0 then (x + 0.5).Floor else -((0.5 - x).Floor);
    if n < I32_MIN then I32_MIN else if n > I32_MAX then I32_MAX else n
  }
}
