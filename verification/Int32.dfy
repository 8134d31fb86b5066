/** Fixed-width integers as the sources use them. */
module Int32 {

  const I32_MAX := 0x7fff_ffff
  const TWO_32 := 0x1_0000_0000
  const TWO_64 := 0x1_0000_0000_0000_0000

  type i32 = x: int | -0x8000_0000 <= x <= 0x7fff_ffff

  /** Conversion to a signed 32-bit value, in two's complement. */
  function Wrap32(x: int): i32 {
    (x + 0x8000_0000) % TWO_32 - 0x8000_0000
  }

  /** Conversion to an unsigned 32-bit value. */
  function U32(x: int): nat {
    x % TWO_32
  }

  /** Conversion to an unsigned 64-bit value. */
  function U64(x: int): nat {
    x % TWO_64
  }

  predicate OutsideI32(x: int) {
    x < 0 || x > I32_MAX
  }
}

/** The usual success-or-reason results. */
module Wrappers {
  datatype Option<+T> = None | Some(value: T)
  datatype Result<+T, +E> = Ok(value: T) | Err(error: E)
}
