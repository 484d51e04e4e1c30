/** Optional values: a null pointer argument, or a search that found nothing. */
module Wrappers {
  datatype Option<+T> = None | Some(value: T)
}

/** The fixed-width integers of the C++ sources. */
module Words {
  const MAX_UINT32: int := 0xFFFF_FFFF

  type uint32 = x: int | 0 <= x <= 0xFFFF_FFFF
  type byte = x: int | 0 <= x < 256

  /** Unsigned 32-bit subtraction, which wraps around. */
  function Sub32(a: uint32, b: uint32): uint32 {
    (a - b) % 0x1_0000_0000
  }

  /** Conversion of a `char` to an unsigned 32-bit integer, sign-extended as for a signed `char`. */
  function CharToUint(c: byte): uint32 {
    if c < 128 then c else 0x1_0000_0000 - 256 + c
  }
}
