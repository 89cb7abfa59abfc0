/** Bytes as the firmware sees them (uint8_t), and the width of its `unsigned`. */
module Bytes {

  newtype byte = b: int | 0 <= b < 256

  /** 2^32: C's `unsigned` on the Cortex-M target wraps modulo this value. */
  const U32: nat := 0x1_0000_0000

  /** The ASCII code of a character, as a byte. */
  function B(c: char): (b: byte)
    requires c as int < 256
    ensures b as int == c as int
  {
    c as int as byte
  }

  datatype Option<T> = None | Some(value: T)

  function Min(a: nat, b: nat): (m: nat)
    ensures m <= a && m <= b && (m == a || m == b)
  {
    if a <= b then a else b
  }
}
