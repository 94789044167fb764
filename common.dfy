/** Small value types shared by every module of the model. */
module Common {

  /** A value that may be absent. */
  datatype Option<+T> = None | Some(value: T)

  /** One byte of memory, read as an unsigned char. */
  type Byte = b: int | 0 <= b < 256

  /** A 32-bit unsigned integer. */
  type U32 = x: int | 0 <= x < 0x1_0000_0000

  /** Largest value of a 32-bit unsigned integer. */
  const U32Max: nat := 0xFFFF_FFFF

  /** C's unsigned 32-bit decrement: 0 wraps to the largest value. */
  function Dec32(x: U32): (r: U32)
    ensures (r + 1) % 0x1_0000_0000 == x
  {
    if x == 0 then U32Max else x - 1
  }
}
