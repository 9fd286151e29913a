/** Shared names. */
module Common {
  type Byte = x: int | 0 <= x < 0x100

  const TWO32: int := 0x1_0000_0000

  /** A uint32_t. */
  type Word = x: int | 0 <= x < 0x1_0000_0000
}
