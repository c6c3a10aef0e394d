/** Bytes and the widths of machine words. */
module Words {
  const TWO32: nat := 0x1_0000_0000
  const TWO64: nat := 0x1_0000_0000_0000_0000

  type Byte = x: int | 0 <= x < 256
  type U64 = x: int | 0 <= x < TWO64
}
