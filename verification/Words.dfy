/** Machine integers of the C code. */
module Words {
  type byte = x: int | 0 <= x < 256
  const TWO32: int := 0x1_0000_0000
  type Word = x: int | 0 <= x < TWO32
}
