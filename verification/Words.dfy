/** Machine words: unsigned integers of 8, 16, 32 and 64 bits, and the spans they wrap at. */
module Words {
  const U32_SPAN: nat := 0x1_0000_0000
  const U64_SPAN: nat := 0x1_0000_0000_0000_0000

  type byte = x: int | 0 <= x < 0x100
  type u16 = x: int | 0 <= x < 0x1_0000
  type u32 = x: int | 0 <= x < U32_SPAN
  type u64 = x: int | 0 <= x < U64_SPAN
}
