/** Widths of the machine's integers, and the null address. */
module Machine {
  const NULL: int := 0
  const U32: int := 0x1_0000_0000
  const U64: int := 0x1_0000_0000_0000_0000
}
