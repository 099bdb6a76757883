/** The unsigned integer widths of the source. */
module MachineInts {
  const U32_RANGE: nat := 0x1_0000_0000
  const U64_RANGE: nat := 0x1_0000_0000_0000_0000

  type u32 = n: nat | n < U32_RANGE
  type u64 = n: nat | n < U64_RANGE
}
