/** Fixed-width unsigned integers of the C++ source, as bounded naturals. */
module Ints {

  const BYTE_MOD: nat := 0x100
  const U16_MOD: nat := 0x1_0000
  const U32_MOD: nat := 0x1_0000_0000
  const U64_MOD: nat := 0x1_0000_0000_0000_0000
  const U128_MOD: nat := 0x1_0000_0000_0000_0000_0000_0000_0000_0000

  type byte = x: nat | x < 0x100
  type u32 = x: nat | x < 0x1_0000_0000
  type u64 = x: nat | x < 0x1_0000_0000_0000_0000
  type u128 = x: nat | x < 0x1_0000_0000_0000_0000_0000_0000_0000_0000

  /** The implicit `size_t` to `uint32_t` conversion of the source. */
  function TruncU32(n: nat): (r: u32)
    ensures n < U32_MOD ==> r == n
  {
    n % U32_MOD
  }
}
