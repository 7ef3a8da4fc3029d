/** The ranges of the C integer types. */
module Ints {
  const INT_MIN := -0x8000_0000
  const INT_MAX := 0x7fff_ffff
  const TWO_TO_32 := 0x1_0000_0000
}
