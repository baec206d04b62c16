/**
 The ranges of the fixed-width unsigned numbers.
 */
module Widths {
  const UINT32: nat := 0x1_0000_0000
  const UINT64: nat := 0x1_0000_0000_0000_0000
}
