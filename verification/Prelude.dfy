/** Shared vocabulary: optional values, bytes and the widths of the machine integers. */
module Prelude {

  datatype Option<+T> = None | Some(value: T)

  type Byte = x: int | 0 <= x < 256

  type Bytes = seq<Byte>

  // Widths of the unsigned integers the program uses: uint32_t and uint64_t / size_t.
  const TWO_TO_24: nat := 0x100_0000
  const TWO_TO_32: nat := 0x1_0000_0000
  const TWO_TO_64: nat := 0x1_0000_0000_0000_0000
}
