/** Word widths, the page size, and optional values. */
module Machine {

  const U16: int := 0x1_0000
  const U32: int := 0x1_0000_0000
  const U64: int := 0x1_0000_0000_0000_0000

  const PAGE: nat := 4096

  datatype Option<T> = None | Some(value: T)
}
