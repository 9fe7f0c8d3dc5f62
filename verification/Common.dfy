/** What several components share. */
module Common {
  datatype Option<+T> = None | Some(value: T)

  /** One more than the largest 64-bit word. */
  const TWO_TO_THE_64: nat := 0x1_0000_0000_0000_0000
}
