/** What several components share: an optional answer, and the machine's word. */
module Common {

  datatype Option<+T> = None | Some(value: T)

  /** One more than the largest 32-bit word. */
  const WORD: nat := 0x1_0000_0000
}
