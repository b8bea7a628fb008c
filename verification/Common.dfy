/**
 * What several modules share: the optional value and the size of a machine word.
 */
module Common {
  const TWO_64: nat := 0x1_0000_0000_0000_0000

  datatype Option<T> = None | Some(value: T)
}
