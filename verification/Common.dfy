/** What several parts of the model share. */
module Common {

  datatype Option<+T> = None | Some(value: T)

  type byte = b: int | 0 <= b < 256

  const TWO_64 := 0x1_0000_0000_0000_0000
}
