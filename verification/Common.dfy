/** Types shared by every model in this project. */
module Common {

  datatype Option<+T> = None | Some(value: T)

  datatype Result<+T, +E> = Ok(value: T) | Err(error: E)

  type Byte = x: int | 0 <= x < 256

  type Bytes = seq<Byte>

  // The sizes of machine words.

  const TWO16: nat := 0x1_0000
  const TWO31: nat := 0x8000_0000
  const TWO32: nat := 0x1_0000_0000
  const TWO63: int := 0x8000_0000_0000_0000
  const TWO64: nat := 0x1_0000_0000_0000_0000
}
