/** Value types shared by every part of the model: optional values and bytes. */
module Types {

  /** Some/None, used for Go's `error` results (None is nil) and for partial operations. */
  datatype Option<+T> = None | Some(value: T)

  /** An octet, as held in a Go `[]byte`. */
  type Byte = x: int | 0 <= x < 256

  type Bytes = seq<Byte>
}
