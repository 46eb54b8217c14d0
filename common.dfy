/** Small shared vocabulary: optional values and bytes. */
module Common {

  /** A value that may be absent (Python's `None`). */
  datatype Option<T> = None | Some(value: T)

  /** One byte of a byte stream. */
  newtype byte = x: int | 0 <= x < 256
}
