/** Values that may be missing, and bytes. */
module Wrappers {
  datatype Option<+T> = None | Some(value: T)

  /** A key of a JSON object: not there at all, there with `null`, or there with a value. */
  datatype Field<+T> = Absent | Null | Value(value: T)

  newtype byte = x: int | 0 <= x < 256
}
