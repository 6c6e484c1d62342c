/** A value that may be missing: NULL pointers, and calls that find nothing. */
module Wrappers {
  datatype Option<T> = None | Some(value: T)
}
