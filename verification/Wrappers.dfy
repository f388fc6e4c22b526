/** A value that may be missing: the C code's null pointers and error returns. */
module Wrappers {
  datatype Option<+T> = None | Some(value: T)
}
