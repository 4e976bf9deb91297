/** A value or its absence: the C code's null pointers and -1 results. */
module Wrappers {
  datatype Option<+T> = None | Some(value: T)
}
