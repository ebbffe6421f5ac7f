/** The usual Some/None datatype, used for the pointers the C code returns. */
module Wrappers {
  datatype Option<+T> = None | Some(value: T)
}
