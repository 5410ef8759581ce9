/** The optional value that stands for a C pointer that may be NULL, or for a parse that may fail. */
module Wrappers {
  datatype Option<+T> = None | Some(value: T)
}
