/** `Option`: a value that may be absent, as a C++ pointer may be null. */
module Wrappers {

  datatype Option<+T> = None | Some(value: T)
}
