/** A value that may be missing, in place of a pointer that may be null. */
module Wrappers {

  datatype Option<+T> = None | Some(value: T)
}
