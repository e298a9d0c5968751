/** A value that may be missing: a pointer that may be null, or a failed parse. */
module Wrappers {
  datatype Option<T> = None | Some(value: T)
}
