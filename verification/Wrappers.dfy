/** A value that may be missing: a NULL pointer, a refused allocation, a failed parse. */
module Wrappers {
  datatype Option<+T> = None | Some(value: T)
}
