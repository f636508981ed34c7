/** A value that may be missing: Python's None, or a lookup or a request that failed. */
module Wrappers {
  datatype Option<+T> = None | Some(value: T)
}
