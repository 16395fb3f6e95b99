/** Optional values: a piece slot that may still be empty, a line that may not parse. */
module Wrappers {
  datatype Option<+T> = None | Some(value: T)
}
