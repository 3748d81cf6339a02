/** Optional values, used for Python's `None` and for failed parses. */
module Wrappers {
  datatype Option<+T> = None | Some(value: T)
}
