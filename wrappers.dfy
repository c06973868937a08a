/** Optional values: a SQL NULL, a pandas NaN cell, a missing session value. */
module Wrappers {
  datatype Option<+T> = None | Some(value: T)
}
