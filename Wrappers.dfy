/** Optional values: JavaScript's undefined/null and Python's None are modelled as None. */
module Wrappers {
  datatype Option<+T> = None | Some(value: T)
}
