/** Optional values: a nullable column, or a JSON key that may be absent. */
module Wrappers {
  datatype Option<+T> = None | Some(value: T)
}
