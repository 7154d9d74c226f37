/** Optional values, for lookups that may find nothing and for absent request fields. */
module Wrappers {
  datatype Option<+T> = None | Some(value: T)
}
