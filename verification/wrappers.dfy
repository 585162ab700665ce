/** Optional values: the model's replacement for a nullable pointer. */
module Wrappers {
  datatype Option<+T> = None | Some(value: T)
}
