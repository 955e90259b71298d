/** Optional values: PHP's `false` / `null` returns are modelled as None. */
module Wrappers {
  datatype Option<T> = None | Some(value: T)
}
