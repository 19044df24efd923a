/** Optional values, used for JavaScript's `undefined` results and thrown errors. */
module Wrappers {
  datatype Option<+T> = None | Some(value: T)
}
