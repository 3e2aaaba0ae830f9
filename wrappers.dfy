/** Optional values: `None` stands for Go's `nil` error. */
module Wrappers {
  datatype Option<+T> = None | Some(value: T)
}
