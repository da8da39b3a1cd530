/** Optional values: Python's `Optional[int]` return of the next-node selection. */
module Wrappers {
  datatype Option<+T> = None | Some(value: T)
}
