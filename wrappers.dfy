/** Optional values, used for the partial readers of file names and titles. */
module Wrappers {
  datatype Option<+T> = None | Some(value: T)
}
