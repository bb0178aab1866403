/** The `T | undefined` results of the sorter, as an Option. */
module Wrappers {
  datatype Option<+T> = None | Some(value: T)
}
