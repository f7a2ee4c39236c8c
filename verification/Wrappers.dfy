/** Shared result type for operations that may fail. */
module Wrappers {
  datatype Option<+T> = None | Some(value: T)
}
