/** The optional value used wherever the source tests for a missing entry. */
module Wrappers {
  datatype Option<+T> = None | Some(value: T)
}
