/** A value that may be absent: a missing storage key, a failed parse, no task being edited. */
module Wrappers {
  datatype Option<+T> = None | Some(value: T)
}
