// The result of what may fail or be missing.
module Wrappers {
  datatype Option<+T> = None | Some(value: T)
}
