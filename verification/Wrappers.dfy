// A value that may be absent: undefined, null or a failed search in the original.

module Wrappers {
  datatype Option<+T> = None | Some(value: T)
}
