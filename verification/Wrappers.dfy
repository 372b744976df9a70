// A value that may be absent, shared by all modules.
module Wrappers {
  datatype Option<T> = None | Some(value: T)
}
