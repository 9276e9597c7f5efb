// The Option type shared by all modules: Python's None, a missing key, a failed parse.
module Wrappers {
  datatype Option<+T> = None | Some(value: T)
}
