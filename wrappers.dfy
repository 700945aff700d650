/** An optional value: the model's stand-in for a Python exception or a missing result. */
module Wrappers {
  datatype Option<+T> = None | Some(value: T)
}
