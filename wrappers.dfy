/** An optional value: the model's stand-in for `T | undefined`. */
module Wrappers {
  datatype Option<+T> = None | Some(value: T)
}
