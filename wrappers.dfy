/** Option, the one failure-carrying wrapper the model needs. */
module Wrappers {
  datatype Option<+T> = None | Some(value: T)
}
