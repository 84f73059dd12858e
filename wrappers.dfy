/** The Option type used across the model for "a reference or null". */
module Wrappers {
  datatype Option<+T> = None | Some(value: T)
}
