/** The optional value used across the model for JavaScript's `undefined` and `null`. */
module Wrappers {
  datatype Option<T> = None | Some(value: T)
}
