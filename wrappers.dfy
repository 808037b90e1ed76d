/** An optional value, shared by the store model and the simulated sign-in. */
module Wrappers {
  datatype Option<T> = None | Some(value: T)
}
