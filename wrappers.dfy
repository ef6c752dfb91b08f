/** The optional value shared by the argument parser and the older driver. */
module Wrappers {
  datatype Option<T> = None | Some(value: T)
}
