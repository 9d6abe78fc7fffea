/** An optional value shared by the handler models. */
module Wrappers {

  /** A value that may be missing: Go's nil pointer or a lookup that fails. */
  datatype Option<+T> = None | Some(value: T)
}
