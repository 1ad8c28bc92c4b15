/** The absent-or-present value used for a route that does not match. */
module Wrappers {

  datatype Option<+T> = None | Some(value: T)
}
