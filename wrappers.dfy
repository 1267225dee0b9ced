/** Option type shared by the two matchers. */
module Wrappers {
  datatype Option<+T> = None | Some(value: T)
}
