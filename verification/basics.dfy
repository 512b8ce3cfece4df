/** Shared optional value. */
module Basics {
  datatype Option<+T> = None | Some(value: T)
}
