/** An optional value: Go's `nil` or a pointer, and an error that may be `nil`. */
module Wrappers {
  datatype Option<+T> = None | Some(value: T)
}
