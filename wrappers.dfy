/** The optional value that stands for Go's `nil` results throughout the parser. */
module Wrappers {

  datatype Option<+T> = None | Some(value: T)
}
