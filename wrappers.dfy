/** The optional value used where the Go code returns a value together with a `nil`
    or non-`nil` error, or a found flag. */
module Wrappers {

  datatype Option<+T> = None | Some(value: T)
}
