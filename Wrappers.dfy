/** The optional value used for the results of the pattern matches. */
module Wrappers {

  datatype Option<+T> = None | Some(value: T)
}
