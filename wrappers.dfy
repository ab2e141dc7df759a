/** The optional value used for the results of fallible foreign calls. */
module Wrappers {

  datatype Option<+T> = None | Some(value: T)
}
