/** The optional value used for absent claims and failed token verification. */
module Wrappers {

  datatype Option<+T> = None | Some(value: T)
}
