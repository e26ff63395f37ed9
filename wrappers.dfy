/** The optional value returned by the number parser. */
module Wrappers {

  datatype Option<+T> = None | Some(value: T)
}
