/** The optional value used for the optional properties of an error record. */
module Wrappers {

  datatype Option<+T> = None | Some(value: T)

}
