/** The optional value used for the programs' error returns and panics. */
module Wrappers {

  datatype Option<+T> = None | Some(value: T)
}
