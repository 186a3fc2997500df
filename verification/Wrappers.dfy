/** The one datatype for optional values that all modules share. */
module Wrappers {

  datatype Option<+T> = None | Some(value: T)
}
