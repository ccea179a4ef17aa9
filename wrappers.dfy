/** The optional value used throughout the model: a missing storage key, a lookup
    that finds nothing. */
module Wrappers {

  datatype Option<+T> = None | Some(value: T)
}
