/** A value that may be missing: SQL's NULL, Ruby's nil, an uninitialised register. */
module Wrappers {

  datatype Option<+T> = None | Some(value: T)
}
