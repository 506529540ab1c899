/** The optional value used throughout the project for the source's nullable results. */
module Wrappers {
  datatype Option<+T> = None | Some(value: T)
}
