/** The optional value used throughout the model for "absent" (a missing object key, no match). */
module Wrappers {
  datatype Option<+T> = None | Some(value: T)
}
