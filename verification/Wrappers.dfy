/** The optional value used where the source has None or NULL. */
module Wrappers {
  datatype Option<+T> = None | Some(value: T)
}
