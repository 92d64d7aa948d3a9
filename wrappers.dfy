/** The optional value used for "unavailable" prices and for the unset last-alerted price. */
module Wrappers {

  datatype Option<+T> = None | Some(value: T)
}
