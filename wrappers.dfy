/** The usual optional value, used for "no match" and "no record" results. */
module Wrappers {
  datatype Option<+T> = None | Some(value: T)
}
