/** The conventional Some/None datatype, used for "no value" results. */
module Wrappers {
  datatype Option<+T> = None | Some(value: T)
}
