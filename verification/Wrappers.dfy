/** The optional value used for absent timeouts and failed look-ups. */
module Wrappers {
  datatype Option<+T> = None | Some(value: T)
}
