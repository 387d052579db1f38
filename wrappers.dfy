/** The Option type used for nullable references and optional host callbacks. */
module Wrappers {
  datatype Option<+T> = None | Some(value: T)
}
