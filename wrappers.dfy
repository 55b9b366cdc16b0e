/** The optional value used for regular-expression matches. */
module Wrappers {
  datatype Option<+T> = None | Some(value: T)
}
