/** Small shared value types. */
module Wrappers {

  /** An optional value. */
  datatype Option<+T> = None | Some(value: T)
}
