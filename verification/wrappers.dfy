/** A tiny optional-value type, used where an operation may not produce a result. */
module Wrappers {

  datatype Option<+T> = None | Some(value: T)
}
