/** The optional value used where the script tests a value against `null` or a regex may fail. */
module Wrappers {
  datatype Option<+T> = None | Some(value: T)
}
