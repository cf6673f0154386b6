/** Option type used wherever the firmware either produces a value or leaves state alone. */
module Wrappers {
  datatype Option<+T> = None | Some(value: T)
}
