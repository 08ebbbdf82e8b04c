/** Option: the value-or-nothing wrapper used across the model (Python's `None`). */
module Wrappers {

  datatype Option<+T> = None | Some(value: T)

}
