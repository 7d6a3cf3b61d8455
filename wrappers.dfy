/** Option: how the model writes the Java handler's nullable references. */
module Wrappers {
  datatype Option<+T> = None | Some(value: T)
}
