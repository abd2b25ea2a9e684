/** The optional value the model returns where the client may have nothing
    to give back. */
module Wrappers {
  datatype Option<+T> = None | Some(value: T)
}
