/** The optional value the model returns where the source returns `null`. */
module Wrappers {
  datatype Option<+T> = None | Some(value: T)
}
