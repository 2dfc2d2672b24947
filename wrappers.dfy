/** The optional value the model uses where the program has a second, failing path. */
module Wrappers {
  datatype Option<+T> = None | Some(value: T)
}
