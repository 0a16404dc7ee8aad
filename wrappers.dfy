/** The conventional optional value, standing for Python's `None` and Java's `null`. */
module Wrappers {

  datatype Option<+T> = None | Some(value: T)
}
