/** Option: a value that may be missing (a pandas NaN cell, a label outside a rewrite map). */
module Wrappers {

  datatype Option<+T> = None | Some(value: T)
}
