/** The optional value the components read with `?.` and `find`. */
module Wrappers {

  datatype Option<+T> = None | Some(value: T)
}
