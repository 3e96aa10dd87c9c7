/** The optional value that the Python code expresses with `None`. */
module Wrappers {

  datatype Option<T> = None | Some(value: T)

}
