/** The optional result that stands in for the nullable pointers the C++ code
    returns from its lookups. */
module Wrappers {

  datatype Option<+T> = None | Some(value: T)

}
