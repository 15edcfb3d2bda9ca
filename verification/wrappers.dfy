/** The optional value used where `main.cpp` returns a null pointer. */
module Wrappers {

  datatype Option<+T> = None | Some(value: T)
}
