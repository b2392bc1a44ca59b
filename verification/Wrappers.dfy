/** The optional value shared by the other modules: the source's null pointers and end iterators. */
module Wrappers {

  datatype Option<+T> = None | Some(value: T)
}
