/** The optional value returned by a match that may fail (a `re` match object or `None`). */
module Wrappers {

  datatype Option<+T> = None | Some(value: T)
}
