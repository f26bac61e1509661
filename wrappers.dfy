/** The optional value returned where the source returns `Optional[...]`. */
module Wrappers {

  datatype Option<+T> = None | Some(value: T)
}
