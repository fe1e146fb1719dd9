/** The optional value the source returns as `None` on failure. */
module Wrappers {

  datatype Option<+T> = None | Some(value: T)
}
