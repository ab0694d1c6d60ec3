/** The optional value used wherever the source returns `None` or a sentinel. */
module Wrappers {

  datatype Option<+T> = None | Some(value: T)
}
