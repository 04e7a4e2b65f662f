/** The optional value used wherever the source returns either a value or `None`/`0`. */
module Wrappers {

  datatype Option<+T> = None | Some(value: T)
}
