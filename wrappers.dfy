/** An optional value, used for `None` in the program's globals and for a failed parse. */
module Wrappers {

  datatype Option<+T> = None | Some(value: T)
}
