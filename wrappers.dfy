/** The optional result that the parsers return where the source returns `null`. */
module Wrappers {

  datatype Option<+T> = None | Some(value: T)
}
