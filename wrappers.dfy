/** The optional value a prompt answer may be missing from (an aborted prompt
    leaves the answer `undefined`). */
module Wrappers {
  datatype Option<+T> = None | Some(value: T)
}
