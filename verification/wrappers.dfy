/** A value that may be absent: `undefined`/`null` on the JavaScript side, or NaN from `parseInt`. */
module Wrappers {

  datatype Option<+T> = None | Some(value: T)
}
