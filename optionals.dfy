/** A value that may be absent: a JavaScript property that is `undefined`. */
module Optionals {

  datatype Option<+T> = None | Some(value: T)
}
