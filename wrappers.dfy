/** A value that may be absent: a JavaScript `null`/`undefined` field or a missing object key. */
module Wrappers {

  datatype Option<+T> = None | Some(value: T)

}
