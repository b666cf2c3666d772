/** A value that may be missing: a JavaScript `undefined`/`null`, or a browser
    call whose promise was rejected. */
module Wrappers {

  datatype Option<T> = None | Some(value: T)
}
