/** The optional-value datatype used where the component reads a property
    that may be absent (JavaScript `undefined`). */
module Wrappers {

  datatype Option<+T> = None | Some(value: T)

}
