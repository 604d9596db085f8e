/** The optional value used wherever the scripts test for `undefined`
    or a fetch may reject. */
module Wrappers {

  datatype Option<+T> = None | Some(value: T)
}
