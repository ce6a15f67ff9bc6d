/** The optional value used where the parser leaves something unset
    (`null` or `undefined` in the original program). */
module Wrappers {

  datatype Option<+T> = None | Some(value: T)
}
