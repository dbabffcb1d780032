/** The optional value used for a regular-expression match that may fail and for a
    registry lookup that may fail. */
module Wrappers {

  datatype Option<+T> = None | Some(value: T)

}
