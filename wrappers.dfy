/** The optional value shared by the other modules: JavaScript's `undefined`
    (a missing row, a missing id, a missing role) is `None`. */
module Wrappers {

  datatype Option<T> = None | Some(value: T)
}
