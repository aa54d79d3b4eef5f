/** The absent-or-present value that `Array.prototype.find` and the URL query
    parameter produce: JavaScript's `undefined` becomes `None`. */
module Wrappers {

  datatype Option<+T> = None | Some(value: T)
}
