/** Optional values: JavaScript's `undefined`, Python's `None`, a missing map key. */
module Wrappers {

  datatype Option<+T> = None | Some(value: T)

}
