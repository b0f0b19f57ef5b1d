/** JavaScript's `undefined` / `null` / "no result", as a value. */
module Wrappers {

  datatype Option<+T> = None | Some(value: T)
}
