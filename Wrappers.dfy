/** Option, the stand-in for C#'s nullable references (`Todo?`, `string?`). */
module Wrappers {
  datatype Option<+T> = None | Some(value: T)
}
