/** The JavaScript `null` / `undefined` results of the editor, as an option value. */
module Wrappers {
  datatype Option<T> = None | Some(value: T)
}
