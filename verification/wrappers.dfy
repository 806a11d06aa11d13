/** The optional value used wherever the source has `undefined`, `null` or a failed lookup. */
module Wrappers {

  datatype Option<+T> = None | Some(value: T)
}
