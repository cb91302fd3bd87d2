/** Nullable references and values of the source, as an explicit option. */
module Wrappers {
  datatype Option<+T> = None | Some(value: T)
}
