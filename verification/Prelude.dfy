/** Values that may be absent, Python's `X | None`. */
module Prelude {
  datatype Option<+T> = None | Some(value: T)
}
