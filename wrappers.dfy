/** A value that may be absent: TypeScript's `T | null`, and an optional record field. */
module Wrappers {
  datatype Option<T> = None | Some(value: T)
}
