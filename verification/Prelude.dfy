/** The two carriers used everywhere: an optional value (Go's `value, ok` pair, or a
    pointer that may be nil) and a value-or-error pair. */
module Prelude {
  datatype Option<+T> = None | Some(value: T)

  datatype Result<+T, +E> = Ok(value: T) | Err(error: E)
}
