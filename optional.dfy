/** Option and Result: JavaScript's `undefined`/`NaN` values and thrown
    errors, made explicit. */
module Optional {

  /** A value that may be absent (`undefined`, or `NaN` for numbers). */
  datatype Option<+T> = None | Some(value: T)

  /** A computation that either produces a value or throws `error`. */
  datatype Result<+T, +E> = Ok(value: T) | Err(error: E)
}
