/** Small shared vocabulary: optional values (JavaScript's `undefined`) and
    results that either carry a value or the exception a call throws. */
module Common {

  datatype Option<T> = None | Some(value: T)

  datatype Result<T, E> = Ok(value: T) | Err(error: E)

  /** The outcome of a call that returns nothing but may throw. */
  datatype Outcome<E> = Pass | Fail(error: E)
}
