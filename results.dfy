/** The outcome of an operation that can raise: a value or nothing, or the
    error raised. */
module Results {

  datatype Result<T, E> = Ok(value: T) | Err(error: E)

  datatype Outcome<E> = Pass | Fail(error: E)
}
