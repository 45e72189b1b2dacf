/** Failure-carrying values shared by every module: Python's `None`-or-value returns and
    the `(ok, message)` / `(value, message)` tuples the system uses for expected failures. */
module Common {

  datatype Option<T> = None | Some(value: T)

  datatype Result<T, E> = Ok(value: T) | Err(error: E)

  function Min(a: int, b: int): int
  {
    if a <= b then a else b
  }
}
