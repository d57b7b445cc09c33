/** Value-or-error results and optional values, standing in for the
    exceptions and `sys.exit(1)` paths of the calculator. */
module Results {

  datatype Option<+T> = None | Some(value: T)

  datatype Result<+T, +E> = Success(value: T) | Failure(error: E)
}
