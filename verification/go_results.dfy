/** Option and Result, the two failure-carrying shapes the Go code expresses
    with `(T, error)` pairs and `ok` flags. */
module GoResults {

  datatype Option<+T> = None | Some(value: T) {
    function GetOr(default: T): T {
      match this
      case Some(v) => v
      case None => default
    }
  }

  datatype Result<+T, +E> = Ok(value: T) | Err(error: E)
}
