/** Option and Result values shared by every module of the model. */
module Common {

  /** A value that may be absent: TypeScript's `undefined`/`null`, Rust's `Option`. */
  datatype Option<+T> = None | Some(value: T) {
    function GetOr(default: T): T {
      match this
      case Some(v) => v
      case None => default
    }
  }

  /** The outcome of an operation that can fail: a thrown error, a rejected promise. */
  datatype Result<+T, +E> = Ok(value: T) | Err(error: E)
}
