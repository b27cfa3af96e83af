/** Failure-carrying values used across the model: a JavaScript `undefined`/`null`
    becomes `None`, a thrown or returned error becomes `Err`. */
module Wrappers {

  datatype Option<+T> = None | Some(value: T) {
    function GetOr(default: T): T
    {
      match this
      case Some(v) => v
      case None => default
    }
  }

  datatype Result<+R, +E> = Ok(value: R) | Err(error: E)
}
