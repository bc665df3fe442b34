/** An optional value and a handler result, shared by the model: `Option` is
    a JavaScript argument that may be `undefined`, and `Result` is an HTTP
    handler's answer, either 2xx or one of its error statuses. */
module Wrappers {

  datatype Option<+T> = None | Some(value: T) {
    /** The wrapped value, or `default` when absent (a defaulted parameter). */
    function GetOr(default: T): T {
      match this
      case Some(v) => v
      case None => default
    }
  }

  datatype Result<+R, +E> = Success(value: R) | Failure(error: E)
}
