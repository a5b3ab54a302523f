/** Small result types shared by the model. */
module Wrappers {

  /** A value that may be absent: Go's `(v, ok)` pairs and nil results. */
  datatype Option<+T> = None | Some(value: T) {

    /** The wrapped value, or `default` when absent. */
    function GetOr(default: T): T {
      match this
      case Some(v) => v
      case None => default
    }
  }

  /** The outcome of one request to the monitored server: its decoded body or a transport error. */
  datatype Fetch<+T> = Ok(value: T) | Err
}
