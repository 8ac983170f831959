/** Optional values and the outcome of one round trip to the server. */
module Wrappers {

  /** A value that may be absent; the page's `error` slot is `None` when no message is shown. */
  datatype Option<+T> = None | Some(value: T)

  /** What a request to the projects collection came back with: the payload of a
      success, or a failure (transport error or non-success status, not distinguished). */
  datatype Result<+T> = Ok(value: T) | Failure
}
