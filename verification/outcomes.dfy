/** Optional values and success/failure results used across the model. */
module Outcomes {

  /** A value that may be absent: JavaScript's `undefined`/`null`, or a
      search that found nothing. */
  datatype Option<+T> = None | Some(value: T)

  /** The outcome of a step that can fail. */
  datatype Result<+T, +E> = Ok(value: T) | Err(error: E)
}
