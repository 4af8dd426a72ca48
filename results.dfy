/** Failure-carrying values shared by every module of the model. */
module Results {

  /** An optional value (the source's `Option`). */
  datatype Option<T> = None | Some(value: T)

  /**
   * The outcome of an operation that can fail with a message (the source's
   * `anyhow::Result`). Only the message text is kept; error chains and
   * contexts are not modelled.
   */
  datatype Result<T> = Ok(value: T) | Err(message: string)
}
