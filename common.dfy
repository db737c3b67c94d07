/** Failure-compatible wrappers shared by the whole model. */
module Common {

  /** An optional value: an absent (`undefined`) JavaScript value is `None`. */
  datatype Option<+T> = None | Some(value: T)

  /** The outcome of an operation that either returns a value or throws an
      `Error` whose message is `error`. */
  datatype Result<+T> = Success(value: T) | Failure(error: string)
}
