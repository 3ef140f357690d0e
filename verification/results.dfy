/** Failure-carrying values shared by every module: a collaborator's answer
    or an operation's outcome is either a value or an error message. */
module Results {

  /** Either a value or the message of the error that was thrown instead. */
  datatype Result<+T> = Ok(value: T) | Err(error: string)

  /** A value that may be absent (a JavaScript `null`/`undefined`). */
  datatype Option<+T> = None | Some(value: T)
}
