/** The wrappers the rest of the model uses: optional values for JavaScript's `null`/`undefined`,
    results for exceptions, and the acknowledgement the IPC handlers answer with. */
module Base {

  /** `None` stands for JavaScript's `null` or `undefined`. */
  datatype Option<+T> = None | Some(value: T) {

    /** `x ?? d`: the value when present, otherwise the default. */
    function GetOr(default: T): T {
      match this
      case Some(v) => v
      case None => default
    }
  }

  /** The outcome of an operation that can throw: `Err` carries what was thrown. */
  datatype Result<+T, +E> = Ok(value: T) | Err(error: E)

  /** The `{ success: true }` answer of the main process's IPC handlers. */
  datatype Reply = Reply(success: bool)
}
