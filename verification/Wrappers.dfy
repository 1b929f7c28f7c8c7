/** Results and the error sentinels of models/models.go. */
module Wrappers {

  datatype Option<+T> = None | Some(value: T)

  datatype Result<+T> = Ok(value: T) | Err(error: Error)

  /** `NotFound`, `AlreadyExists`, `InUse` and `TerminalState` are the sentinels the handlers map to
      status codes; `Required` stands for the untyped "... is required" errors, `BadRequest` for a
      handler-level 400. */
  datatype Error = NotFound | AlreadyExists | InUse | TerminalState | Required | BadRequest
}
