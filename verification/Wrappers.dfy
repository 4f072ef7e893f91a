/** Result types shared by the services: the error kinds are those of internal/apperr. */
module Wrappers {

  datatype Option<+T> = None | Some(value: T)

  /** The error codes a service call can return. */
  datatype Error =
    | NotFound
    | Conflict
    | InvalidTransition
    | ValidationFailed
    | Forbidden
    | Internal

  datatype Result<+T> = Ok(value: T) | Err(error: Error)

  datatype Unit = Unit

  /** How the store answers a statement: it may refuse it, for contention that passes or for good. */
  datatype Fault = Fine | Contention | Broken

  /** Clocks count nanoseconds. */
  const SECOND: int := 1_000_000_000

  /** A primary key. Keys are UUID strings that are only ever compared, so any countable type serves. */
  type Id = nat

  /** Row versions start at 1. */
  type Version = n: int | n >= 1 witness 1
}
