/** Types shared by every component: optional values, results and the status codes of the RPC layer. */
module Prelude {

  datatype Option<+T> = None | Some(value: T)

  datatype Result<+T, +E> = Ok(value: T) | Err(error: E)

  /** How a write to a remote store can end: done, failed without effect, or done but reported failed. */
  datatype Write = Applied | Lost | Unacknowledged

  /** The gRPC status codes the handlers answer with. */
  datatype Code =
    | InvalidArgument
    | NotFound
    | AlreadyExists
    | FailedPrecondition
    | PermissionDenied
    | Unauthenticated
    | ResourceExhausted
    | Internal
}
