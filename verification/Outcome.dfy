/** How a call is refused: the gRPC status code, without the sentence. */
module Outcome {
  datatype Option<+T> = None | Some(value: T)

  datatype Code =
    | InvalidArgument
    | FailedPrecondition
    | PermissionDenied
    | AlreadyExists
    | NotFound
    | Internal

  datatype Result<+T> = Ok(value: T) | Err(code: Code)
}
