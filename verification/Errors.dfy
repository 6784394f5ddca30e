/** The engine's error kinds; messages are left out. */
module Errors {

  datatype EngineError =
    | InvalidArgument
    | NotFound
    | AlreadyExists
    | FailedPrecondition
    | Aborted
    | Unimplemented
}
