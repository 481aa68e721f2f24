/** Option and Result, in the shapes the repository's Rust code uses them, and its error type. */
module Wrappers {
  datatype Option<+T> = None | Some(value: T)

  datatype Result<+T> = Ok(value: T) | Err(error: AppError)

  // src/error.rs: the variants the modelled code returns. A validation error
  // keeps the reason, since several checks share the variant.
  datatype AppError =
    | Validation(reason: Reason)
    | NotFound
    | BadRequest
    | Conflict
    | Database

  datatype Reason = EmptyName | SelfDependency | UnknownCondition | UnknownPolicy | CycleFound | NotDeadLetter
}
