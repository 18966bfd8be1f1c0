/** Failure-carrying datatypes used by the moderation model: an optional
    value (an unset setting, a collaborator that produced nothing) and a
    result that is either a value or the error that aborted the call. */
module Wrappers {

  datatype Option<+T> = None | Some(value: T)

  datatype Result<+R, +E> = Success(value: R) | Failure(error: E)
}
