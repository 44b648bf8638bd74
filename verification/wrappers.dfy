/** The two result shapes shared by every module of the model: `Option` stands
    for JavaScript's `undefined`/`null` results and `Result` for a call that may
    throw. */
module Wrappers {

  datatype Option<+T> = None | Some(value: T)

  datatype Result<+R, +E> = Success(value: R) | Failure(error: E)
}
