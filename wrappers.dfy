/** Option and Result, used for the places where the bot's code yields
    nothing (a missing user, `NaN`) or aborts (an exception). */
module Wrappers {
  datatype Option<+T> = None | Some(value: T)

  datatype Result<+T, +E> = Success(value: T) | Failure(error: E)
}
