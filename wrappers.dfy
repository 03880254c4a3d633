/** Option and Result, the failure-carrying values the rest of the model
    returns in place of Python's `None` and raised exceptions. */
module Wrappers {

  datatype Option<+T> = None | Some(value: T)

  /** The exceptions the modelled code raises (or lets escape). */
  datatype Error =
    | ValueError
    | AssertionError
    | AttributeError
    | IndexError
    | KeyError
    | RuntimeError
    | RecursionError
    | TypeError
    | UnknownEscape(rest: string)

  datatype Result<+T> = Success(value: T) | Failure(error: Error)
}
