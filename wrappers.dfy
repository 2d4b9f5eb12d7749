/** Option and error-carrying outcomes shared by every module. */
module Wrappers {

  datatype Option<+T> = None | Some(value: T)
  {
    function GetOr(default: T): T
    {
      if Some? then value else default
    }
  }

  datatype Result<+R> = Success(value: R) | Failure(error: string)

  /** The outcome of an operation that returns nothing or raises an exception with a message. */
  datatype Outcome = Pass | Fail(error: string)
}
