// Option and Result, the two shapes every module uses for Python's
// falsy values (`False`, `None`) and for raised exceptions.
module Wrappers {
  datatype Option<T> = None | Some(value: T)
  {
    function GetOr(default: T): T
    {
      if Some? then value else default
    }
  }

  datatype Result<T, E> = Success(value: T) | Failure(error: E)
}
