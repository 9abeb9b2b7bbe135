/** Option and Result, used for the values the browser may not find and for
    the Python exceptions that escape the query. */
module Wrappers {

  datatype Option<+T> = None | Some(value: T)

  datatype Result<+R, +E> = Success(value: R) | Failure(error: E)

  /** The exceptions of the modelled code that callers can observe.
      `list.__getitem__` on the result of `str.split` raises IndexError. */
  datatype Error = IndexError
}
