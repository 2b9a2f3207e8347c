/** Optional values and fallible results, standing in for Python's `None`
    and for the exceptions the extractor can raise. */
module Wrappers {

  /** `None` is Python's `None`; `Some(v)` is a present value. */
  datatype Option<+T> = None | Some(value: T)

  /** `Err(e)` is an uncaught exception that aborts the whole run. */
  datatype Result<+T, +E> = Ok(value: T) | Err(error: E)
}
