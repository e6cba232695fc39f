/** Option and Result, the shapes the model uses for Python's `None` and for raised exceptions. */
module Wrappers {

  datatype Option<+T> = None | Some(value: T)

  /** `Err` stands for an exception the source raises (a pydantic `ValueError`, a provider error). */
  datatype Result<+T, +E> = Ok(value: T) | Err(error: E)
}
