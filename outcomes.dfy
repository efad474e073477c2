/** Outcomes of the exercise functions: a value, or the Python exception they raise. */
module Outcomes {

  /** The two exceptions the modelled code can raise: the explicit
      `ValueError` of the input checks and the `IndexError` of a list
      subscript that is out of range. */
  datatype Error = ValueError | IndexError

  datatype Result<T> = Ok(value: T) | Err(error: Error)
}
