/** Small failure-carrying datatypes shared by every module of the model. */
module Common {

  datatype Option<+T> = None | Some(value: T)

  /** The outcome of an operation that may raise: `Err` carries the Python
      exception the source would raise. */
  datatype Result<+T, +E> = Ok(value: T) | Err(error: E)

  /** The Python exceptions the modelled code raises on purpose or lets escape. */
  datatype Fault =
    | AssertionError(message: string)
    | ValueError(message: string)
    | RuntimeError(message: string)
    | Reraised(kind: string)
    | KeyError(key: string)
      /** An exception the application itself raised, of class `kind`. */
    | AppException(kind: string)
      /** A cogen operation that did not complete within its timeout. */
    | OperationTimeout
}
