/** Shared vocabulary of the lookup helpers: optional values, the exceptions
    the helpers raise, and a result type that carries either a value or the
    exception that was raised instead. */
module Basics {

  /** A value that may be absent (Python's `None`). */
  datatype Option<T> = None | Some(value: T)

  /** Every exception the modelled helpers can raise, one constructor per kind. */
  datatype Error =
    /** `ItemNotFoundError` with its message text. */
    | ItemNotFound(message: string)
    /** `MultipleItemFoundError` with its message text. */
    | MultipleItemFound(message: string)
    /** The range assertion on the best similarity score failed. */
    | AssertionFailed
    /** The best item was read before any item had been recorded as best
        (Python's `UnboundLocalError`). */
    | UnboundBest
    /** A requested field is not a key of an item's dictionary (`KeyError`). */
    | KeyMissing(name: string)
    /** The mean of an empty list of scores was requested (`StatisticsError`). */
    | EmptyMean
    /** A `None` value was concatenated into a message (`TypeError`). */
    | NoneInMessage

  /** Either the value a helper returns or the exception it raises. */
  datatype Result<T> = Ok(value: T) | Err(error: Error)

  /** Message of the plain "not found" failure. */
  const NotFoundMessage: string := "Failed find item."

  /** Message of the "more than one match" failure. */
  const AmbiguousMessage: string := "Failed to identify item."
}
