/** Small value wrappers shared by the rest of the model. */
module Values {

  /** A field as it reaches the model: `data.get(key)` is either absent (None) or a value. */
  datatype Option<+T> = None | Some(value: T)

  /** The exception a field rule raises: the rule's own `ValueError`, or the `TypeError`
      the Python runtime raises when the rule's code cannot run on the value it was given. */
  datatype FieldError = ValueError(message: string) | TypeError(message: string)

  /** The outcome of one field rule: accepted (with the value the rule returns, which becomes
      the attribute's value) or rejected with the exception it raised. */
  datatype Checked<+T> = Accepted(value: T) | Rejected(error: FieldError)

  /** The outcome of an operation that can fail with an error of type E. */
  datatype Result<+T, +E> = Success(value: T) | Failure(error: E)
}
