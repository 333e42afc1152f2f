/** Result types shared by every module of the model. */
module Wrappers {

  datatype Option<+T> = None | Some(value: T)

  /** The exceptions that the modelled code lets escape to its caller. */
  datatype PyError = ValueError | IndexError | AttributeError | StopIteration

  /** How one call of the modelled code ends: it returns a value, an exception
      escapes from it, or it never returns (a `while True` that the input
      gives no way out of). */
  datatype Outcome<+T> = Returned(value: T) | Raised(error: PyError) | Diverges
}
