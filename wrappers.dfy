/** Option and Result values, and the Python exceptions the add-on raises or lets escape. */
module Wrappers {

  datatype Option<+T> = None | Some(value: T)

  /** The exceptions the modelled code can raise, named after their Python classes. */
  datatype Exception =
    | KeyError(key: string)
    | ValueError(reason: string)
    | AttributeError(attribute: string)
    | UnboundLocalError(variable: string)
    | TypeError(reason: string)
    | FileNotFoundError(reason: string)
    /** Raised by the host itself, as `select_set` does for an object outside the view layer. */
    | RuntimeError(reason: string)

  datatype Result<+T> = Ok(value: T) | Err(error: Exception)

  /** The value Blender operators return. */
  datatype OperatorResult = Finished | Cancelled
}
