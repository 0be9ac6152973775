/** Option and Result, and the Python exceptions the modelled code can raise. */
module Wrappers {

  datatype Option<+T> = None | Some(value: T)

  datatype Result<+T, +E> = Success(value: T) | Failure(error: E) {
    predicate IsFailure() {
      Failure?
    }

    function PropagateFailure<U>(): Result<U, E>
      requires Failure?
    {
      Failure(error)
    }

    function Extract(): T
      requires Success?
    {
      value
    }
  }

  /** The exceptions the core raises; the command layer around it catches and logs them. */
  datatype Error =
    | KeyError(key: string)          // a required mapping key is missing
    | TypeError                      // a value of the wrong kind was indexed or searched
    | AttributeError                 // `.keys()`, `.group()` or `.to_dict()` on the wrong kind of value
    | ValueError                     // `list.index` found no equal element
    | FileNotFound(path: string)     // `os.listdir` on a directory that does not exist
}
