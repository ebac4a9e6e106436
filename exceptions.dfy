/** Optional values and the outcome of a Python call that may raise. */
module Exceptions {

  datatype Option<+T> = None | Some(value: T) {
    function GetOr(default: T): T {
      match this
      case Some(v) => v
      case None => default
    }
  }

  /** The Python exceptions that the modelled code can raise. */
  datatype Exc =
    | TypeError
    | KeyError
    | AttributeError
    | ValueError
    | JSONDecodeError
    | UnicodeDecodeError
    | FileNotFoundError
    | FileExistsError
    | IsADirectoryError
    | NotADirectoryError
    | ZeroDivisionError
    | ResourceNotFoundError     // the blob service has no such container or blob
    | PartitionColumnMissing    // a partition column is not a column of the table

  /** Either a value, or the exception raised while computing it. */
  datatype Outcome<+T> = Ok(value: T) | Raise(exc: Exc)
}
