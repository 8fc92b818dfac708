/** Option and Result, for Python's None and for operations that raise. */
module Wrappers {

  datatype Option<+T> = None | Some(value: T) {
    function GetOr(default: T): T {
      match this
      case Some(v) => v
      case None => default
    }
  }

  /** Why an operation of the model fails, where the source raises. */
  datatype Error =
    | EmptyScope        // list.pop() on an empty draw bag (IndexError)
    | NoSuchColumn      // UPDATE naming a column the table does not have
    | NotNullViolated   // NULL written into a NOT NULL column
    | NotAnInteger      // int() of a string that is not a decimal numeral (ValueError)

  datatype Result<+T> = Ok(value: T) | Err(error: Error)
}
