/** Python's `None`-or-value results and its raised exceptions, as values.

    - `Option<T>` stands for a Python value that may be `None`.
    - `Result<T>` stands for a call that either returns a `T` or raises one of
      the exceptions listed in `Error`.
 */
module Wrappers {

  datatype Option<+T> = None | Some(value: T) {

    /** The value, or `default` when this is `None`. */
    function GetOr(default: T): T {
      match this
      case Some(v) => v
      case None => default
    }
  }

  /** The exceptions the lookup layer raises. Each carries the data its
      message is formatted from; the message text itself is not modelled. */
  datatype Error =
    | CantConnect(location: string)           // sqlite3.OperationalError after the retries
    | ZipNotFound(zipcode: string, radius: real)  // ZipNotFoundException from a radius search
    | IndexError(zipcode: string)             // IndexError from indexed access

  datatype Result<+T> = Ok(value: T) | Err(error: Error) {

    predicate IsFailure() {
      Err?
    }

    function PropagateFailure<U>(): Result<U>
      requires Err?
    {
      Err(error)
    }

    function Extract(): T
      requires Ok?
    {
      value
    }
  }
}
