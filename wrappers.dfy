/**
 * Optional values and the outcome of an operation that may raise one of the
 * .NET exceptions the library lets escape to its callers.
 */
module Wrappers {

  datatype Option<T> = None | Some(value: T)
  {
    function GetOr(default: T): T
    {
      if Some? then value else default
    }
  }

  /** The exception kinds that the modelled operations can raise. */
  datatype Exception =
    | ArgumentException
    | ArgumentOutOfRangeException
    | NotSupportedException
    | KeyNotFoundException
    | FormatException
    | NullReferenceException
    | IOException
    | DirectoryNotFoundException
    | OverflowException

  /** The result of an operation: a value, or the exception it raises. */
  datatype Outcome<T> = Ok(value: T) | Fail(error: Exception)
  {
    predicate IsFailure()
    {
      Fail?
    }

    function PropagateFailure<U>(): Outcome<U>
      requires Fail?
    {
      Fail(error)
    }

    function Extract(): T
      requires Ok?
    {
      value
    }
  }
}
