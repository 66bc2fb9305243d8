/**
 * Optional values, results and the exception kinds the modelled code raises.
 * A Python exception becomes an `Err` carrying the exception class and the
 * message the source builds; a function that returns normally becomes `Ok`.
 */
module Wrappers {

  datatype Option<+T> = None | Some(value: T)
  {
    predicate IsFailure() { None? }

    function PropagateFailure<U>(): Option<U>
      requires None?
    {
      None
    }

    function Extract(): T
      requires Some?
    {
      value
    }

    function GetOr(default: T): T
    {
      match this
      case Some(v) => v
      case None => default
    }
  }

  /** The Python exception classes that the modelled code can raise. */
  datatype ErrorKind =
    | ValueError
    | AssertionError
    | IndexError
    | KeyError
    | NameError
    | TypeError
    | RuntimeError
    | StopIteration
    | FileNotFoundError
    | CliError

  datatype Error = Error(kind: ErrorKind, message: string)

  datatype Result<+T> = Ok(value: T) | Err(error: Error)
  {
    predicate IsFailure() { Err? }

    function PropagateFailure<U>(): Result<U>
      requires Err?
    {
      Err(error)
    }

    function Extract(): T
      requires Ok?
    {
      value
    }
  }

  /** The outcome of a check that either returns `None` or raises. */
  datatype Outcome = Pass | Fail(error: Error)
  {
    predicate IsFailure() { Fail? }

    function PropagateFailure(): Outcome
      requires Fail?
    {
      this
    }
  }

  function Raise<T>(kind: ErrorKind, message: string): Result<T>
  {
    Err(Error(kind, message))
  }

  /** `assert cond, message`: passes when `cond` holds, raises otherwise. */
  function Check(cond: bool, kind: ErrorKind, message: string): (r: Outcome)
    ensures r.Pass? <==> cond
    ensures r.Fail? ==> r.error == Error(kind, message)
  {
    if cond then Pass else Fail(Error(kind, message))
  }
}
