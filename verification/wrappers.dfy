/**
 * Option and the Java exceptions the modelled code can throw.  A thrown
 * exception is a value here: operations that can throw return an
 * `Outcome`, and transitions that mutate state before throwing return the
 * state reached together with the exception.
 */
module Wrappers {

  datatype Option<T> = None | Some(value: T)
  {
    predicate IsSome() { this.Some? }

    function GetOr(default: T): T
    {
      match this
      case None => default
      case Some(v) => v
    }
  }

  /** The exception classes thrown by the modelled code. */
  datatype JavaException =
    | IllegalArgument
    | IllegalState
    | Runtime
    | Cancellation
    | UnsupportedOperation
    | ArrayIndexOutOfBounds
    | IndexOutOfBounds
    | Arithmetic
    | NotFound

  datatype Outcome<T> = Ok(value: T) | Thrown(error: JavaException)
  {
    predicate IsOk() { this.Ok? }
  }
}
