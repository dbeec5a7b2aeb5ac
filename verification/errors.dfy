/** Error classification shared by every stage of the interpreter, and the
    failure-compatible result type the stages return. */
module Errors {

  /** The source raises three Scheme error kinds (SyntaxError, NameError,
      EvaluationError). The remaining constructors stand for outcomes that are
      not Scheme errors in the source:
      - HostError: a host-language exception (missing operand, wrong operand
        type, unpacking failure, unhashable key);
      - Unsupported: behaviour outside the model (floating point results,
        identity comparison of pairs);
      - OutOfFuel: the evaluation budget ran out (the source's recursion limit). */
  datatype Error =
    | SyntaxError
    | NameError
    | EvaluationError
    | HostError
    | Unsupported
    | OutOfFuel

  datatype Option<+T> = None | Some(value: T)

  /** A value or the error that aborted its computation; usable with `:-`. */
  datatype Result<+T> = Ok(value: T) | Err(error: Error) {

    predicate IsFailure() {
      Err?
    }

    function PropagateFailure<U>(): Result<U>
      requires Err?
    {
      Err(error)
    }

    function Extract(): T
      requires Ok?
    {
      value
    }
  }
}
