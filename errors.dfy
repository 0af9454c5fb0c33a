/** Status codes and the value-or-error results every fallible step returns. */
module Errors {

  /** The error classes the importer and the device layer report. */
  datatype Code = FailedPrecondition | InvalidArgument | Unimplemented | Unknown | Internal

  /** A Status is either OK or an error with its class and message. */
  datatype Status = Ok | Error(code: Code, msg: string) {
    predicate IsFailure() { Error? }
    function PropagateFailure<T>(): Result<T>
      requires Error?
    {
      Failure(code, msg)
    }
  }

  /** A value or an error; failure-compatible, so `:-` propagates the first error. */
  datatype Result<+T> = Success(value: T) | Failure(code: Code, msg: string) {
    predicate IsFailure() { Failure? }
    function PropagateFailure<U>(): Result<U>
      requires Failure?
    {
      Failure(code, msg)
    }
    function Extract(): T
      requires Success?
    {
      value
    }
    function ToStatus(): Status {
      if Success? then Ok else Error(code, msg)
    }
  }

  datatype Option<+T> = None | Some(value: T)
}
