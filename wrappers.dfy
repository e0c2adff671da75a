/** Failure-compatible wrappers shared by the whole model, and the exceptions
    the Python code raises, as values. */
module Wrappers {

  datatype Option<+T> = None | Some(value: T)

  /** The Python exception classes the modelled code raises. */
  datatype Error =
    | KeyError(key: string)          // dict lookup of an absent key
    | ValueError(reason: string)     // bad value, failed int(), usage error
    | IndexError                     // list index out of range
    | TypeError(reason: string)      // argument of the wrong kind
    | RuntimeError(reason: string)   // refusing to overwrite a file
    | AttributeError(name: string)   // attribute access on None
    | ZeroDivisionError              // division by len([]) == 0
    | HttpError(url: string)         // raise_for_status on a failed request

  datatype Result<+T> = Ok(value: T) | Err(error: Error) {
    predicate IsFailure() { Err? }
    function PropagateFailure<U>(): Result<U>
      requires Err?
    {
      Err(error)
    }
    function Extract(): T
      requires Ok?
    {
      value
    }
  }

  datatype Outcome = Pass | Fail(error: Error) {
    predicate IsFailure() { Fail? }
    function PropagateFailure<U>(): Result<U>
      requires Fail?
    {
      Err(error)
    }
  }
}
