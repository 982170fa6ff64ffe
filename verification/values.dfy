/**
 Failure-carrying values shared by every module of the model.

 JavaScript code in the extension either returns a value or throws. The throws
 that matter here are the `TypeError`s of `new URL(...)` on an unparsable
 string and of calling a method the object does not define.
 */
module Values {

  /** Absent-or-present value; `undefined` in the source. */
  datatype Option<+T> = None | Some(value: T) {
    function GetOr(default: T): T {
      match this
      case Some(v) => v
      case None => default
    }
  }

  /** Why a JavaScript call threw. */
  datatype Error =
    | InvalidUrl        // `new URL(s)` rejected `s`
    | NotAFunction      // a call through an undefined method
    | MissingBucket     // a property read on `undefined`

  /** Either the value a call returns or the exception it throws. */
  datatype Result<+T> = Ok(value: T) | Err(error: Error) {
    predicate IsFailure() { Err? }

    function PropagateFailure<U>(): Result<U>
      requires Err?
    {
      Err(error)
    }

    function Extract(): T
      requires Ok?
    {
      value
    }
  }
}
