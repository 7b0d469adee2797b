/** Failure-compatible datatypes shared by every module of the model. */
module Wrappers {

  /** A value that may be missing: JavaScript's `null`/`undefined` results. */
  datatype Option<+T> = None | Some(value: T) {
    function GetOr(default: T): T {
      match this
      case Some(v) => v
      case None => default
    }

    /** JavaScript's `a || b` on values whose present form is always truthy. */
    function OrElse(other: Option<T>): Option<T> {
      if Some? then this else other
    }
  }

  /** The outcome of a call that may throw or reject: `Err` carries a description. */
  datatype Result<+T> = Ok(value: T) | Err(error: string) {
    predicate IsFailure() {
      Err?
    }

    function PropagateFailure<U>(): Result<U>
      requires Err?
    {
      Err(error)
    }

    function Extract(): T
      requires Ok?
    {
      value
    }
  }
}
