/** Failure-compatible result type used for every fatal check (CHECK / LOG(FATAL)) of the model. */
module Wrappers {

  datatype Option<+T> = None | Some(value: T)

  /** `Ok` carries the value an operation returns; `Err` names the fatal condition it aborted on. */
  datatype Result<+T, +E> = Ok(value: T) | Err(error: E) {
    predicate IsFailure() { Err? }

    function PropagateFailure<U>(): Result<U, E>
      requires Err?
    {
      Err(error)
    }

    function Extract(): T
      requires Ok?
    {
      value
    }
  }

  /** The outcome of a state-changing operation: `Pass` or the fatal condition it aborted on. */
  datatype Outcome<+E> = Pass | Fail(error: E) {
    predicate IsFailure() { Fail? }

    function PropagateFailure(): Outcome<E>
      requires Fail?
    {
      this
    }
  }
}
