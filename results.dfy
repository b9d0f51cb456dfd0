/** Option and Result wrappers used by every operation of the model. */
module Results {
  import opened Errors

  datatype Option<+T> = None | Some(value: T)

  /** The value of a call that either returns or raises one of the `Error`s. */
  datatype Result<+T> = Ok(value: T) | Err(error: Error) {
    predicate IsFailure() { Err? }

    function PropagateFailure<U>(): Result<U>
      requires Err?
    {
      Err(error)
    }

    function Extract(): T
      requires Ok?
    {
      value
    }
  }

  /** One call of a state-changing operation: what it returned or raised, and
      the state it left behind. */
  datatype Step<+T, +S> = Step(result: Result<T>, next: S)

  /** A check that returns nothing or raises. */
  datatype Outcome = Pass | Fail(error: Error)
}
