/** The value a call yields, or the fact that it threw. */
module Outcomes {
  datatype Result<+T> = Ok(value: T) | Throw {
    predicate IsFailure() {
      Throw?
    }

    function PropagateFailure<U>(): Result<U>
      requires Throw?
    {
      Throw
    }

    function Extract(): T
      requires Ok?
    {
      value
    }
  }
}
