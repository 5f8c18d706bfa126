/** Results of the builder's steps. The source aborts the whole construction
    when an apex-set assertion fires or the worklist array would be written
    out of range; the model reports why it stopped instead. */
module Outcomes {

  /** Why a construction stopped before finishing. */
  datatype Failure =
    | ApexOverflow   // Insert of a third distinct apex (assert in TwoVertices::Insert)
    | EmptyApex      // Min of an empty apex set (assert in TwoVertices::Min)
    | StackOverflow  // a push past the end of the worklist array
    | OutOfFuel      // a loop ran longer than the model's iteration bound

  datatype Result<T> = Ok(value: T) | Fail(failure: Failure) {
    predicate IsFailure() { Fail? }

    function PropagateFailure<U>(): Result<U>
      requires Fail?
    {
      Fail(failure)
    }

    function Extract(): T
      requires Ok?
    {
      value
    }
  }

  /** What a state-changing method reports. */
  datatype Status = Done | Abort(why: Failure)

  /** The result a method's status and final state amount to: the state
      when it finished, the failure when it stopped. */
  function Outcome<T>(status: Status, state: T): (r: Result<T>)
    ensures r.Ok? <==> status == Done
    ensures r.Ok? ==> r.value == state
    ensures status.Abort? ==> r == Fail(status.why)
  {
    match status
    case Done => Ok(state)
    case Abort(why) => Fail(why)
  }
}
