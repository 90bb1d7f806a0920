/** Failure-carrying results shared by every module of the model.
    A Python exception raised by the pipeline (an IndexError on a short
    file, a ValueError from int(), ...) becomes a Failure value here. */
module Outcomes {

  datatype Option<+T> = None | Some(value: T)

  /** Why a step of the pipeline would have raised instead of returning. */
  datatype Error =
    | IndexOutOfRange      // numpy / list indexing past the end
    | MissingFile          // no record was written under the requested model ID
    | MissingSeparator     // a record line has no " = " in it
    | NotAnInteger         // int() rejected its argument
    | EmptyArray           // np.max of an empty array
    | ZeroMaximum          // dividing by a maximum of 0 gives NaN / inf
    | ShapeMismatch        // a score vector that cannot be broadcast into a column

  datatype Result<+T> = Success(value: T) | Failure(error: Error)
  {
    predicate IsFailure() { Failure? }

    function PropagateFailure<U>(): Result<U>
      requires Failure?
    {
      Failure(error)
    }

    function Extract(): T
      requires Success?
    {
      value
    }
  }
}
