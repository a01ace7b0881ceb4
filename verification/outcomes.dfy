/** Failure-compatible wrappers for the exceptions the modelled Python code can raise. */
module Outcomes {

  /** `None` stands for Python's `None` (a missing lookup or an absent attribute). */
  datatype Option<+T> = None | Some(value: T)

  /** The exceptions the modelled code raises on some input. */
  datatype Fault =
    | IndexOutOfRange        // IndexError: a list or string index past its end
    | EmptyMaximum           // ValueError from `max([])`
    | UnknownDurationLetter  // the second-last letter of a course code is neither H nor Y

  /** A computation that either returns a value or raises a `Fault`. */
  datatype Result<+T> = Ok(value: T) | Err(fault: Fault) {

    predicate IsFailure() {
      Err?
    }

    function PropagateFailure<U>(): Result<U>
      requires Err?
    {
      Err(fault)
    }

    function Extract(): T
      requires Ok?
    {
      value
    }
  }
}
