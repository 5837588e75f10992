/** Failure-carrying datatypes shared by every module of the model.

    Python reports failures by raising exceptions or calling `sys.exit`; the model
    returns them as values so that every error path of the source is a visible case.
 */
module Results {

  /** Python's `None` versus a present value. */
  datatype Option<+T> = None | Some(value: T)

  /** A mapping entry that may be absent, present but `None`, or present with a value. */
  datatype Entry<+T> = Missing | Null | Given(value: T)

  /** The exceptions and exits the modelled code can end in. */
  datatype Error =
    | KeyError(key: string)              // a mapping lookup on a missing key
    | ValueError(reason: string)         // e.g. `range()` with a zero step
    | AssertionFailed(what: string)      // an `assert` statement that does not hold
    | UnboundLocal(name: string)         // a local read before any assignment
    | ArgumentTypeError(reason: string)  // raised by argument checking
    | OverflowError(reason: string)      // a `timedelta` beyond its range of days
    | Exit(code: int, reason: string)    // `sys.exit(code)`

  datatype Result<+T> = Success(value: T) | Failure(error: Error) {
    predicate IsFailure() { Failure? }

    function PropagateFailure<U>(): Result<U>
      requires Failure?
    {
      Failure(error)
    }

    function Extract(): T
      requires Success?
    {
      value
    }
  }
}
