/** Failure-compatible wrappers and the errors the pipeline raises instead of defaulting. */
module Results {

  /** A value that may be absent: a column not yet added, or a quotient that is not finite. */
  datatype Option<+T> = None | Some(value: T)

  /** The fatal errors of the modelled core. */
  datatype Error =
      /** A coded category is missing from its lookup table (a `KeyError`). */
    | UnknownCategoryCode(column: string, code: string)
      /** A calendar date whose midnight lies outside the nanosecond timestamp range. */
    | OutOfBoundsDatetime(year: int, month: int, day: int)

  /** Either the value a stage computes or the error it raises. */
  datatype Result<+T> = Ok(value: T) | Err(error: Error) {

    predicate IsFailure() {
      Err?
    }

    function PropagateFailure<U>(): Result<U>
      requires Err?
    {
      Err(error)
    }

    function Extract(): T
      requires Ok?
    {
      value
    }
  }
}
