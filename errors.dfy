/** The two failure kinds of the puzzle solvers and the wrappers that carry them. */
module Errors {

  /** The program's own error enum: no combination matched, or a line did not parse. */
  datatype AocError = BadEntries | PasswordParsingError

  /** `Result<T>` of the program (an `anyhow::Result` that only ever holds an `AocError`). */
  datatype Result<+T> = Ok(value: T) | Err(error: AocError) {
    predicate IsFailure() { Err? }

    function PropagateFailure<U>(): Result<U>
      requires Err?
    {
      Err(error)
    }

    function Extract(): T
      requires Ok?
    {
      value
    }
  }

  /** The outcome of a parser: `None` stands for any parser error (its details are not modelled). */
  datatype Option<+T> = None | Some(value: T) {
    predicate IsFailure() { None? }

    function PropagateFailure<U>(): Option<U>
      requires None?
    {
      None
    }

    function Extract(): T
      requires Some?
    {
      value
    }
  }
}
