/** Values shared by the whole model: optional values and the ways a run ends early. */
module Outcomes {

  /** A value that may be missing; a blank cell of an input table is `None`. */
  datatype Option<T> = None | Some(value: T)

  /** The exception or exit that stops the Python program. */
  datatype Fault =
    | MaxOfEmpty            // ValueError from max() over an empty column
    | ListsNotSameLength    // sys.exit(1) after "Lists are not the same length"
    | DivisionByZero        // ZeroDivisionError (or a non-finite float, see README)
    | IndexOutOfRange       // IndexError / KeyError on a list or column lookup
    | WrongColumnType       // AttributeError or TypeError from a column of the wrong kind

  datatype Result<T> = Ok(value: T) | Fail(fault: Fault)
}
