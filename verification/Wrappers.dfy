/** Result and option types shared by the model. */
module Wrappers {

  datatype Option<+T> = None | Some(value: T)

  /** A Go (value, error) pair: either a value or the error that replaced it. */
  datatype Result<+T> = Ok(value: T) | Err(error: Error)

  /** The errors of lib.go, rows.go and cell.go, by the message they carry. */
  datatype Error =
    | InvalidCellName(cell: string)
    | InvalidColumnName(name: string)
    | InvalidRowNumber(row: int)
    | InvalidColumnNumber(num: int)
    | InvalidCoordinates(col: int, row: int)
    | NotCoordinates(cell: string, cause: Error)
    | InvalidArea(ref: string)
    | InvalidLinkType(kind: string)
    | TooManyLinks

  /** How a call on a worksheet ended; a Go run-time panic is an ending of its own. */
  datatype Outcome = Done | Failed(error: Error) | Panicked
}
