/** Option and Result values used for Python's `None` returns and raised exceptions. */
module Wrappers {

  datatype Option<+T> = None | Some(value: T)

  /** Why an operation of the file layer stopped: the two exceptions the modelled code can raise. */
  datatype Failure =
    | FileNotFound(path: string)  // FileNotFoundError from read_text_file
    | DateOverflow                // OverflowError from `date + timedelta` outside 0001-01-01 .. 9999-12-31

  datatype Result<+T> = Success(value: T) | Failed(failure: Failure)

  /** How an operation without a value ended: normally, or with a raised exception. */
  datatype Outcome = Done | Raised(failure: Failure)
}
