/** Option and Result, and the exceptions the navigation-file merger can raise. */
module Wrappers {

  datatype Option<+T> = None | Some(value: T) {
    predicate IsFailure() { None? }

    function PropagateFailure<U>(): Option<U>
      requires None?
    {
      None
    }

    function Extract(): T
      requires Some?
    {
      value
    }
  }

  /** The Python exception classes the modelled code raises or lets escape. */
  datatype Error =
    | ValueError            // int(), float(), datetime(), strptime() or a field-count check refused its input
    | KeyError              // lookup of a missing dictionary key
    | IndexError            // indexing past the end of a list
    | TypeError             // item assignment on a value that is not a dictionary
    | AttributeError        // a string method called on a value that is not a string
    | NotImplementedError   // a RINEX 2 file type the reader does not handle
    | LookupError           // a RINEX version other than 2 or 3
    | InvalidFileNaming(name: string)
    | MissedCoefs           // a satellite/epoch record without a single coefficient

  datatype Result<+T> = Ok(value: T) | Err(error: Error) {
    predicate IsFailure() { Err? }

    function PropagateFailure<U>(): Result<U>
      requires Err?
    {
      Err(error)
    }

    function Extract(): T
      requires Ok?
    {
      value
    }
  }
}
