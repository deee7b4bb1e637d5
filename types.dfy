/** Outcomes shared by every part of the model. */
module Types {

  /** Why probing a stream failed. The two parse errors are the library's
      own; the others stand for an error thrown by the byte source or for a
      Swift runtime trap, which the model turns into an ordinary failure. */
  datatype Failure =
    | EndOfStream       // the byte source could not serve a read or a skip
    | NoMatchingFormat  // no signature matched (the source force-unwraps nil here)
    | InvalidPNG        // ImageInfoParseError.invalidPNG
    | InvalidJPEG       // ImageInfoParseError.invalidJPEG
    | Overflow          // a fixed-width multiplication or addition that traps
    | MissingPalette    // `colors!` on nil: an indexed PNG whose PLTE never came

  datatype Option<+T> = None | Some(value: T)

  /** A value or the failure that stopped the computation. */
  datatype Result<+T> = Ok(value: T) | Err(failure: Failure) {
    predicate IsFailure() { Err? }

    function PropagateFailure<U>(): Result<U>
      requires Err?
    {
      Err(failure)
    }

    function Extract(): T
      requires Ok?
    {
      value
    }
  }

  /** A success or failure that carries no value (the result of a seek or skip). */
  datatype Status = Done | Failed(failure: Failure) {
    predicate IsFailure() { Failed? }

    function PropagateFailure<U>(): Result<U>
      requires Failed?
    {
      Err(failure)
    }
  }
}
