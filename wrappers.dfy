/** Optional values, and the two exceptions the transcription code can raise. */
module Wrappers {

  datatype Option<+T> = None | Some(value: T)

  /** Why a run of the converter stops. In the Python code both are uncaught
      exceptions: `int(pair, 16)` raising ValueError on a pair that is not hex,
      and `runs[0]` raising IndexError when a paragraph created from an empty
      text (so without runs) is given a colour. */
  datatype Failure =
    | InvalidHexDigits(pair: string)
    | NoRunToColour

  datatype Result<+T> = Ok(value: T) | Err(failure: Failure)
}
