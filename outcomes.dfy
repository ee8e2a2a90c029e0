/**
 * Optional values and the outcome of an operation that can raise one of the
 * Python exceptions the library lets escape.
 */
module Outcomes {

  datatype Option<T> = None | Some(value: T)

  /** The exceptions the modelled code can raise. */
  datatype Error =
    | IndexError      // indexing an empty list or string
    | TypeError       // `len()` of a number, `os.path.join()` with no argument, `os.path.exists(None)`
    | RuntimeError    // a dict that changed size while it was iterated
    | AttributeError  // `.strip()` of a value that is not a string

  datatype Result<T> = Ok(value: T) | Err(error: Error)
}
