/** Failure-compatible wrappers for the exceptions the Python helpers raise. */
module Results {

  /** The Python exception classes the modelled code can raise. */
  datatype Error =
    | IndexError   // a list subscript out of range
    | ValueError   // int()/float() on a malformed token, or a tuple unpack of the wrong length
    | KeyError     // a dictionary lookup of a missing key
    | TypeError    // a list subscripted with None

  datatype Option<+T> = None | Some(value: T)

  /** Either the value a Python call returns or the exception it raises. */
  datatype Result<+T> = Ok(value: T) | Err(error: Error) {

    predicate IsFailure() {
      Err?
    }

    function PropagateFailure<U>(): Result<U>
      requires Err?
    {
      Err(error)
    }

    function Extract(): T
      requires Ok?
    {
      value
    }
  }
}
