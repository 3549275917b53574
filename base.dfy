/** Small wrappers shared by every module of the model. */
module Base {

  /** A value that may be missing: JavaScript's `null`/`undefined` result. */
  datatype Option<+T> = None | Some(value: T)

  /** The outcome of an awaited call that may throw. */
  datatype Result<+T, +E> = Ok(value: T) | Err(error: E)

  /** One property of a payload object: `Absent` when the object has no own
      property of that name (`hasOwnProperty` is false), `Present(v)` otherwise.
      Keeps "key missing" apart from "key holding null/undefined". */
  datatype Key<+T> = Absent | Present(value: T)

  /** The element at index i, or None past the end. */
  function At<T>(s: seq<Option<T>>, i: nat): Option<T>
  {
    if i < |s| then s[i] else None
  }
}
