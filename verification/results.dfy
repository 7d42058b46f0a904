/** Failure-carrying wrappers shared by the model: the Go code signals
    absence with nil slices and errors with `error` values or `os.Exit`;
    here both become ordinary data. */
module Results {

  /** A value that may be absent (a Go function that returns nil). */
  datatype Option<+T> = None | Some(value: T) {

    /** The zero- or one-element sequence holding the value. */
    function ToSeq(): (s: seq<T>)
      ensures |s| <= 1
      ensures Some? <==> |s| == 1
      ensures Some? ==> s[0] == value
    {
      match this
      case None => []
      case Some(v) => [v]
    }
  }

  /** Either a value or an error (a Go `(T, error)` pair). */
  datatype Result<+T, +E> = Ok(value: T) | Err(error: E)
}
