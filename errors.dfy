/** Java exceptions raised by the modelled operations, and a result type that
    carries either the normal return value or the exception thrown. */
module JavaErrors {

  datatype Error =
    | IllegalState            // java.lang.IllegalStateException
    | NoSuchElement           // java.util.NoSuchElementException
    | IndexOutOfBounds        // java.lang.IndexOutOfBoundsException
    | ArrayIndexOutOfBounds   // java.lang.ArrayIndexOutOfBoundsException
    | StringIndexOutOfBounds  // java.lang.StringIndexOutOfBoundsException
    | NullPointer             // java.lang.NullPointerException

  datatype Result<T> = Ok(value: T) | Fail(error: Error)

  /** A reference that may be null, or a value that may be absent. */
  datatype Option<T> = None | Some(value: T)
}
