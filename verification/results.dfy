/** Failure-carrying values used across the wiki model: Go's `(value, error)`
    pairs become `Result`, and a nil-able value becomes `Option`. */
module Results {

  datatype Option<+T> = None | Some(value: T)

  datatype Result<+R, +E> = Success(value: R) | Failure(error: E)
}
