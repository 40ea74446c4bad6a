/** Failure-carrying values used throughout the model: Java's `null` becomes `None`,
    and a thrown exception becomes `Failure`. */
module Results {

  datatype Option<+T> = None | Some(value: T)

  datatype Result<+T, +E> = Success(value: T) | Failure(error: E)
}
