/** Outcomes of operations that can fail, in place of Java exceptions. */
module Results {

  datatype Result<+T, +E> = Success(value: T) | Failure(error: E)

  datatype Option<+T> = None | Some(value: T)
}
