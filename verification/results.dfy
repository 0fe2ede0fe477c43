/** Optional values and success-or-error results, for the source's `None` arguments and its raised errors. */
module Results {

  datatype Option<T> = None | Some(value: T)

  datatype Result<T, E> = Success(value: T) | Failure(error: E)
}
