/** Optional values and results with an error case, shared by the other modules. */
module Results {

  datatype Option<T> = None | Some(value: T)

  /** The outcome of an operation that the original program can abort by raising. */
  datatype Result<T, E> = Ok(value: T) | Err(error: E)
}
