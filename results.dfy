/** Optional values and results with an error, used for the paths where the
    C++ code reads or erases outside a vector or never returns. */
module Results {
  datatype Option<T> = None | Some(value: T)

  datatype Result<T, E> = Ok(value: T) | Err(error: E)
}
