/** Optional values and fallible results, the two shapes Rust's `Option` and
    `Result` take throughout the fuzzer. */
module Results {

  datatype Option<+T> = None | Some(value: T)

  datatype Result<+T, +E> = Ok(value: T) | Err(error: E)
}
