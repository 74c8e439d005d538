/** The two failure-carrying shapes the types below return: Rust's `Option<T>`
    and `Result<T, &'static str>`, whose error is a fixed message. */
module Results {

  datatype Option<T> = None | Some(value: T)

  datatype Result<T> = Ok(value: T) | Err(error: string)
}
