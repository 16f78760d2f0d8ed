/** Failure-aware return values shared by the model.
    `Option` stands for a Python value that may be `None`;
    `Result` stands for a computation that may raise. */
module Results {

  datatype Option<+T> = None | Some(value: T)

  datatype Result<+T, +E> = Ok(value: T) | Err(error: E)
}
