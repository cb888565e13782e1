/** Outcomes shared by the models: a Go `(value, error)` pair and an optional value. */
module Results {

  datatype Option<+T> = None | Some(value: T)

  datatype Result<+T, +E> = Ok(value: T) | Err(error: E)
}
