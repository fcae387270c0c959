/** Option and Result values that stand for Python's None/NaN cells and
    for the exceptions and error returns of the upload and filter handlers. */
module Results {

  datatype Option<+T> = None | Some(value: T)

  datatype Result<+T, +E> = Ok(value: T) | Err(error: E)
}
