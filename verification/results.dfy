/** The success-or-error value every fallible operation of the model returns,
    standing for a Python function that either returns or raises, and the
    optional value a dictionary lookup returns. */
module Results {

  datatype Result<+T, +E> = Ok(value: T) | Err(error: E)

  datatype Option<+T> = None | Some(value: T)
}
