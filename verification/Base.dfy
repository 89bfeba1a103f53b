/** Types shared by every component of the model. */
module Base {

  datatype Option<+T> = None | Some(value: T)

  datatype Result<+T, +E> = Ok(value: T) | Err(error: E)

  newtype byte = x: int | 0 <= x < 256

  type Bytes = seq<byte>

  /** A site tree as the server holds it: canonical relative path to file bytes. */
  type Files = map<string, Bytes>
}

