/** Failure-carrying results shared by every part of the model. */
module Wrappers {

  datatype Option<+T> = None | Some(value: T)

  /**
   * The outcome of a fallible operation of the front end.
   *  - `Ok` is a successful value;
   *  - `Err` is an `anyhow` error returned through `?`, carrying its display text;
   *  - `Panic` is a string-slicing panic of the Rust code (a slice whose end precedes its start),
   *    carrying the text that was being sliced. A panic aborts the whole call exactly like an
   *    error does, so the model propagates it the same way.
   */
  datatype Result<+T> = Ok(value: T) | Err(message: string) | Panic(at: string)
}
