/**
  The result types the stack traits speak in.
  - Option and Result stand for Rust's core types of the same names.
  - NbResult stands for `nb::Result<T, E>`, that is `Result<T, nb::Error<E>>`:
    an operation either completed (Ready), could not complete right now
    (WouldBlock, the caller retries), or failed (Other).
 */
module Results {

  datatype Option<+T> = None | Some(value: T)

  datatype Result<+T, +E> = Ok(value: T) | Err(error: E)

  datatype NbResult<+T, +E> = Ready(value: T) | WouldBlock | Other(error: E)
}
