/** A success/failure wrapper for the operations whose Rust counterparts return
    `Result`: an I/O error propagated with `?`, or the length error of the
    checked bit collapse. */
module Results {

  datatype Result<+T, +E> = Success(value: T) | Failure(error: E)
}
