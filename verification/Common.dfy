/** Values shared by the host protocol and the builder. */
module Common {

  datatype Option<+T> = None | Some(value: T)

  const MAX_INT := 0x7fff_ffff_ffff_ffff

  /** Go's int and time.Duration on a 64-bit machine. */
  type Int64 = x: int | -MAX_INT - 1 <= x <= MAX_INT

  /** The result of Start, Stop or a startup task. `canceled` answers errors.Is(err, context.Canceled);
      a recovered panic is one more `Error`. */
  datatype Err = NoError | Error(tag: int, canceled: bool) {

    /** Neither nil nor context.Canceled: what stopAll reports as a failure during shutdown. */
    predicate Fails() {
      Error? && !canceled
    }
  }
}
