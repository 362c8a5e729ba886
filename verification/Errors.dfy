/** The error values of the engine and the result type of its fallible operations. `Panic` is not a value of the
    original: it stands for a call that does not return because it indexes out of bounds. */
module Errors {
  datatype Error =
    | ConvInconsistent(expected: int, found: int)
    | InvalidMtu(mtu: nat)
    | InvalidSegmentSize(size: nat)
    | InvalidSegmentDataSize(size: nat, remaining: nat)
    | IoError
    | NeedUpdate
    | RecvQueueEmpty
    | ExpectingFragment
    | UnsupportedCmd(cmd: int)
    | UserBufTooBig
    | UserBufTooSmall(size: nat)
    | BrokenPipe
    | Panic

  datatype Result<T> = Ok(value: T) | Err(error: Error)
}
