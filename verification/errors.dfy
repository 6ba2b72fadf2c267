/** The errors the library distinguishes between when it reports a failure. */
module Errors {

  /** A process's raw wait status: Go's `syscall.WaitStatus` is an unsigned 32-bit integer. */
  type WaitStatus = x: int | 0 <= x < 0x1_0000_0000

  datatype Error =
      /** `*exec.ExitError` whose system-dependent part is a `syscall.WaitStatus`. */
    | ExitError(status: WaitStatus)
      /** `*os.PathError` returned by `os.Stat` for the named path. */
    | PathError(path: string)
      /** An error built from a formatted message (`fmt.Errorf`). */
    | MessageError(message: string)
      /** Any other error, e.g. a program that cannot be started. */
    | OtherError(message: string)
}
