/** Small shared value types: an optional value and the opaque error that
    the store and the repository hand back to their callers. */
module Wrappers {

  datatype Option<+T> = None | Some(value: T)

  /** Go's `error`: only its presence matters to the rate-limit path, the
      message is carried along unchanged. */
  datatype Error = Error(message: string)
}
