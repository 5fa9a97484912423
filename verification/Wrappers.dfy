/** Option and Result in the shape every other module uses. */
module Wrappers {

  datatype Option<+T> = None | Some(value: T)

  /** `std::io::ErrorKind`, as far as the proxy tells kinds apart. */
  datatype IoKind =
    | UnexpectedEof
    | ConnectionReset
    | ConnectionAborted
    | BrokenPipe
    | NotConnected
    | TimedOut
    | ConnectionRefused
    | NetworkUnreachable
    | NetworkDown
    | HostUnreachable
    | AddrNotAvailable
    | InvalidInput
    | OtherKind

  /** Reply codes of section 6 of RFC 1928. */
  datatype ResponseCode =
    | Success
    | Failure
    | RuleFailure
    | NetUnreachable
    | HostNotReachable
    | Refused
    | TtlExpired
    | CommandNotSupported
    | AddrTypeNotSupported

  datatype MerinoError = Io(kind: IoKind) | Socks(code: ResponseCode)

  const TRUNCATED := Io(UnexpectedEof)

  datatype Result<+T> = Ok(value: T) | Err(error: MerinoError) {
    predicate IsFailure() {
      Err?
    }

    function PropagateFailure<U>(): Result<U>
      requires Err?
    {
      Err(error)
    }

    function Extract(): T
      requires Ok?
    {
      value
    }
  }
}
