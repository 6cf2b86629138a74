/** Values shared by every part of the authentication protocol model:
    optional values, results, the error taxonomy, bytes, and the standard-library
    collaborators (base64 and IP literals) that the protocol engine calls but does
    not define. */
module Types {

  datatype Option<+T> = None | Some(value: T) {
    function GetOr(default: T): T {
      match this
      case Some(v) => v
      case None => default
    }
  }

  /** A Go `(value, error)` pair: either the value or the error that stopped the operation. */
  datatype Result<+T> = Success(value: T) | Failure(error: Error)

  /** The run-time panics the Go code can run into; the model turns each into an outcome. */
  datatype Panic = IndexOutOfRange | NilFunctionCall

  /** Every error the protocol engine can return, one constructor per distinct Go error. */
  datatype Error =
    | EOF                                                // io.EOF: the peer closed the stream cleanly
    | ReadFailed(reason: string)                         // the line scanner's own error
    | UnexpectedCommand(cmd: string)
    | NotEnoughParams(cmd: string, count: nat)
    | IncompatibleClientVersion(major: string, minor: string)
    | IncompatibleServerVersion(major: string, minor: string)
    | MissingParameter(cmd: string)                      // VERSION, SPID, CUID or COOKIE without a value
    | MissingMechanismName
    | NotEnoughRequestParams
    | MissingValue(key: string)                          // resp, lip, lport, rip or rport without '='
    | MalformedInitialResponse
    | MalformedAddress(key: string, value: string)
    | MalformedPort(key: string, value: string)
    | UnsupportedMechanism(name: string)
    | MissingReplyParams
    | RequestIdMismatch(sent: string, received: string)
    | MissingChallenge
    | MalformedChallenge
    | UnexpectedRequestId(id: string)
    | MalformedResponse
    | Panicked(kind: Panic)

  type Byte = b: int | 0 <= b < 256
  type Bytes = seq<Byte>

  /** The range of Go's uint16. */
  type Uint16 = n: int | 0 <= n < 65536

  /** The standard-library functions the engine calls and does not implement:
      base64.StdEncoding (RFC 4648 section 4) and net.ParseIP / net.IP.String.
      A net.IP is a byte slice. */
  datatype Externals = Externals(
    encodeBase64: Bytes -> string,
    decodeBase64: string -> Option<Bytes>,
    parseIP: string -> Option<Bytes>,
    formatIP: Bytes -> string)

  /** What the model relies on about the standard library: decoding undoes encoding,
      and the standard base64 alphabet has neither tab nor newline. */
  ghost predicate Sound(x: Externals) {
    && (forall b: Bytes :: x.decodeBase64(x.encodeBase64(b)) == Some(b))
    && (forall b: Bytes :: '\t' !in x.encodeBase64(b) && '\n' !in x.encodeBase64(b))
  }
}
