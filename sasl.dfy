/** The SASL mechanism implementations the engine drives (the sasl.Client and
    sasl.Server interfaces of go-sasl). They are not part of this model: each is
    represented by what its calls return. A provider keeps state between calls,
    so a call's result is given as a function of every input it has received so
    far, the current one last. */
module Sasl {
  import opened Types
  import opened Auth

  /** A client mechanism: Start's result (the mechanism name and the initial
      response, None for Go's nil) and Next's answer to the challenges seen so far. */
  datatype ClientMech = ClientMech(
    start: Result<(string, Option<Bytes>)>,
    next: seq<Bytes> -> Result<Bytes>)

  /** What one call of a server mechanism's Next returns: the challenge, whether
      the exchange is over, and whether it reported an error. */
  datatype ServerStep = ServerStep(challenge: Bytes, done: bool, failed: bool)

  /** A server mechanism's Next, given every response it has received so far
      (None for Go's nil). */
  type ServerMech = seq<Option<Bytes>> -> ServerStep

  /** What a registered mechanism handler makes of a parsed request. */
  type Handler = AuthReq -> ServerMech
}
