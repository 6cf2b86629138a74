# Dovecot authentication protocol engine, modelled in Dafny

This project models the engine of go-dovecot-sasl, a Go implementation of both
ends of Dovecot's authentication wire protocol. The model covers:

- **Line codec** (`conn.dfy`). One message is a command and its parameters,
  separated by tabs and ended by a newline. Writeln, Readln and ReadlnExpect run
  over a `Connection` object. Its `input` field holds the lines the scanner will
  still deliver, `readErr` is the scanner's error after the last line (none means
  a clean end of stream), and `out` holds every byte written.
- **Mechanism catalog codec** (`handshake.dfy`): parseMech and Mechanism.format.
- **Handshakes** (`handshake.dfy`, `conn_handshake.dfy`). Both roles of
  handshake.go are modelled, plus the second declaration of the server role in
  conn.go, which writes DONE only after reading the client's VERSION and CPID.
- **FAIL reply codec**. `fail_options.dfy` holds the vocabulary both
  declarations share. `auth.dfy` models auth.go, whose first parameter is the
  request id. `auth_fail.dfy` models auth_fail.go, where every parameter is an
  option. The two files declare the same Go names, so each is its own module,
  and a lemma relates the two.
- **AUTH request parser** (`auth.dfy`): parseAuthReq.
- **Client driver** (`client.dfy`): Client.Do with its request-id counter, and
  the LocalIP, LocalPort, RemoteIP and RemotePort helpers.
- **Server dispatcher** (`server.dfy`): the mechanism registry
  (AddMechanism) and handleAuth.

Each imperative Go routine becomes a Dafny method on the connection. Its
contract ties the new `input` and `out` to a pure function of the old input, for
example `Handle`, `Dialogue`, `Negotiate` or `ExpectClientGreeting`. The
properties are then proved about those functions.

A Go panic is an explicit outcome, `Failure(Panicked(...))`. Two panics are
modelled this way:

- a bare `service` option, which indexes past the split at auth.go:125;
- a one-parameter VERSION whose major is not 1, which reads `params[1]` at
  handshake.go:164.

The code does not return after writing FAIL for an unregistered mechanism. It
then calls the nil handler at server.go:95. Both steps are modelled.

Mechanism.format advertises the private flag with the literal `mutual-auth`
(handshake.go:72-74). The model follows the code. The catalog round trip
(`Handshake.FormatRoundTrip`) therefore states that a private mechanism comes
back as mutual-auth.

## Model

| member | source | states |
|---|---|---|
| Strings.Split | conn.go:53 | strings.Split: at least one part, and no part holds the separator |
| Strings.JoinSplit | conn.go:53 | joining the parts of a split with the separator gives back the text |
| Strings.SplitJoin | conn.go:53 | splitting parts joined by a separator they do not hold gives back the parts |
| Strings.SplitAtFirst | conn.go:53 | text before the first separator is the first part, and the rest splits on its own |
| Strings.SplitOnce | auth.go:113 | strings.SplitN(s, "=", 2) gives one or two parts |
| Strings.SplitOnceParts | auth.go:113 | the key holds no '='; one part exactly when there is no '='; otherwise key, '=', value rebuild the text |
| Strings.SplitOnceJoined | auth.go:113 | `key=value` splits into key and value whatever the value holds, provided the key has no '=' |
| Strings.Itoa | client.go:78 | strconv.Itoa: non-empty decimal digits, no leading zero, with value n |
| Strings.ParseUint16 | auth.go:146-150 | strconv.ParseUint(s, 10, 16) refuses exactly the empty text, text with a non-digit and values above 65535; otherwise it gives the decimal value |
| Strings.ParseUint16Itoa | auth.go:146-150 | the decimal form of a number is read back as that number when it fits 16 bits, and refused otherwise |
| Strings.ParseUint16LeadingZero | auth.go:146-150 | a leading zero does not change what the port parser reads |
| Conn.Name | conn.go:62 | each command's wire name is recognised as that command |
| Conn.CommandOfName | conn.go:62 | a received command field names a command exactly when it is that command's name (exact match) |
| Conn.SplitLine | conn.go:53-54 | Readln's split: no tab in the command or in any parameter; no parameters exactly when the line has no tab |
| Conn.SplitLineJoin | conn.go:53-54 | the received line is the command and the parameters joined with tabs |
| Conn.FramesAppend | conn.go:21-43 | writing two batches of messages emits the frames of the first, then of the second |
| Conn.FrameSingleLine | conn.go:21-43 | a message with no tab or newline in its fields is framed as exactly one newline-terminated line |
| Conn.BodyRoundTrip | conn.go:21-55 | Readln gives back the command and parameters Writeln sent; with no parameters it sees one empty parameter, because of the trailing tab |
| Conn.EndOfInput | conn.go:46-50 | at the end of the stream Readln returns the scanner's error, or io.EOF when there is none |
| Conn.Expect | conn.go:62-69 | ReadlnExpect accepts exactly the expected command with enough parameters, returns them unchanged, and otherwise names the command or the count |
| Conn.ExpectNext | conn.go:57-70 | ReadlnExpect on the pending input: a read error first, then the check of the line |
| Conn.Parse | conn.go:45-55 | the received lines as messages, one per line: message i is Readln's split of line i |
| Conn.Connection.Writeln | conn.go:21-43 | appends the command, a tab, the tab-separated parameters and a newline to the output, and nothing else changes |
| Conn.Connection.Readln | conn.go:45-55 | consumes one line and returns its split, or the end-of-stream error and consumes nothing |
| Conn.Connection.ReadlnExpect | conn.go:57-70 | consumes one line and checks its command and parameter count |
| Handshake.Literal | handshake.go:29-43 | every capability literal is recognised by parseMech's switch as that capability |
| Handshake.CapabilityOfLiteral | handshake.go:29-43 | a token names a capability exactly when it is that capability's literal |
| Handshake.With | handshake.go:30-43 | setting one flag leaves the six others unchanged |
| Handshake.WithTokens | handshake.go:28-46 | parseMech's loop sets a flag exactly when some token names it; order, repeats and unknown tokens do not matter |
| Handshake.ParseMech | handshake.go:22-49 | fails exactly on an empty list; otherwise the name is the first parameter, and each flag is set exactly when a later parameter is its literal |
| Handshake.ParseMechIgnoresUnknown | handshake.go:45 | an unknown capability token changes nothing |
| Handshake.Format | handshake.go:51-76 | Mechanism.format: the name first, then one token per set flag |
| Handshake.FormatMentions | handshake.go:51-76 | the catalog entry names exactly the set capabilities, with private shown as mutual-auth |
| Handshake.FormatShape | handshake.go:51-76 | "private" is never emitted, not even for a private mechanism |
| Handshake.FormatRoundTrip | handshake.go:22-76 | parseMech of format gives back the name and flags, with private turned into mutual-auth |
| Handshake.FormatRoundTripPublic | handshake.go:22-76 | without the private flag, the catalog codec is an exact round trip |
| Handshake.Hex | handshake.go:108 | hex.EncodeToString emits two characters per byte |
| Handshake.HexDigits | handshake.go:108 | byte i becomes characters 2i and 2i+1: its high and low nibble in lower-case hex |
| Handshake.HexNoFraming | handshake.go:108-110 | the cookie holds no tab or newline, so it travels as one parameter |
| Handshake.CookieLength | handshake.go:104-108 | a cookie made from 16 bytes is 32 characters |
| Handshake.WriteMechs | handshake.go:114-118 | writes one MECH message per catalog entry, each exactly once, in an unspecified order |
| Handshake.WriteGreeting | handshake.go:94-112 | writes VERSION 1 1, SPID, CUID and COOKIE, in that order |
| Handshake.WriteAdvertisement | handshake.go:94-118 | the greeting followed by the catalog |
| Handshake.ExpectClientGreeting | handshake.go:124-136 | reads at most the lines there are |
| Handshake.ExpectClientGreetingAccepts | handshake.go:124-136 | the server accepts exactly VERSION with major 1 and at least two parameters, then CPID with at least one; the pid is CPID's first parameter and two lines are read |
| Handshake.ExpectClientGreetingRejectsVersion | handshake.go:128-130 | another major version is refused, naming both numbers |
| Handshake.HandshakeServer | handshake.go:87-139 | writes greeting, catalog and DONE before reading anything; the result and the lines read are those of the client's greeting |
| Handshake.ReadClientGreeting | handshake.go:124-136 | reads VERSION and CPID as ExpectClientGreeting says |
| Handshake.ClientStep | handshake.go:156-187 | a message never changes the client's own pid; an accepted SPID, CUID or COOKIE stores its first parameter as that identifier, and any other accepted message leaves the identifier alone |
| Handshake.ClientStepRefuses | handshake.go:159-186 | a message is refused exactly when it is VERSION with no parameter or a major other than 1, or MECH, SPID, CUID or COOKIE without a parameter |
| Handshake.ClientStepKeepsMech | handshake.go:166-171 | a MECH for a name sets that entry to the parsed flags; any other message leaves it alone |
| Handshake.Negotiate | handshake.go:147-188 | uses at most the messages there are |
| Handshake.DoneAt | handshake.go:152 | the position of the first DONE |
| Handshake.NegotiateSucceeds | handshake.go:147-188 | the client handshake succeeds exactly when DONE arrives and no earlier message is refused; it then has read through DONE |
| Handshake.NegotiateRejectsVersion | handshake.go:159-165 | a server VERSION with a major other than 1 fails the handshake |
| Handshake.NegotiateKeepsMech | handshake.go:166-171 | without a MECH for a name, the catalog entry for it stays as it was |
| Handshake.NegotiateLastMechWins | handshake.go:166-171 | the last MECH for a name before DONE is the one kept |
| Handshake.ClientStepId | handshake.go:172-186 | an accepted SPID, CUID or COOKIE sets its identifier to its first parameter; any other accepted message leaves it alone |
| Handshake.NegotiateKeepsId | handshake.go:141-187 | without SPID, CUID or COOKIE before DONE, that identifier keeps its starting value (empty for the client) |
| Handshake.NegotiateLastIdWins | handshake.go:172-186 | the first parameter of the last SPID, CUID or COOKIE before DONE is the identifier the client ends with |
| Handshake.NegotiateIgnoresOther | handshake.go:156-187 | a message with any other command is skipped |
| Handshake.WriteClientGreeting | handshake.go:190-195 | writes VERSION 1 1 and then CPID |
| Handshake.ClientGreetingAccepted | handshake.go:124-136 | the server accepts the lines the client writes after DONE and takes the client's pid from them |
| Handshake.GreetingParsed | handshake.go:94-112 | the client reads the server's greeting back as VERSION 1 1, SPID, CUID and COOKIE, and DONE with one empty parameter |
| Handshake.ServerGreetingNegotiated | handshake.go:141-187 | the client accepts the server's greeting followed by DONE, reads five lines, and ends with the server's pid, connection id and cookie |
| Handshake.HandshakeClient | handshake.go:141-198 | reads up to DONE as Negotiate says; writes VERSION and CPID only on success and nothing otherwise |
| ConnHandshake.HandshakeServer | conn.go:72-120 | writes greeting and catalog, reads the client's greeting, and writes DONE only when that greeting was accepted |
| FailOptions.BareKeysSkipped | auth.go:44-55 | a bare "reason" or "code" sets nothing |
| FailOptions.Kept | auth.go:74-78 | what format lets through of a field: the field itself when it holds no tab or newline, and nothing otherwise |
| FailOptions.Options | auth.go:74-79 | format emits at most the reason and the code options |
| FailOptions.SetsOption | auth.go:42-55 | a reason= or code= token sets its own field to the value and leaves the other alone |
| AuthFailLegacy.ApplyOption | auth_fail.go:32-56 | a token sets a field to the value it names (the legacy temp, authz, user_disabled and pass_expired tokens to their codes), and leaves every other field unchanged |
| AuthFailLegacy.ApplyOptions | auth_fail.go:31-57 | after the loop, each field holds the value of the last token that sets it, or its old value when none does |
| AuthFailLegacy.ParseFail | auth_fail.go:29-59 | parseFail: each field is the value of the last token that sets it, and empty when none does |
| AuthFailLegacy.Untouched | auth_fail.go:29-59 | a field that no token sets keeps its value |
| AuthFailLegacy.LastWins | auth_fail.go:29-59 | a field ends with the value of the last token that sets it |
| AuthFailLegacy.Format | auth_fail.go:61-70 | at most two options |
| AuthFailLegacy.RoundTrip | auth_fail.go:29-70 | parseFail(format(af)) gives back each sendable field, and an empty one otherwise |
| AuthFailLegacy.RoundTripClean | auth_fail.go:29-70 | without tab or newline in either field, the codec is an exact round trip |
| Auth.ApplyOption | auth.go:42-66 | an option sets code or reason to the value it names, leaves the other field unchanged, and never changes the request id |
| Auth.ApplyOptions | auth.go:41-67 | after the loop, code and reason hold the value of the last option that sets them, or their old value, and the request id is unchanged |
| Auth.ParseFail | auth.go:33-69 | parseFail: the zero value for no parameters; otherwise the request id is the first parameter, and code and reason are the values of the last options among the rest that set them, or empty |
| Auth.ApplyOptionLegacy | auth.go:42-66 | an option changes code and reason as in auth_fail.go, and never the request id |
| Auth.ApplyOptionsLegacy | auth.go:41-67 | the options loop is auth_fail.go's loop with the request id carried along |
| Auth.ParseFailShape | auth.go:33-69 | no parameters give the zero value; otherwise the first parameter is the request id and is never read as an option |
| Auth.LastWins | auth.go:41-67 | code and reason end with the value of the last option that sets them |
| Auth.Untouched | auth.go:41-67 | a field that no option sets stays empty |
| Auth.Format | auth.go:71-81 | one to three parameters, the request id first |
| Auth.FormatLegacy | auth.go:71-81 | format is the request id followed by auth_fail.go's format |
| Auth.RoundTrip | auth.go:33-81 | parseFail(format(af)) keeps the request id and each sendable field, and empties the others |
| Auth.RoundTripClean | auth.go:33-81 | without tab or newline in code and reason, the codec is an exact round trip |
| Auth.ApplyKey | auth.go:115-167 | a flag case always succeeds and sets its flag; service with a value sets the service; resp, lip, lport, rip and rport without a value fail with a missing-value error; no case changes the request id or the mechanism |
| Auth.ApplyReqOption | auth.go:113-168 | one option fails exactly when it is one of the refused options (a missing or malformed value, or a bare service), and never changes the request id or the mechanism |
| Auth.BareOption | auth.go:115-167 | an option without '=': resp, lip, lport, rip and rport fail with a missing-value error naming the key, a bare service panics, and a flag or an unknown key is accepted |
| Auth.RespOption | auth.go:115-123 | resp=v fails exactly when v is not base64, with the malformed-initial-response error; otherwise the decoded bytes become the initial response |
| Auth.ServiceOption | auth.go:124-125 | service=v is never refused and sets the service to v |
| Auth.FlagOption | auth.go:126-133 | secured, valid-client-cert, no-penalty and cert_username are never refused, with or without a value, and set their flag to true |
| Auth.AddressOption | auth.go:134-158 | lip=v and rip=v fail exactly when ParseIP gives nothing, with an error naming key and value; otherwise the address is stored |
| Auth.PortOption | auth.go:142-167 | lport=v and rport=v fail exactly when v is not a 16-bit decimal, with an error naming key and value; otherwise the port is stored |
| Auth.UnknownOption | auth.go:114 | an option whose key the switch does not know is skipped |
| Auth.ApplyKeyEffect | auth.go:115-167 | each case fails or not whatever the request held, writes only its own field, and sets flags only to true |
| Auth.ApplyReqOptionFails | auth.go:113-168 | whether an option is rejected, and with which error, depends on the option alone |
| Auth.ApplyReqOptionFrame | auth.go:113-168 | an accepted option changes only its key's field, never the request id or the mechanism |
| Auth.ApplyReqOptionSets | auth.go:113-168 | an accepted option sets its field the same way whatever the request held |
| Auth.ApplyReqOptions | auth.go:112-169 | the loop keeps the request id and the mechanism, and succeeds when no option is refused |
| Auth.ParseAuthReq | auth.go:102-172 | fewer than three parameters fail; the request id and the mechanism are the first two parameters; a request none of whose options is refused is accepted |
| Auth.ParseAuthReqSingle | auth.go:102-172 | a request with one option is that option applied to the blank request |
| Auth.ApplyReqOptionsAccepts | auth.go:112-169 | the loop succeeds exactly when no option is rejected, and keeps the request id and the mechanism |
| Auth.ApplyReqOptionsFirstRejection | auth.go:112-169 | the loop stops with the error of the first rejected option |
| Auth.ApplyReqOptionsUntouched | auth.go:112-169 | a field no option names keeps its value |
| Auth.ApplyReqOptionsLastWins | auth.go:112-169 | a field ends as the last option naming it sets it |
| Auth.ApplyReqOptionsFlag | auth.go:126-133 | a flag is set exactly when it was set already or some option names it |
| Auth.ParseAuthReqAccepts | auth.go:102-172 | fewer than three parameters fail; otherwise success exactly when no option is refused (missing value, bare service, bad base64, bad address, port not a 16-bit decimal), with the request id and the mechanism from the first two parameters |
| Auth.ParseAuthReqFirstRejection | auth.go:112-169 | a rejected request fails with the error of its first rejected option |
| Auth.ParseAuthReqLastWins | auth.go:112-169 | last one wins for every field |
| Auth.ParseAuthReqUntouched | auth.go:107-110 | a field no option names keeps its zero value |
| Auth.ParseAuthReqFlag | auth.go:126-133 | secured, valid-client-cert, no-penalty and cert_username are set exactly when an option names them |
| Auth.BareServicePanics | auth.go:124-125 | a bare "service" option indexes past the split and panics |
| AuthServer.Sent | server.go:100-115 | after one Next: FAIL first exactly when Next failed, then OK when done and otherwise CONT, every line carrying the request id |
| AuthServer.Response | server.go:117-127 | reads at most one line, and exactly one when the answer is accepted |
| AuthServer.ResponseAccepts | server.go:117-127 | an answer is accepted exactly when it is CONT with at least two parameters, the request id first and valid base64 second, and then yields the decoded response; an answer with another request id is refused naming that id |
| AuthServer.Converse | server.go:97-130 | uses at most the lines there are |
| AuthServer.Request | server.go:74-82 | reads at most one line, and exactly one on success |
| AuthServer.Handle | server.go:73-131 | uses at most the lines there are |
| AuthServer.Server.constructor | server.go:23-29 | both registries start empty |
| AuthServer.Server.AddMechanism | server.go:31-34 | stores the info and the handler under the name in both maps, replacing the old entry, leaving other names alone, and keeping both maps over the same names |
| AuthServer.Server.HandleAuth | server.go:73-131 | result, lines read and lines written are those of Handle over the registered handlers |
| AuthServer.ReadRequest | server.go:74-82 | reads the AUTH line and parses it as Request says |
| AuthServer.WriteStep | server.go:100-115 | writes FAIL when Next failed, then OK when done, otherwise CONT with the challenge |
| AuthServer.ReadResponse | server.go:117-127 | reads the client's answer as Response says |
| AuthServer.Round | server.go:99-128 | one pass of the loop either ends the exchange as Converse says, or reads one line and continues with one more response |
| AuthServer.Pass | server.go:99-128 | the same pass inside the loop: the outcome of the whole exchange is what earlier passes and this one wrote and read, followed by the outcome of what remains |
| AuthServer.RunMechanism | server.go:97-130 | the loop's result, lines read and lines written are those of Converse from the initial response |
| AuthServer.SentTagged | server.go:100-130 | after one Next: every line carries the request id; OK comes last exactly when done; FAIL comes first exactly when Next failed |
| AuthServer.RepliesAppend | server.go:99-130 | a run of replies not ending in OK, followed by more replies, is a run of replies |
| AuthServer.ConverseWrites | server.go:97-130 | every line written is FAIL, CONT or OK with the request id; nothing follows OK; the exchange succeeds exactly when the last line is OK with the request id |
| AuthServer.ConverseFailed | server.go:100-113 | a failed Next writes FAIL and does not leave the loop: if also done, OK follows and the exchange succeeds; otherwise the challenge is sent and the exchange goes on |
| AuthServer.RequestAccepts | server.go:74-82 | the request is accepted exactly when the first line is AUTH and parseAuthReq accepts its parameters |
| AuthServer.HandleWrites | server.go:73-131 | a refused request writes nothing; an unregistered mechanism writes FAIL "unsupported mechanism" and then panics; otherwise every line carries the request id and OK comes last exactly on success |
| AuthServer.HandleFirstCall | server.go:95-112 | the first Next gets the request's initial response, and handleAuth's first replies are what its result calls for; when it is done at once, handleAuth answers without reading more |
| AuthClient.KeyValue | client.go:39-54 | a `key=value` option splits back into key and value, and is classified by its key |
| AuthClient.LocalIP | client.go:38-40 | a lip option carrying the address text |
| AuthClient.LocalPort | client.go:43-45 | an lport option carrying the decimal port |
| AuthClient.RemoteIP | client.go:48-50 | a rip option carrying the address text |
| AuthClient.RemotePort | client.go:53-55 | an rport option carrying the decimal port |
| AuthClient.PortRoundTrip | client.go:43-55 | parseAuthReq reads the lport and rport options back as the same port |
| AuthClient.AddressRoundTrip | client.go:38-50 | parseAuthReq reads the lip and rip options back as whatever ParseIP makes of the address text, or rejects them |
| AuthClient.RespParam | client.go:83-85 | the resp option is present exactly when there is an initial response |
| AuthClient.AuthParams | client.go:80-86 | the request id, the mechanism, service=, the extra options in order, then resp= when there is an initial response |
| AuthClient.AuthParamsParsed | client.go:80-86 | parseAuthReq recovers the request id, mechanism, service and initial response from these parameters, provided the extra options are accepted and name neither service nor resp |
| AuthClient.AuthLineCrosses | client.go:87 | with no tab or newline in the fields, the AUTH line reaches the server's parser unchanged |
| AuthClient.React | client.go:92-123 | a reply without parameters or with another request id ends the exchange as broken, naming both ids; only a reply with our request id continues, accepts or refuses |
| AuthClient.ReactOutcomes | client.go:92-123 | a reply continues, accepts or refuses only when its first parameter is the request id; then OK accepts, FAIL refuses with parseFail's reading of it, CONT answers Next's response to its decoded challenge, and any other command is skipped |
| AuthClient.Dialogue | client.go:91-124 | uses at most the lines there are |
| AuthClient.DialogueWrites | client.go:117 | every reply the client writes is CONT with the request id and one response |
| AuthClient.DialogueDecided | client.go:99-122 | the exchange is accepted only on OK and refused only on FAIL, both carrying the request id; a refusal is parseFail of that line and carries our request id |
| AuthClient.Step | client.go:92-123 | one pass of the loop either ends the exchange as Dialogue says, or reads one line and continues |
| AuthClient.Turn | client.go:92-123 | the same pass inside the loop: the whole exchange is what earlier passes and this one wrote and read, followed by the exchange that remains |
| AuthClient.Talk | client.go:91-124 | the loop's result, lines read and lines written are those of Dialogue |
| AuthClient.Authenticate | client.go:87-124 | writes the AUTH line, then runs the exchange |
| AuthClient.Client.constructor | client.go:19-35 | a new client has sent no request yet |
| AuthClient.Client.Do | client.go:68-125 | a failed Start or an unadvertised mechanism returns an error, sends nothing and keeps the counter; otherwise the counter goes up by one, its decimal form is the request id of the AUTH line, and the exchange runs as Dialogue says |

## Left out

- Write and flush errors: writes never fail in the model, so the Go error returns after each Writeln are not modelled.
- The bufio.Scanner internals are not modelled: its 64 KiB token limit and its stripping of a trailing '\r'. A connection is the sequence of lines the scanner delivers, followed by its error.
- Server.Serve, handleConn, Server.Close, NewClient, Client.Close, conn.Close and Client.ConnInfo are not modelled. They are accept loops, goroutines, logging and closing, with no protocol logic. The handshake they call is modelled.
- AuthFail.Error is not modelled. It only formats a message.
- os.Getpid and the 16 cookie bytes from crypto/rand are inputs, and the error of reading random bytes is not modelled.
- base64.StdEncoding and net.ParseIP / net.IP.String are the function fields of `Types.Externals`. Where a proof needs it, `Types.Sound` is required: decoding undoes encoding, and encoded text has no tab or newline.
- The go-sasl mechanisms are not modelled. A client mechanism is its Start result and a function from the challenges so far to Next's answer. A server mechanism is a function from the responses so far to Next's result.
- Handshake.ServerGreetingNegotiated: the server-to-client lemma covers the greeting and DONE without MECH lines between them. The catalog side rests on Handshake.FormatRoundTrip and Handshake.NegotiateLastMechWins.
- Handshake.WriteMechs: Go's map iteration order is an arbitrary choice in the model, and the order used is a ghost output.
- AuthClient.Client.Do: the request-id counter is an unbounded natural, so the wrap-around of Go's int after 2^63-1 requests is not modelled.
- Handshake.HandshakeServer, ConnHandshake.HandshakeServer and Handshake.HandshakeClient return no ConnInfo on error, while Go also returns the partly filled info (handshake.go:150-186 on the client side).
- The call at server.go:56 passes one argument to a two-argument handshakeServer and does not compile. It is not modelled; both handshakeServer declarations are modelled as written.
- A handler registered as nil cannot be expressed. A registered handler is always a function, and only a missing name leads to the nil call.
- Client.Do's flag constants (client.go:59-64) are the same literals that parseAuthReq's switch recognises (`Auth.ReqKeyOf`). They are not declared separately.
- self_test.go is not modelled. It is an end-to-end test with PLAIN, which needs a real mechanism.
