/** client.go: the option helpers for AUTH requests and the client's side of one
    authentication exchange, numbered by the client's request counter. */
module AuthClient {
  import opened Types
  import opened Strings
  import opened Conn
  import opened Handshake
  import opened Auth
  import opened Sasl
  import AuthServer

  // ---------------------------------------------------------------------------
  // Parameters of an AUTH request

  /** The option `key=value`; it splits at the '=' after the key, whatever the value holds. */
  function KeyValue(key: string, value: string): (p: string)
    requires '=' !in key
    ensures SplitOnce(p, '=') == [key, value]
    ensures KeyOf(p) == ReqKeyOf(key)
  {
    SplitOnceJoined(key, value, '=');
    key + ['='] + value
  }

  /** LocalIP: the lip option for an address, in the form net.IP.String gives. */
  function LocalIP(x: Externals, ip: Bytes): (p: string)
    ensures SplitOnce(p, '=') == ["lip", x.formatIP(ip)] && KeyOf(p) == Some(Lip)
  {
    KeyValue("lip", x.formatIP(ip))
  }

  /** LocalPort: the lport option for a port, in decimal. */
  function LocalPort(n: Uint16): (p: string)
    ensures SplitOnce(p, '=') == ["lport", Itoa(n)] && KeyOf(p) == Some(Lport)
  {
    KeyValue("lport", Itoa(n))
  }

  /** RemoteIP: the rip option for an address, in the form net.IP.String gives. */
  function RemoteIP(x: Externals, ip: Bytes): (p: string)
    ensures SplitOnce(p, '=') == ["rip", x.formatIP(ip)] && KeyOf(p) == Some(Rip)
  {
    KeyValue("rip", x.formatIP(ip))
  }

  /** RemotePort: the rport option for a port, in decimal. */
  function RemotePort(n: Uint16): (p: string)
    ensures SplitOnce(p, '=') == ["rport", Itoa(n)] && KeyOf(p) == Some(Rport)
  {
    KeyValue("rport", Itoa(n))
  }

  /** The port options are read back by parseAuthReq as the same port. */
  lemma PortRoundTrip(x: Externals, rid: string, mech: string, n: Uint16)
    ensures ParseAuthReq(x, [rid, mech, LocalPort(n)]) == Success(Blank(rid, mech).(localPort := n))
    ensures ParseAuthReq(x, [rid, mech, RemotePort(n)]) == Success(Blank(rid, mech).(remotePort := n))
  {
    ParseUint16Itoa(n);
    ParseAuthReqSingle(x, rid, mech, LocalPort(n));
    ParseAuthReqSingle(x, rid, mech, RemotePort(n));
  }

  /** The address options are read back by parseAuthReq as whatever net.ParseIP
      makes of the address's text, and rejected when it makes nothing of it. */
  lemma AddressRoundTrip(x: Externals, rid: string, mech: string, ip: Bytes)
    ensures ParseAuthReq(x, [rid, mech, LocalIP(x, ip)]) ==
      match x.parseIP(x.formatIP(ip))
      case Some(a) => Success(Blank(rid, mech).(localIP := Some(a)))
      case None => Failure(MalformedAddress("lip", x.formatIP(ip)))
    ensures ParseAuthReq(x, [rid, mech, RemoteIP(x, ip)]) ==
      match x.parseIP(x.formatIP(ip))
      case Some(a) => Success(Blank(rid, mech).(remoteIP := Some(a)))
      case None => Failure(MalformedAddress("rip", x.formatIP(ip)))
  {
    ParseAuthReqSingle(x, rid, mech, LocalIP(x, ip));
    ParseAuthReqSingle(x, rid, mech, RemoteIP(x, ip));
  }

  /** The initial-response option, when there is an initial response. */
  function RespParam(x: Externals, ir: Option<Bytes>): (ps: seq<string>)
    ensures |ps| <= 1
    ensures ir.Some? <==> |ps| == 1
    ensures ir.Some? ==> SplitOnce(ps[0], '=') == ["resp", x.encodeBase64(ir.value)] && KeyOf(ps[0]) == Some(Resp)
  {
    match ir
    case None => []
    case Some(b) =>
      [KeyValue("resp", x.encodeBase64(b))]
  }

  /** The parameters of the AUTH line Do sends: the request id, the mechanism,
      the service, the caller's extra options, then the initial response. */
  function AuthParams(x: Externals, rid: string, mech: string, service: string,
                      extra: seq<string>, ir: Option<Bytes>): (ps: seq<string>)
    ensures |ps| == 3 + |extra| + (if ir.Some? then 1 else 0)
    ensures ps[0] == rid && ps[1] == mech
    ensures SplitOnce(ps[2], '=') == ["service", service] && KeyOf(ps[2]) == Some(Service)
    ensures forall i :: 0 <= i < |extra| ==> ps[3 + i] == extra[i]
    ensures ir.Some? ==> SplitOnce(ps[|ps| - 1], '=') == ["resp", x.encodeBase64(ir.value)]
  {
    [rid, mech, KeyValue("service", service)] + extra + RespParam(x, ir)
  }

  /** Extra options that do not upset the request: parseAuthReq accepts each,
      and none names the service or the initial response. */
  predicate Benign(x: Externals, extra: seq<string>) {
    forall i :: 0 <= i < |extra| ==>
      !Rejected(x, extra[i]) && KeyOf(extra[i]) != Some(Service) && KeyOf(extra[i]) != Some(Resp)
  }

  /** The server reads back from the AUTH parameters the request id, the
      mechanism, the service and the initial response the client put there. */
  lemma AuthParamsParsed(x: Externals, rid: string, mech: string, service: string,
                         extra: seq<string>, ir: Option<Bytes>)
    requires Sound(x)
    requires Benign(x, extra)
    ensures var r := ParseAuthReq(x, AuthParams(x, rid, mech, service, extra, ir));
      && r.Success?
      && r.value.requestId == rid && r.value.mechanism == mech
      && r.value.service == service && r.value.ir == ir
  {
    var ps := AuthParams(x, rid, mech, service, extra, ir);
    forall i | 2 <= i < |ps|
      ensures !Rejected(x, ps[i])
      ensures i > 2 ==> KeyOf(ps[i]) != Some(Service)
      ensures 2 < i < |ps| - 1 || (i == |ps| - 1 && ir.None?) ==> KeyOf(ps[i]) != Some(Resp)
    {
      if i == 2 {
      } else if i < 3 + |extra| {
        assert ps[i] == extra[i - 3];
      } else {
        assert x.decodeBase64(x.encodeBase64(ir.value)) == Some(ir.value);
      }
    }
    ParseAuthReqAccepts(x, ps);
    ParseAuthReqLastWins(x, ps, Service, 2);
    if ir.Some? {
      ParseAuthReqLastWins(x, ps, Resp, |ps| - 1);
    } else {
      ParseAuthReqUntouched(x, ps, Resp);
    }
  }

  /** The AUTH line crosses the connection unchanged when no field holds a tab
      or a newline: the server's parser sees exactly the parameters sent. */
  lemma AuthLineCrosses(x: Externals, rid: string, mech: string, service: string,
                        extra: seq<string>, ir: Option<Bytes>, readErr: Option<string>)
    requires Sound(x)
    requires !HasFramingChar(rid) && !HasFramingChar(mech) && !HasFramingChar(service)
    requires forall i :: 0 <= i < |extra| ==> !HasFramingChar(extra[i])
    ensures var l := Line("AUTH", AuthParams(x, rid, mech, service, extra, ir));
      && '\n' !in Body(l)
      && SplitLine(Body(l)) == l
      && AuthServer.Request(x, [Body(l)], readErr).result == ParseAuthReq(x, l.params)
  {
    var ps := AuthParams(x, rid, mech, service, extra, ir);
    var l := Line("AUTH", ps);
    forall i | 0 <= i < |ps|
      ensures !HasFramingChar(ps[i])
    {
      if i == 2 {
        assert ps[2] == KeyValue("service", service);
      } else if 3 <= i < 3 + |extra| {
        assert ps[i] == extra[i - 3];
      } else if i >= 3 + |extra| {
        assert ps[i] == KeyValue("resp", x.encodeBase64(ir.value));
      }
    }
    BodyRoundTrip(l);
    FrameSingleLine(l);
    AuthServer.RequestAccepts(x, [Body(l)], readErr);
  }

  // ---------------------------------------------------------------------------
  // The exchange

  /** How Do ends: the server accepted; the server refused with a FAIL reply,
      returned as the typed failure parseFail makes of it; or another error. */
  datatype Answer = Accepted | Refused(fail: AuthFail) | Broken(error: Error)

  /** What the client side of an exchange did: how it ended, how many received
      lines it used, and the replies it wrote, in order. */
  datatype Exchange = Exchange(answer: Answer, consumed: nat, written: seq<Line>)

  /** An exchange preceded by `read` lines used and `sent` replies written. */
  function Then(sent: seq<Line>, read: nat, e: Exchange): Exchange {
    Exchange(e.answer, read + e.consumed, sent + e.written)
  }

  lemma ThenThen(sent1: seq<Line>, read1: nat, sent2: seq<Line>, read2: nat, e: Exchange)
    ensures Then(sent1, read1, Then(sent2, read2, e)) == Then(sent1 + sent2, read1 + read2, e)
  {
    assert sent1 + (sent2 + e.written) == (sent1 + sent2) + e.written;
  }

  /** The CONT reply carrying a response. */
  function ContLine(x: Externals, rid: string, resp: Bytes): Line {
    Line("CONT", [rid, x.encodeBase64(resp)])
  }

  /** What Do makes of one line from the server. */
  datatype Reaction =
    | Stop(answer: Answer)                            // the exchange ends
    | Skip                                            // the line is ignored
    | Respond(challenge: Bytes, response: Bytes)      // the mechanism answers a challenge

  /** One pass of Do's loop over a received line: it must carry the request id;
      FAIL and OK end the exchange; CONT hands the decoded challenge, after the
      earlier ones, to the mechanism; any other command is ignored. */
  function React(x: Externals, cl: ClientMech, rid: string, challenges: seq<Bytes>, l: Line): (a: Reaction)
    ensures !a.Stop? || a.answer.Accepted? || a.answer.Refused? ==> l.params != [] && l.params[0] == rid
    ensures l.params == [] ==> a == Stop(Broken(MissingReplyParams))
    ensures l.params != [] && l.params[0] != rid ==> a == Stop(Broken(RequestIdMismatch(rid, l.params[0])))
  {
    if l.params == [] then Stop(Broken(MissingReplyParams))
    else if l.params[0] != rid then Stop(Broken(RequestIdMismatch(rid, l.params[0])))
    else if l.cmd == "FAIL" then Stop(Refused(ParseFail(l.params)))
    else if l.cmd == "CONT" then
      if |l.params| < 2 then Stop(Broken(MissingChallenge))
      else match x.decodeBase64(l.params[1])
        case None => Stop(Broken(MalformedChallenge))
        case Some(ch) =>
          match cl.next(challenges + [ch])
          case Failure(e) => Stop(Broken(e))
          case Success(resp) => Respond(ch, resp)
    else if l.cmd == "OK" then Stop(Accepted)
    else Skip
  }

  /** Only a line with the request id goes on or ends the exchange well: OK
      accepts, FAIL refuses with parseFail's reading of it, carrying our request
      id, CONT answers the challenge it carries, and every other command is
      skipped. */
  lemma ReactOutcomes(x: Externals, cl: ClientMech, rid: string, challenges: seq<Bytes>, l: Line)
    ensures var a := React(x, cl, rid, challenges, l);
      && (!a.Stop? || a.answer.Accepted? || a.answer.Refused? ==> l.params != [] && l.params[0] == rid)
      && (a == Stop(Accepted) <==> l.params != [] && l.params[0] == rid && l.cmd == "OK")
      && (a.Stop? && a.answer.Refused? <==> l.params != [] && l.params[0] == rid && l.cmd == "FAIL")
      && (a.Stop? && a.answer.Refused? ==> a.answer.fail == ParseFail(l.params) && a.answer.fail.requestId == rid)
      && (a.Respond? ==>
            && l.cmd == "CONT" && |l.params| >= 2
            && x.decodeBase64(l.params[1]) == Some(a.challenge)
            && cl.next(challenges + [a.challenge]) == Success(a.response))
      && (a.Skip? <==> l.params != [] && l.params[0] == rid && l.cmd != "FAIL" && l.cmd != "CONT" && l.cmd != "OK")
  {
    if l.params != [] {
      ParseFailShape(l.params);
    }
  }

  /** The loop of Do once the AUTH line is sent, over the lines still to be
      received: `challenges` are the challenges the mechanism has been given. */
  function Dialogue(x: Externals, cl: ClientMech, rid: string, challenges: seq<Bytes>,
                    lines: seq<string>, readErr: Option<string>): (e: Exchange)
    ensures e.consumed <= |lines|
    decreases |lines|
  {
    if lines == [] then Exchange(Broken(EndOfInput(readErr)), 0, [])
    else match React(x, cl, rid, challenges, SplitLine(lines[0]))
      case Stop(a) => Exchange(a, 1, [])
      case Skip => Then([], 1, Dialogue(x, cl, rid, challenges, lines[1..], readErr))
      case Respond(ch, resp) =>
        Then([ContLine(x, rid, resp)], 1, Dialogue(x, cl, rid, challenges + [ch], lines[1..], readErr))
  }

  /** Replies that are all CONT with the request id and one response. */
  predicate Responses(ws: seq<Line>, rid: string) {
    forall i :: 0 <= i < |ws| ==> ws[i].cmd == "CONT" && |ws[i].params| == 2 && ws[i].params[0] == rid
  }

  /** Every reply the client writes is CONT with the request id and one response. */
  lemma {:induction false} DialogueWrites(x: Externals, cl: ClientMech, rid: string, challenges: seq<Bytes>,
                                          lines: seq<string>, readErr: Option<string>)
    ensures Responses(Dialogue(x, cl, rid, challenges, lines, readErr).written, rid)
    decreases |lines|
  {
    if lines != [] {
      match React(x, cl, rid, challenges, SplitLine(lines[0]))
      case Stop(_) =>
      case Skip =>
        DialogueWrites(x, cl, rid, challenges, lines[1..], readErr);
        assert Dialogue(x, cl, rid, challenges, lines, readErr).written
          == Dialogue(x, cl, rid, challenges, lines[1..], readErr).written;
      case Respond(ch, resp) =>
        var rest := Dialogue(x, cl, rid, challenges + [ch], lines[1..], readErr).written;
        DialogueWrites(x, cl, rid, challenges + [ch], lines[1..], readErr);
        var w := Dialogue(x, cl, rid, challenges, lines, readErr).written;
        assert w == [ContLine(x, rid, resp)] + rest;
        forall i | 0 <= i < |w|
          ensures w[i].cmd == "CONT" && |w[i].params| == 2 && w[i].params[0] == rid
        {
          if i > 0 {
            assert w[i] == rest[i - 1];
          }
        }
    }
  }

  /** The exchange is decided by the last line it reads: it is accepted only on
      OK with the request id, and refused only on FAIL with the request id, with
      the failure parseFail makes of that line, whose request id is ours. */
  lemma {:induction false} DialogueDecided(x: Externals, cl: ClientMech, rid: string, challenges: seq<Bytes>,
                                           lines: seq<string>, readErr: Option<string>)
    ensures var e := Dialogue(x, cl, rid, challenges, lines, readErr);
      && (e.answer.Accepted? || e.answer.Refused? ==>
            && 1 <= e.consumed
            && SplitLine(lines[e.consumed - 1]).params != []
            && SplitLine(lines[e.consumed - 1]).params[0] == rid)
      && (e.answer.Accepted? ==> SplitLine(lines[e.consumed - 1]).cmd == "OK")
      && (e.answer.Refused? ==>
            && SplitLine(lines[e.consumed - 1]).cmd == "FAIL"
            && e.answer.fail == ParseFail(SplitLine(lines[e.consumed - 1]).params)
            && e.answer.fail.requestId == rid)
    decreases |lines|
  {
    if lines != [] {
      ReactOutcomes(x, cl, rid, challenges, SplitLine(lines[0]));
      var e := Dialogue(x, cl, rid, challenges, lines, readErr);
      match React(x, cl, rid, challenges, SplitLine(lines[0]))
      case Stop(_) =>
      case Skip =>
        DialogueDecided(x, cl, rid, challenges, lines[1..], readErr);
        if e.answer.Accepted? || e.answer.Refused? {
          assert lines[1..][e.consumed - 2] == lines[e.consumed - 1];
        }
      case Respond(ch, _) =>
        DialogueDecided(x, cl, rid, challenges + [ch], lines[1..], readErr);
        if e.answer.Accepted? || e.answer.Refused? {
          assert lines[1..][e.consumed - 2] == lines[e.consumed - 1];
        }
    }
  }

  /** Reads and acts on one line of the server's. Either the exchange ends here
      with `stop`, or it goes on with the challenges `next`. */
  method Step(x: Externals, c: Connection, cl: ClientMech, rid: string, challenges: seq<Bytes>)
    returns (stop: Option<Answer>, next: seq<Bytes>, ghost sent: seq<Line>, ghost read: nat)
    modifies c
    ensures c.out == old(c.out) + Frames(sent)
    ensures read <= |old(c.input)| && c.input == old(c.input)[read..]
    ensures stop.Some? ==> Dialogue(x, cl, rid, challenges, old(c.input), c.readErr) == Exchange(stop.value, read, sent)
    ensures stop.None? ==> read == 1
    ensures stop.None? ==>
      Dialogue(x, cl, rid, challenges, old(c.input), c.readErr)
      == Then(sent, read, Dialogue(x, cl, rid, next, c.input, c.readErr))
  {
    next := challenges;
    sent := [];
    read := if c.input == [] then 0 else 1;
    var l := c.Readln();
    if l.Failure? {
      return Some(Broken(l.error)), next, sent, read;
    }
    match React(x, cl, rid, challenges, l.value)
    case Stop(a) =>
      stop := Some(a);
    case Skip =>
      stop := None;
    case Respond(ch, resp) =>
      next := challenges + [ch];
      var reply := ContLine(x, rid, resp);
      c.Writeln(reply.cmd, reply.params);
      FramesSnoc([], reply);
      sent := [reply];
      stop := None;
  }

  /** The loop stops: what was done before and in the last pass is the whole exchange. */
  lemma StopThen(whole: Exchange, written: seq<Line>, k: nat, cur: Exchange,
                 a: Answer, sent: seq<Line>, read: nat)
    requires whole == Then(written, k, cur) && cur == Exchange(a, read, sent)
    ensures whole == Exchange(a, k + read, written + sent)
  {
  }

  /** The loop goes on: one more pass moves its lines into what was done before. */
  lemma ResumeThen(whole: Exchange, written: seq<Line>, k: nat, cur: Exchange,
                   sent: seq<Line>, read: nat, next: Exchange)
    requires whole == Then(written, k, cur) && cur == Then(sent, read, next)
    ensures whole == Then(written + sent, k + read, next)
  {
    ThenThen(written, k, sent, read, next);
  }

  /** Step, seen from the loop: `whole`, the exchange since the loop began, is
      what was written and read before this pass followed by what remains; after
      the pass it is the same with this pass's lines moved in front. */
  method Turn(x: Externals, c: Connection, cl: ClientMech, rid: string, challenges: seq<Bytes>,
              ghost lines: seq<string>, ghost out0: string, ghost whole: Exchange,
              ghost written: seq<Line>, ghost k: nat)
    returns (stop: Option<Answer>, next: seq<Bytes>, ghost written': seq<Line>, ghost k': nat)
    modifies c
    requires k <= |lines| && c.input == lines[k..]
    requires c.out == out0 + Frames(written)
    requires whole == Then(written, k, Dialogue(x, cl, rid, challenges, c.input, c.readErr))
    ensures k' <= |lines| && c.input == lines[k'..]
    ensures c.out == out0 + Frames(written')
    ensures stop.Some? ==> whole == Exchange(stop.value, k', written')
    ensures stop.None? ==> k' == k + 1
    ensures stop.None? ==> whole == Then(written', k', Dialogue(x, cl, rid, next, c.input, c.readErr))
  {
    ghost var cur := Dialogue(x, cl, rid, challenges, c.input, c.readErr);
    ghost var rest := c.input;
    ghost var sent, read;
    stop, next, sent, read := Step(x, c, cl, rid, challenges);
    DropMore(lines, k, rest, read, c.input);
    OutputAppend(out0, written, sent);
    if stop.Some? {
      StopThen(whole, written, k, cur, stop.value, sent, read);
    } else {
      ResumeThen(whole, written, k, cur, sent, read, Dialogue(x, cl, rid, next, c.input, c.readErr));
    }
    written' := written + sent;
    k' := k + read;
  }

  /** The loop of Do, from the first line read after the AUTH line. */
  method Talk(x: Externals, c: Connection, cl: ClientMech, rid: string) returns (r: Answer)
    modifies c
    ensures var e := Dialogue(x, cl, rid, [], old(c.input), c.readErr);
      && r == e.answer
      && c.input == old(c.input)[e.consumed..]
      && c.out == old(c.out) + Frames(e.written)
  {
    var challenges: seq<Bytes> := [];
    ghost var k := 0;
    ghost var written: seq<Line> := [];
    ghost var whole := Dialogue(x, cl, rid, challenges, c.input, c.readErr);
    assert whole == Then([], 0, whole);
    while true
      invariant 0 <= k <= |old(c.input)| && c.input == old(c.input)[k..]
      invariant c.out == old(c.out) + Frames(written)
      invariant whole == Then(written, k, Dialogue(x, cl, rid, challenges, c.input, c.readErr))
      decreases |old(c.input)| - k
    {
      var stop;
      stop, challenges, written, k := Turn(x, c, cl, rid, challenges, old(c.input), old(c.out), whole, written, k);
      if stop.Some? {
        return stop.value;
      }
    }
  }

  /** Sends the AUTH line and runs the exchange under request id `rid`. */
  method Authenticate(x: Externals, c: Connection, cl: ClientMech, rid: string, params: seq<string>)
    returns (r: Answer)
    modifies c
    ensures var e := Dialogue(x, cl, rid, [], old(c.input), c.readErr);
      && r == e.answer
      && c.input == old(c.input)[e.consumed..]
      && c.out == old(c.out) + Frames([Line("AUTH", params)] + e.written)
  {
    ghost var out0 := c.out;
    c.Writeln("AUTH", params);
    FramesOne(Line("AUTH", params));
    assert c.out == out0 + Frames([Line("AUTH", params)]);
    ghost var e := Dialogue(x, cl, rid, [], c.input, c.readErr);
    r := Talk(x, c, cl, rid);
    OutputAppend(out0, [Line("AUTH", params)], e.written);
  }

  class Client {
    /** The connection to the server. */
    const conn: Connection
    /** What the handshake learnt, the server's mechanisms among it. */
    const info: ConnInfo
    /** The id of the last request sent; 0 before the first. */
    var rid: nat

    constructor (conn: Connection, info: ConnInfo)
      ensures this.conn == conn && this.info == info && rid == 0
    {
      this.conn := conn;
      this.info := info;
      rid := 0;
    }

    /** Do of client.go: starts the mechanism, sends the AUTH request under the
        next request id, and runs the exchange. A failed start or a mechanism
        the server did not advertise ends it before anything is sent. */
    method Do(x: Externals, service: string, cl: ClientMech, extra: seq<string>) returns (r: Answer)
      modifies this, conn
      ensures cl.start.Failure? ==>
        r == Broken(cl.start.error) && rid == old(rid) && unchanged(conn)
      ensures cl.start.Success? && cl.start.value.0 !in info.mechs ==>
        r == Broken(UnsupportedMechanism(cl.start.value.0)) && rid == old(rid) && unchanged(conn)
      ensures cl.start.Success? && cl.start.value.0 in info.mechs ==>
        var id := Itoa(rid);
        var request := Line("AUTH", AuthParams(x, id, cl.start.value.0, service, extra, cl.start.value.1));
        var e := Dialogue(x, cl, id, [], old(conn.input), conn.readErr);
        && rid == old(rid) + 1
        && r == e.answer
        && conn.input == old(conn.input)[e.consumed..]
        && conn.out == old(conn.out) + Frames([request] + e.written)
    {
      if cl.start.Failure? {
        return Broken(cl.start.error);
      }
      var (mech, ir) := cl.start.value;
      if mech !in info.mechs {
        return Broken(UnsupportedMechanism(mech));
      }
      rid := rid + 1;
      var id := Itoa(rid);
      r := Authenticate(x, conn, cl, id, AuthParams(x, id, mech, service, extra, ir));
    }
  }
}
