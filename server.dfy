/** server.go: the registry of mechanisms and the dispatcher of one AUTH
    exchange on an established connection. */
module AuthServer {
  import opened Types
  import opened Strings
  import opened Conn
  import opened Handshake
  import opened Auth
  import opened Sasl

  /** What handling one request did: the result, how many received lines it
      used, and the messages it wrote, in order. */
  datatype Outcome = Outcome(result: Result<()>, consumed: nat, written: seq<Line>)

  /** The FAIL reply the server writes: the request id and a reason. */
  function FailLine(rid: string, reason: string): Line {
    Line("FAIL", Auth.Format(AuthFail(rid, "", reason)))
  }

  /** What handleAuth writes after Next returned `step`: FAIL when Next reported an
      error, then OK when it is done and otherwise the challenge as CONT. */
  function Sent(x: Externals, step: ServerStep, rid: string): (s: seq<Line>)
    ensures |s| == if step.failed then 2 else 1
    ensures step.failed ==> s[0].cmd == "FAIL"
    ensures s[|s| - 1].cmd == if step.done then "OK" else "CONT"
    ensures forall i :: 0 <= i < |s| ==> s[i].params != [] && s[i].params[0] == rid
  {
    (if step.failed then [FailLine(rid, "authentication failed")] else [])
    + [if step.done then Line("OK", [rid]) else Line("CONT", [rid, x.encodeBase64(step.challenge)])]
  }

  /** The client's answer to a challenge: a CONT line with at least two
      parameters, the same request id, and a base64 response. */
  function Response(x: Externals, rid: string, lines: seq<string>, readErr: Option<string>): (r: Reply<Bytes>)
    ensures r.consumed <= |lines| && r.consumed <= 1
    ensures r.result.Success? ==> r.consumed == 1
  {
    match ExpectNext(lines, readErr, "CONT", 2)
    case Failure(e) => Reply(Failure(e), if lines == [] then 0 else 1)
    case Success(params) =>
      if params[0] != rid then Reply(Failure(UnexpectedRequestId(params[0])), 1)
      else match x.decodeBase64(params[1])
        case None => Reply(Failure(MalformedResponse), 1)
        case Some(resp) => Reply(Success(resp), 1)
  }

  /** The server accepts an answer exactly when it is CONT with at least two
      parameters, the first being the request id and the second valid base64;
      the decoded response is then what Next is given. An answer for another
      request id is refused with that id. */
  lemma ResponseAccepts(x: Externals, rid: string, lines: seq<string>, readErr: Option<string>)
    ensures var r := Response(x, rid, lines, readErr);
      r.result.Success? <==>
        && lines != []
        && SplitLine(lines[0]).cmd == "CONT"
        && |SplitLine(lines[0]).params| >= 2
        && SplitLine(lines[0]).params[0] == rid
        && x.decodeBase64(SplitLine(lines[0]).params[1]).Some?
    ensures var r := Response(x, rid, lines, readErr);
      r.result.Success? ==> r.result.value == x.decodeBase64(SplitLine(lines[0]).params[1]).value
    ensures lines == [] ==> Response(x, rid, lines, readErr).result == Failure(EndOfInput(readErr))
    ensures lines != [] && SplitLine(lines[0]).cmd == "CONT" && |SplitLine(lines[0]).params| >= 2
              && SplitLine(lines[0]).params[0] != rid
            ==> Response(x, rid, lines, readErr).result == Failure(UnexpectedRequestId(SplitLine(lines[0]).params[0]))
  {
  }

  /** The loop of handleAuth once the mechanism runs: `responses` are the inputs
      Next has been given so far, the initial response first. A failed Next does
      not leave the loop; only done does. */
  function Converse(x: Externals, serv: ServerMech, rid: string, responses: seq<Option<Bytes>>,
                    lines: seq<string>, readErr: Option<string>): (o: Outcome)
    ensures o.consumed <= |lines|
    decreases |lines|
  {
    var step := serv(responses);
    var sent := Sent(x, step, rid);
    if step.done then Outcome(Success(()), 0, sent)
    else
      var reply := Response(x, rid, lines, readErr);
      match reply.result
      case Failure(e) => Outcome(Failure(e), reply.consumed, sent)
      case Success(resp) =>
        var rest := Converse(x, serv, rid, responses + [Some(resp)], lines[1..], readErr);
        Outcome(rest.result, rest.consumed + 1, sent + rest.written)
  }

  /** One pass of the loop: what Converse does after one call of Next. */
  lemma ConverseNext(x: Externals, serv: ServerMech, rid: string, responses: seq<Option<Bytes>>,
                     lines: seq<string>, readErr: Option<string>)
    ensures var step := serv(responses);
      var o := Converse(x, serv, rid, responses, lines, readErr);
      var reply := Response(x, rid, lines, readErr);
      && (step.done ==> o == Outcome(Success(()), 0, Sent(x, step, rid)))
      && (!step.done && reply.result.Failure? ==> o == Outcome(Failure(reply.result.error), reply.consumed, Sent(x, step, rid)))
      && (!step.done && reply.result.Success? ==>
            var rest := Converse(x, serv, rid, responses + [Some(reply.result.value)], lines[1..], readErr);
            o == Outcome(rest.result, rest.consumed + 1, Sent(x, step, rid) + rest.written))
  {
  }

  /** The AUTH line and the request parseAuthReq makes of it. */
  function Request(x: Externals, lines: seq<string>, readErr: Option<string>): (r: Reply<AuthReq>)
    ensures r.consumed <= |lines| && r.consumed <= 1
    ensures r.result.Success? ==> r.consumed == 1
  {
    match ExpectNext(lines, readErr, "AUTH", 3)
    case Failure(e) => Reply(Failure(e), if lines == [] then 0 else 1)
    case Success(params) => Reply(ParseAuthReq(x, params), 1)
  }

  /** handleAuth: the request, then the mechanism's exchange. For a mechanism with
      no handler the FAIL reply is written and the call of the missing handler
      panics. */
  function Handle(x: Externals, impl: map<string, Handler>, lines: seq<string>, readErr: Option<string>): (o: Outcome)
    ensures o.consumed <= |lines|
  {
    var request := Request(x, lines, readErr);
    match request.result
    case Failure(e) => Outcome(Failure(e), request.consumed, [])
    case Success(req) =>
      if req.mechanism !in impl then
        Outcome(Failure(Panicked(NilFunctionCall)), 1, [FailLine(req.requestId, "unsupported mechanism")])
      else
        var rest := Converse(x, impl[req.mechanism](req), req.requestId, [req.ir], lines[1..], readErr);
        Outcome(rest.result, rest.consumed + 1, rest.written)
  }

  class Server {
    /** The capabilities advertised for each mechanism name. */
    var mechInfo: map<string, Mechanism>
    /** The handler of each mechanism name. */
    var mechImpl: map<string, Handler>

    /** Both registries name the same mechanisms. */
    predicate Registered()
      reads this
    {
      mechInfo.Keys == mechImpl.Keys
    }

    constructor ()
      ensures mechInfo == map[] && mechImpl == map[]
      ensures Registered()
    {
      mechInfo := map[];
      mechImpl := map[];
    }

    /** Registers a mechanism under `name`, replacing any earlier registration. */
    method AddMechanism(name: string, info: Mechanism, handler: Handler)
      modifies this
      ensures mechInfo == old(mechInfo)[name := info]
      ensures mechImpl == old(mechImpl)[name := handler]
      ensures old(Registered()) ==> Registered()
    {
      mechInfo := mechInfo[name := info];
      mechImpl := mechImpl[name := handler];
    }

    /** handleAuth of server.go. */
    method HandleAuth(x: Externals, c: Connection) returns (r: Result<()>)
      modifies c
      ensures var o := Handle(x, mechImpl, old(c.input), c.readErr);
        && r == o.result
        && c.input == old(c.input)[o.consumed..]
        && c.out == old(c.out) + Frames(o.written)
    {
      var req := ReadRequest(x, c);
      if req.Failure? {
        return Failure(req.error);
      }
      if req.value.mechanism !in mechImpl {
        var fail := FailLine(req.value.requestId, "unsupported mechanism");
        c.Writeln(fail.cmd, fail.params);
        FramesSnoc([], fail);
        return Failure(Panicked(NilFunctionCall));
      }
      var serv := mechImpl[req.value.mechanism](req.value);
      r := RunMechanism(x, c, serv, req.value.requestId, req.value.ir);
    }
  }

  /** Reads the AUTH line and parses the request. */
  method ReadRequest(x: Externals, c: Connection) returns (r: Result<AuthReq>)
    modifies c`input
    ensures var request := Request(x, old(c.input), c.readErr);
      r == request.result && c.input == old(c.input)[request.consumed..]
  {
    var params := c.ReadlnExpect("AUTH", 3);
    if params.Failure? {
      return Failure(params.error);
    }
    r := ParseAuthReq(x, params.value);
  }

  /** Writes what handleAuth writes after Next returned `step`. */
  method WriteStep(x: Externals, c: Connection, step: ServerStep, rid: string)
    modifies c`out
    ensures c.out == old(c.out) + Frames(Sent(x, step, rid))
  {
    var sent: seq<Line> := [];
    if step.failed {
      var fail := FailLine(rid, "authentication failed");
      c.Writeln(fail.cmd, fail.params);
      sent := [fail];
      FramesSnoc([], fail);
    }
    var last := if step.done then Line("OK", [rid]) else Line("CONT", [rid, x.encodeBase64(step.challenge)]);
    c.Writeln(last.cmd, last.params);
    FramesSnoc(sent, last);
  }

  /** Reads the client's answer to a challenge. */
  method ReadResponse(x: Externals, c: Connection, rid: string) returns (r: Result<Bytes>)
    modifies c`input
    ensures var reply := Response(x, rid, old(c.input), c.readErr);
      r == reply.result && c.input == old(c.input)[reply.consumed..]
  {
    var params := c.ReadlnExpect("CONT", 2);
    if params.Failure? {
      return Failure(params.error);
    }
    if params.value[0] != rid {
      return Failure(UnexpectedRequestId(params.value[0]));
    }
    var resp := x.decodeBase64(params.value[1]);
    if resp.None? {
      return Failure(MalformedResponse);
    }
    return Success(resp.value);
  }

  /** An outcome preceded by `read` lines consumed and `sent` messages written. */
  function After(sent: seq<Line>, read: nat, o: Outcome): Outcome {
    Outcome(o.result, read + o.consumed, sent + o.written)
  }

  lemma AfterAfter(sent1: seq<Line>, read1: nat, sent2: seq<Line>, read2: nat, o: Outcome)
    ensures After(sent1, read1, After(sent2, read2, o)) == After(sent1 + sent2, read1 + read2, o)
  {
    assert sent1 + (sent2 + o.written) == (sent1 + sent2) + o.written;
  }

  /** The loop stops: what was done before and in the last pass is the whole outcome. */
  lemma StopAfter(whole: Outcome, written: seq<Line>, k: nat, cur: Outcome,
                  res: Result<()>, sent: seq<Line>, read: nat)
    requires whole == After(written, k, cur) && cur == Outcome(res, read, sent)
    ensures whole == Outcome(res, k + read, written + sent)
  {
  }

  /** The loop goes on: one more pass moves its lines into what was done before. */
  lemma ResumeAfter(whole: Outcome, written: seq<Line>, k: nat, cur: Outcome,
                    sent: seq<Line>, read: nat, next: Outcome)
    requires whole == After(written, k, cur) && cur == After(sent, read, next)
    ensures whole == After(written + sent, k + read, next)
  {
    AfterAfter(written, k, sent, read, next);
  }

  /** One pass of handleAuth's loop: calls Next with the responses so far, writes
      what that calls for, and reads the client's answer when there is to be one.
      Either the exchange ends here with `stop`, or it goes on with one more
      response. */
  method Round(x: Externals, c: Connection, serv: ServerMech, rid: string, responses: seq<Option<Bytes>>)
    returns (stop: Option<Result<()>>, resp: Bytes, ghost sent: seq<Line>, ghost read: nat)
    modifies c
    ensures c.out == old(c.out) + Frames(sent)
    ensures read <= |old(c.input)| && c.input == old(c.input)[read..]
    ensures stop.Some? ==> Converse(x, serv, rid, responses, old(c.input), c.readErr) == Outcome(stop.value, read, sent)
    ensures stop.None? ==> read == 1
    ensures stop.None? ==>
      Converse(x, serv, rid, responses, old(c.input), c.readErr)
      == After(sent, read, Converse(x, serv, rid, responses + [Some(resp)], c.input, c.readErr))
  {
    var step := serv(responses);
    sent := Sent(x, step, rid);
    ConverseNext(x, serv, rid, responses, c.input, c.readErr);
    ghost var reply := Response(x, rid, c.input, c.readErr);
    WriteStep(x, c, step, rid);
    resp := [];
    if step.done {
      return Some(Success(())), resp, sent, 0;
    }
    var answer := ReadResponse(x, c, rid);
    if answer.Failure? {
      return Some(Failure(answer.error)), resp, sent, reply.consumed;
    }
    return None, answer.value, sent, 1;
  }

  /** Round, seen from the loop: `whole`, the outcome of the exchange since the
      loop began, is what was written and read before this pass followed by what
      remains; after the pass it is the same with this pass's lines moved in front. */
  method Pass(x: Externals, c: Connection, serv: ServerMech, rid: string, responses: seq<Option<Bytes>>,
              ghost lines: seq<string>, ghost out0: string, ghost whole: Outcome,
              ghost written: seq<Line>, ghost k: nat)
    returns (stop: Option<Result<()>>, resp: Bytes, ghost written': seq<Line>, ghost k': nat)
    modifies c
    requires k <= |lines| && c.input == lines[k..]
    requires c.out == out0 + Frames(written)
    requires whole == After(written, k, Converse(x, serv, rid, responses, c.input, c.readErr))
    ensures k' <= |lines| && c.input == lines[k'..]
    ensures c.out == out0 + Frames(written')
    ensures stop.Some? ==> whole == Outcome(stop.value, k', written')
    ensures stop.None? ==> k' == k + 1
    ensures stop.None? ==>
      whole == After(written', k', Converse(x, serv, rid, responses + [Some(resp)], c.input, c.readErr))
  {
    ghost var cur := Converse(x, serv, rid, responses, c.input, c.readErr);
    ghost var rest := c.input;
    ghost var sent, read;
    stop, resp, sent, read := Round(x, c, serv, rid, responses);
    DropMore(lines, k, rest, read, c.input);
    OutputAppend(out0, written, sent);
    if stop.Some? {
      StopAfter(whole, written, k, cur, stop.value, sent, read);
    } else {
      ResumeAfter(whole, written, k, cur, sent, read, Converse(x, serv, rid, responses + [Some(resp)], c.input, c.readErr));
    }
    written' := written + sent;
    k' := k + read;
  }

  /** The loop of handleAuth, from the first call of Next with the initial response. */
  method RunMechanism(x: Externals, c: Connection, serv: ServerMech, rid: string, ir: Option<Bytes>)
    returns (r: Result<()>)
    modifies c
    ensures var o := Converse(x, serv, rid, [ir], old(c.input), c.readErr);
      && r == o.result
      && c.input == old(c.input)[o.consumed..]
      && c.out == old(c.out) + Frames(o.written)
  {
    var responses := [ir];
    ghost var k := 0;
    ghost var written: seq<Line> := [];
    ghost var whole := Converse(x, serv, rid, responses, c.input, c.readErr);
    assert whole == After([], 0, whole);
    while true
      invariant 0 <= k <= |old(c.input)| && c.input == old(c.input)[k..]
      invariant c.out == old(c.out) + Frames(written)
      invariant whole == After(written, k, Converse(x, serv, rid, responses, c.input, c.readErr))
      decreases |old(c.input)| - k
    {
      var stop, resp;
      stop, resp, written, k := Pass(x, c, serv, rid, responses, old(c.input), old(c.out), whole, written, k);
      if stop.Some? {
        return stop.value;
      }
      responses := responses + [Some(resp)];
    }
  }

  /** The replies handleAuth writes: FAIL, CONT or OK, each with the request id first. */
  predicate Tagged(l: Line, rid: string) {
    && (l.cmd == "FAIL" || l.cmd == "CONT" || l.cmd == "OK")
    && |l.params| >= 1 && l.params[0] == rid
  }

  /** After one call of Next: every line carries the request id, OK comes only
      last and only when Next reported done, and an error of Next is reported
      first with a FAIL line. */
  lemma SentTagged(x: Externals, step: ServerStep, rid: string)
    ensures var s := Sent(x, step, rid);
      && s != []
      && (forall i :: 0 <= i < |s| ==> Tagged(s[i], rid))
      && (forall i :: 0 <= i < |s| - 1 ==> s[i].cmd != "OK")
      && (s[|s| - 1] == Line("OK", [rid]) <==> step.done)
      && (step.failed <==> s[0] == FailLine(rid, "authentication failed"))
  {
    var fail := FailLine(rid, "authentication failed");
    assert fail.params[0] == rid;
  }

  /** A run of replies: at least one, each FAIL, CONT or OK with the request id
      first, and OK, if anywhere, only last. */
  predicate Replies(ws: seq<Line>, rid: string) {
    && ws != []
    && (forall i :: 0 <= i < |ws| ==> Tagged(ws[i], rid))
    && (forall i :: 0 <= i < |ws| - 1 ==> ws[i].cmd != "OK")
  }

  /** Replies not ending in OK, followed by more replies, are replies ending
      where the second run ends. */
  lemma RepliesAppend(a: seq<Line>, b: seq<Line>, rid: string)
    requires Replies(a, rid) && a[|a| - 1].cmd != "OK" && Replies(b, rid)
    ensures Replies(a + b, rid) && (a + b)[|a + b| - 1] == b[|b| - 1]
  {
    forall i | 0 <= i < |a + b|
      ensures Tagged((a + b)[i], rid)
      ensures i < |a + b| - 1 ==> (a + b)[i].cmd != "OK"
    {
      if i >= |a| {
        assert (a + b)[i] == b[i - |a|];
      }
    }
  }

  /** The whole conversation: every line written carries the request id and is
      FAIL, CONT or OK; OK is never followed by another line; and the exchange
      succeeds exactly when the last line written is OK with the request id. */
  lemma {:induction false} ConverseWrites(x: Externals, serv: ServerMech, rid: string, responses: seq<Option<Bytes>>,
                                          lines: seq<string>, readErr: Option<string>)
    ensures var o := Converse(x, serv, rid, responses, lines, readErr);
      && Replies(o.written, rid)
      && (o.result.Success? <==> o.written[|o.written| - 1] == Line("OK", [rid]))
    decreases |lines|
  {
    var step := serv(responses);
    var sent := Sent(x, step, rid);
    SentTagged(x, step, rid);
    ConverseNext(x, serv, rid, responses, lines, readErr);
    var reply := Response(x, rid, lines, readErr);
    if !step.done && reply.result.Success? {
      var more := responses + [Some(reply.result.value)];
      ConverseWrites(x, serv, rid, more, lines[1..], readErr);
      RepliesAppend(sent, Converse(x, serv, rid, more, lines[1..], readErr).written, rid);
    }
  }

  /** A Next that reports an error has FAIL written first, and does not end the
      exchange: when it also reports done, OK follows and the exchange succeeds;
      otherwise the challenge is sent and the client's answer is read. */
  lemma ConverseFailed(x: Externals, serv: ServerMech, rid: string, responses: seq<Option<Bytes>>,
                       lines: seq<string>, readErr: Option<string>)
    requires serv(responses).failed
    ensures var o := Converse(x, serv, rid, responses, lines, readErr);
      && |o.written| >= 2
      && o.written[0] == FailLine(rid, "authentication failed")
      && (serv(responses).done ==> o.result.Success? && o.written == [o.written[0], Line("OK", [rid])])
      && (!serv(responses).done ==> o.written[1].cmd == "CONT")
      && (!serv(responses).done && Response(x, rid, lines, readErr).result.Success? ==>
            var resp := Response(x, rid, lines, readErr).result.value;
            o.result == Converse(x, serv, rid, responses + [Some(resp)], lines[1..], readErr).result)
  {
    ConverseNext(x, serv, rid, responses, lines, readErr);
  }

  /** The request handleAuth acts on: the first line must be AUTH with at least
      three parameters, and parseAuthReq must accept them. */
  lemma RequestAccepts(x: Externals, lines: seq<string>, readErr: Option<string>)
    ensures Request(x, lines, readErr).result.Success? <==>
      && lines != []
      && SplitLine(lines[0]).cmd == "AUTH"
      && ParseAuthReq(x, SplitLine(lines[0]).params).Success?
    ensures Request(x, lines, readErr).result.Success? ==>
      Request(x, lines, readErr).result == ParseAuthReq(x, SplitLine(lines[0]).params)
  {
    if lines != [] {
      var params := SplitLine(lines[0]).params;
      if |params| < 3 {
        assert ParseAuthReq(x, params) == Failure(NotEnoughRequestParams);
      }
    }
  }

  /** What handleAuth writes: nothing when the request is refused; for an
      unregistered mechanism the FAIL reply and then the panic of the missing
      handler; otherwise lines carrying the request id, ending in OK exactly when
      the exchange succeeds. */
  lemma HandleWrites(x: Externals, impl: map<string, Handler>, lines: seq<string>, readErr: Option<string>)
    ensures var o := Handle(x, impl, lines, readErr);
      var request := Request(x, lines, readErr);
      && (request.result.Failure? ==> o.written == [] && o.result == Failure(request.result.error))
      && (request.result.Success? && request.result.value.mechanism !in impl ==>
            && o.result == Failure(Panicked(NilFunctionCall))
            && o.written == [FailLine(request.result.value.requestId, "unsupported mechanism")])
      && (request.result.Success? ==>
            var rid := request.result.value.requestId;
            && Replies(o.written, rid)
            && (o.result.Success? <==> o.written[|o.written| - 1] == Line("OK", [rid])))
  {
    var request := Request(x, lines, readErr);
    if request.result.Success? {
      var req := request.result.value;
      if req.mechanism in impl {
        ConverseWrites(x, impl[req.mechanism](req), req.requestId, [req.ir], lines[1..], readErr);
      } else {
        assert FailLine(req.requestId, "unsupported mechanism").params[0] == req.requestId;
      }
    }
  }

  /** The first call of the handler's Next receives the request's initial
      response: handleAuth's first replies are what that call's result calls
      for, and when that call reports done, handleAuth answers at once and reads
      nothing more. */
  lemma HandleFirstCall(x: Externals, impl: map<string, Handler>, lines: seq<string>, readErr: Option<string>)
    requires Request(x, lines, readErr).result.Success?
    requires Request(x, lines, readErr).result.value.mechanism in impl
    ensures var req := Request(x, lines, readErr).result.value;
      var sent := Sent(x, impl[req.mechanism](req)([req.ir]), req.requestId);
      Handle(x, impl, lines, readErr).written[..|sent|] == sent
    ensures var req := Request(x, lines, readErr).result.value;
      var step := impl[req.mechanism](req)([req.ir]);
      step.done ==> Handle(x, impl, lines, readErr) == Outcome(Success(()), 1, Sent(x, step, req.requestId))
  {
  }
}
