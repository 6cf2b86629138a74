/** auth.go: the FAIL reply codec whose first parameter is the request id, and
    the parser of AUTH requests. */
module Auth {
  import opened Types
  import opened Strings
  import opened FailOptions
  import Legacy = AuthFailLegacy

  // ---------------------------------------------------------------------------
  // FAIL replies

  datatype AuthFail = AuthFail(requestId: string, code: string, reason: string)

  const Zero := AuthFail("", "", "")

  function Get(af: AuthFail, f: Field): string {
    match f
    case Code => af.code
    case Reason => af.reason
  }

  /** The code and the reason of a reply, as the record of the option-only declaration. */
  function Fields(af: AuthFail): Legacy.AuthFail {
    Legacy.AuthFail(af.code, af.reason)
  }

  /** One iteration of parseFail's loop over the options. */
  function ApplyOption(af: AuthFail, p: string): (r: AuthFail)
    ensures r.requestId == af.requestId
    ensures r.code == Sets(p, Code).GetOr(af.code)
    ensures r.reason == Sets(p, Reason).GetOr(af.reason)
  {
    var parts := SplitOnce(p, '=');
    match FailKeyOf(parts[0])
    case Some(ReasonKey) => if |parts| < 2 then af else af.(reason := parts[1])
    case Some(CodeKey) => if |parts| < 2 then af else af.(code := parts[1])
    case Some(TempKey) => af.(code := TempFail)
    case Some(AuthzKey) => af.(code := AuthzFail)
    case Some(UserDisabledKey) => af.(code := UserDisabled)
    case Some(PassExpiredKey) => af.(code := PassExpired)
    case None => af
  }

  /** An option changes code and reason exactly as in the option-only declaration,
      and never the request id. */
  lemma ApplyOptionLegacy(af: AuthFail, p: string)
    ensures ApplyOption(af, p).requestId == af.requestId
    ensures Fields(ApplyOption(af, p)) == Legacy.ApplyOption(Fields(af), p)
  {
    var parts := SplitOnce(p, '=');
    match FailKeyOf(parts[0])
    case Some(ReasonKey) =>
    case Some(CodeKey) =>
    case Some(TempKey) =>
    case Some(AuthzKey) =>
    case Some(UserDisabledKey) =>
    case Some(PassExpiredKey) =>
    case None =>
  }

  /** parseFail's loop over params[1:], left to right. */
  function ApplyOptions(af: AuthFail, ps: seq<string>): (r: AuthFail)
    ensures r.requestId == af.requestId
    ensures r.code == LastSet(ps, Code).GetOr(af.code)
    ensures r.reason == LastSet(ps, Reason).GetOr(af.reason)
    decreases |ps|
  {
    if ps == [] then af else ApplyOptions(ApplyOption(af, ps[0]), ps[1..])
  }

  /** The options loop is the option-only declaration's loop, with the request id carried along. */
  lemma {:induction false} ApplyOptionsLegacy(af: AuthFail, ps: seq<string>)
    ensures ApplyOptions(af, ps).requestId == af.requestId
    ensures Fields(ApplyOptions(af, ps)) == Legacy.ApplyOptions(Fields(af), ps)
    decreases |ps|
  {
    if ps != [] {
      ApplyOptionLegacy(af, ps[0]);
      ApplyOptionsLegacy(ApplyOption(af, ps[0]), ps[1..]);
    }
  }

  /** parseFail of auth.go: the zero value for no parameters; otherwise the first
      parameter is the request id and only the rest are options. */
  function ParseFail(params: seq<string>): (r: AuthFail)
    ensures params == [] ==> r == Zero
    ensures params != [] ==>
      r == AuthFail(params[0], LastSet(params[1..], Code).GetOr(""), LastSet(params[1..], Reason).GetOr(""))
  {
    if params == [] then Zero else ApplyOptions(AuthFail(params[0], "", ""), params[1..])
  }

  /** The request id is the first parameter, never read as an option, and code and
      reason are what the option-only parser makes of the remaining parameters. */
  lemma ParseFailShape(params: seq<string>)
    ensures params == [] ==> ParseFail(params) == Zero
    ensures params != [] ==> ParseFail(params).requestId == params[0]
    ensures params != [] ==> Fields(ParseFail(params)) == Legacy.ParseFail(params[1..])
  {
    if params != [] {
      ApplyOptionsLegacy(AuthFail(params[0], "", ""), params[1..]);
    }
  }

  /** Last one wins: a field ends with the value of the last option that sets it. */
  lemma LastWins(params: seq<string>, f: Field, k: nat)
    requires 1 <= k < |params| && Sets(params[k], f).Some?
    requires forall j :: k < j < |params| ==> Sets(params[j], f).None?
    ensures Get(ParseFail(params), f) == Sets(params[k], f).value
  {
    ParseFailShape(params);
    var ps := params[1..];
    assert forall j :: k - 1 <= j < |ps| ==> ps[j] == params[j + 1];
    Legacy.LastWins(Legacy.Zero, ps, f, k - 1);
  }

  /** A field no option sets stays empty; a bare "reason" or "code" sets nothing. */
  lemma Untouched(params: seq<string>, f: Field)
    requires forall j :: 1 <= j < |params| ==> Sets(params[j], f).None?
    ensures Get(ParseFail(params), f) == ""
  {
    ParseFailShape(params);
    if params != [] {
      var ps := params[1..];
      assert forall j :: 0 <= j < |ps| ==> ps[j] == params[j + 1];
      Legacy.Untouched(Legacy.Zero, ps, f);
    }
  }

  /** AuthFail.format: the request id, then reason= and code= when sendable. */
  function Format(af: AuthFail): (ps: seq<string>)
    ensures 1 <= |ps| <= 3 && ps[0] == af.requestId
  {
    [af.requestId] + Options(af.reason, af.code)
  }

  /** This format is the option-only format behind the request id. */
  lemma FormatLegacy(af: AuthFail)
    ensures Format(af) == [af.requestId] + Legacy.Format(Fields(af))
  {
  }

  /** Round trip: the request id always comes back; a field holding a tab or a
      newline comes back empty. */
  lemma RoundTrip(af: AuthFail)
    ensures ParseFail(Format(af)) == AuthFail(af.requestId, Kept(af.code), Kept(af.reason))
  {
    var ps := Format(af);
    assert ps[1..] == Legacy.Format(Fields(af));
    ParseFailShape(ps);
    Legacy.RoundTrip(Fields(af));
  }

  /** Without tab or newline in code and reason the codec is an exact round trip. */
  lemma RoundTripClean(af: AuthFail)
    requires !HasFramingChar(af.code) && !HasFramingChar(af.reason)
    ensures ParseFail(Format(af)) == af
  {
    RoundTrip(af);
  }

  // ---------------------------------------------------------------------------
  // AUTH requests

  /** A parsed AUTH request. An absent IP or initial response (Go's nil) is None;
      an initial response that decodes to no bytes is Some([]). */
  datatype AuthReq = AuthReq(
    requestId: string,
    mechanism: string,
    service: string,
    localIP: Option<Bytes>,
    localPort: Uint16,
    remoteIP: Option<Bytes>,
    remotePort: Uint16,
    secured: bool,
    validClientCert: bool,
    noPenalty: bool,
    certUsername: bool,
    ir: Option<Bytes>)

  /** The request parseAuthReq starts from, before any option is read. */
  function Blank(requestId: string, mechanism: string): AuthReq {
    AuthReq(requestId, mechanism, "", None, 0, None, 0, false, false, false, false, None)
  }

  /** The option keys parseAuthReq's switch recognises. */
  datatype ReqKey = Resp | Service | Secured | ValidClientCert | NoPenalty | CertUsername | Lip | Lport | Rip | Rport

  /** The switch of parseAuthReq: the key a token's text before '=' names, if any. */
  function ReqKeyOf(key: string): Option<ReqKey> {
    if key == "resp" then Some(Resp)
    else if key == "service" then Some(Service)
    else if key == "secured" then Some(Secured)
    else if key == "valid-client-cert" then Some(ValidClientCert)
    else if key == "no-penalty" then Some(NoPenalty)
    else if key == "cert_username" then Some(CertUsername)
    else if key == "lip" then Some(Lip)
    else if key == "lport" then Some(Lport)
    else if key == "rip" then Some(Rip)
    else if key == "rport" then Some(Rport)
    else None
  }

  /** The key option token `p` names. */
  function KeyOf(p: string): Option<ReqKey> {
    ReqKeyOf(SplitOnce(p, '=')[0])
  }

  predicate IsFlag(k: ReqKey) {
    k == Secured || k == ValidClientCert || k == NoPenalty || k == CertUsername
  }

  /** The flag a flag key stands for. */
  function Flag(req: AuthReq, k: ReqKey): bool
    requires IsFlag(k)
  {
    match k
    case Secured => req.secured
    case ValidClientCert => req.validClientCert
    case NoPenalty => req.noPenalty
    case CertUsername => req.certUsername
  }

  /** Two requests agree on the field that key `k` writes. */
  predicate Agree(a: AuthReq, b: AuthReq, k: ReqKey) {
    match k
    case Resp => a.ir == b.ir
    case Service => a.service == b.service
    case Secured => a.secured == b.secured
    case ValidClientCert => a.validClientCert == b.validClientCert
    case NoPenalty => a.noPenalty == b.noPenalty
    case CertUsername => a.certUsername == b.certUsername
    case Lip => a.localIP == b.localIP
    case Lport => a.localPort == b.localPort
    case Rip => a.remoteIP == b.remoteIP
    case Rport => a.remotePort == b.remotePort
  }

  /** One iteration of parseAuthReq's loop: the text before the first '=' selects
      the case of the switch; unknown keys are ignored. */
  function ApplyReqOption(x: Externals, req: AuthReq, p: string): (r: Result<AuthReq>)
    ensures r.Failure? <==> Rejected(x, p)
    ensures r.Success? ==> r.value.requestId == req.requestId && r.value.mechanism == req.mechanism
  {
    var parts := SplitOnce(p, '=');
    match ReqKeyOf(parts[0])
    case None => Success(req)
    case Some(k) => ApplyKey(x, req, k, parts)
  }

  /** The case of the switch for key `k`, given the split token. resp, lip, lport,
      rip and rport need a value and a well-formed one; a bare "service" indexes
      past the end of the split and panics; the flags are set whatever follows them. */
  function ApplyKey(x: Externals, req: AuthReq, k: ReqKey, parts: seq<string>): (r: Result<AuthReq>)
    ensures IsFlag(k) ==> r.Success? && Flag(r.value, k)
    ensures k == Service && |parts| == 2 ==> r == Success(req.(service := parts[1]))
    ensures |parts| != 2 && k != Service && !IsFlag(k) ==> r.Failure? && r.error.MissingValue?
    ensures r.Success? ==> r.value.requestId == req.requestId && r.value.mechanism == req.mechanism
  {
    match k
    case Resp =>
      if |parts| != 2 then Failure(MissingValue("resp"))
      else (match x.decodeBase64(parts[1])
            case None => Failure(MalformedInitialResponse)
            case Some(resp) => Success(req.(ir := Some(resp))))
    case Service =>
      if |parts| != 2 then Failure(Panicked(IndexOutOfRange)) else Success(req.(service := parts[1]))
    case Secured => Success(req.(secured := true))
    case ValidClientCert => Success(req.(validClientCert := true))
    case NoPenalty => Success(req.(noPenalty := true))
    case CertUsername => Success(req.(certUsername := true))
    case Lip =>
      if |parts| != 2 then Failure(MissingValue("lip"))
      else (match x.parseIP(parts[1])
            case None => Failure(MalformedAddress("lip", parts[1]))
            case Some(ip) => Success(req.(localIP := Some(ip))))
    case Lport =>
      if |parts| != 2 then Failure(MissingValue("lport"))
      else (match ParseUint16(parts[1])
            case None => Failure(MalformedPort("lport", parts[1]))
            case Some(port) => Success(req.(localPort := port)))
    case Rip =>
      if |parts| != 2 then Failure(MissingValue("rip"))
      else (match x.parseIP(parts[1])
            case None => Failure(MalformedAddress("rip", parts[1]))
            case Some(ip) => Success(req.(remoteIP := Some(ip))))
    case Rport =>
      if |parts| != 2 then Failure(MissingValue("rport"))
      else (match ParseUint16(parts[1])
            case None => Failure(MalformedPort("rport", parts[1]))
            case Some(port) => Success(req.(remotePort := port)))
  }

  /** Each case fails or not, with the same error, whatever the request held; when
      it succeeds it writes only the field of its key, the same way whatever the
      request held, and a flag only to true. */
  lemma ApplyKeyEffect(x: Externals, req: AuthReq, other: AuthReq, k: ReqKey, parts: seq<string>)
    ensures ApplyKey(x, req, k, parts).Failure? ==> ApplyKey(x, req, k, parts) == ApplyKey(x, other, k, parts)
    ensures ApplyKey(x, req, k, parts).Success? ==>
      var r := ApplyKey(x, req, k, parts).value;
      && ApplyKey(x, other, k, parts).Success?
      && Agree(r, ApplyKey(x, other, k, parts).value, k)
      && r.requestId == req.requestId && r.mechanism == req.mechanism
      && (forall j :: j != k ==> Agree(r, req, j))
      && (IsFlag(k) ==> Flag(r, k))
  {
  }

  /** The options parseAuthReq gives up on, read off the option text: resp, lip,
      lport, rip and rport without a value, and a bare service (which panics);
      resp whose value is not base64; lip and rip whose value is not an address;
      lport and rport whose value is not a 16-bit decimal. The flags, service=
      and unknown keys are never refused. */
  predicate Rejected(x: Externals, p: string) {
    var parts := SplitOnce(p, '=');
    var key := parts[0];
    if |parts| == 1 then
      key == "resp" || key == "service" || key == "lip" || key == "lport" || key == "rip" || key == "rport"
    else
      || (key == "resp" && x.decodeBase64(parts[1]).None?)
      || ((key == "lip" || key == "rip") && x.parseIP(parts[1]).None?)
      || ((key == "lport" || key == "rport") && ParseUint16(parts[1]).None?)
  }

  /** The keys whose option needs a value. */
  predicate NeedsValue(key: string) {
    key == "resp" || key == "lip" || key == "lport" || key == "rip" || key == "rport"
  }

  /** The flag keys, which are set whatever follows them. */
  predicate FlagKey(key: string) {
    key == "secured" || key == "valid-client-cert" || key == "no-penalty" || key == "cert_username"
  }

  /** An option without '=': a key that needs a value is refused as missing it,
      a bare service panics, and a flag or an unknown key is accepted. */
  lemma BareOption(x: Externals, req: AuthReq, key: string)
    requires '=' !in key
    ensures NeedsValue(key) ==> ApplyReqOption(x, req, key) == Failure(MissingValue(key))
    ensures key == "service" ==> ApplyReqOption(x, req, key) == Failure(Panicked(IndexOutOfRange))
    ensures !NeedsValue(key) && key != "service" ==> ApplyReqOption(x, req, key).Success?
  {
    SplitOnceParts(key, '=');
  }

  /** resp=v is refused exactly when v is not base64; otherwise the decoded bytes
      become the initial response. */
  lemma RespOption(x: Externals, req: AuthReq, v: string)
    ensures ApplyReqOption(x, req, "resp=" + v).Failure? <==> x.decodeBase64(v).None?
    ensures x.decodeBase64(v).None? ==> ApplyReqOption(x, req, "resp=" + v) == Failure(MalformedInitialResponse)
    ensures x.decodeBase64(v).Some? ==> ApplyReqOption(x, req, "resp=" + v) == Success(req.(ir := x.decodeBase64(v)))
  {
    assert "resp=" + v == "resp" + ['='] + v;
    SplitOnceJoined("resp", v, '=');
  }

  /** lip=v and rip=v are refused exactly when v is not an address; otherwise
      the parsed address becomes the local or the remote address. */
  lemma AddressOption(x: Externals, req: AuthReq, key: string, v: string)
    requires key == "lip" || key == "rip"
    ensures ApplyReqOption(x, req, key + "=" + v).Failure? <==> x.parseIP(v).None?
    ensures x.parseIP(v).None? ==> ApplyReqOption(x, req, key + "=" + v) == Failure(MalformedAddress(key, v))
    ensures x.parseIP(v).Some? ==>
      ApplyReqOption(x, req, key + "=" + v)
        == Success(if key == "lip" then req.(localIP := x.parseIP(v)) else req.(remoteIP := x.parseIP(v)))
  {
    assert key + "=" + v == key + ['='] + v;
    SplitOnceJoined(key, v, '=');
  }

  /** lport=v and rport=v are refused exactly when v is not a 16-bit decimal;
      otherwise its value becomes the local or the remote port. */
  lemma PortOption(x: Externals, req: AuthReq, key: string, v: string)
    requires key == "lport" || key == "rport"
    ensures ApplyReqOption(x, req, key + "=" + v).Failure? <==> ParseUint16(v).None?
    ensures ParseUint16(v).None? ==> ApplyReqOption(x, req, key + "=" + v) == Failure(MalformedPort(key, v))
    ensures ParseUint16(v).Some? ==>
      ApplyReqOption(x, req, key + "=" + v)
        == Success(if key == "lport" then req.(localPort := ParseUint16(v).value) else req.(remotePort := ParseUint16(v).value))
  {
    assert key + "=" + v == key + ['='] + v;
    SplitOnceJoined(key, v, '=');
  }

  /** service=v is never refused and sets the service to v, whatever v holds. */
  lemma ServiceOption(x: Externals, req: AuthReq, v: string)
    ensures ApplyReqOption(x, req, "service=" + v) == Success(req.(service := v))
  {
    assert "service=" + v == "service" + ['='] + v;
    SplitOnceJoined("service", v, '=');
  }

  /** A flag is never refused, with or without a value, and is set to true. */
  lemma FlagOption(x: Externals, req: AuthReq, key: string, v: string)
    requires FlagKey(key)
    ensures ApplyReqOption(x, req, key) == ApplyReqOption(x, req, key + "=" + v)
    ensures ApplyReqOption(x, req, key) == Success(
      if key == "secured" then req.(secured := true)
      else if key == "valid-client-cert" then req.(validClientCert := true)
      else if key == "no-penalty" then req.(noPenalty := true)
      else req.(certUsername := true))
  {
    var p := key + "=" + v;
    assert p == key + ['='] + v;
    SplitOnceJoined(key, v, '=');
    SplitOnceParts(key, '=');
    var k :=
      if key == "secured" then Secured
      else if key == "valid-client-cert" then ValidClientCert
      else if key == "no-penalty" then NoPenalty
      else CertUsername;
    assert ReqKeyOf(key) == Some(k);
    OptionKey(x, req, key, k);
    OptionKey(x, req, p, k);
  }

  /** An option whose text before '=' names key `k` is handled by that key's case. */
  lemma OptionKey(x: Externals, req: AuthReq, p: string, k: ReqKey)
    requires ReqKeyOf(SplitOnce(p, '=')[0]) == Some(k)
    ensures ApplyReqOption(x, req, p) == ApplyKey(x, req, k, SplitOnce(p, '='))
  {
  }

  /** An option whose key the switch does not know is skipped. */
  lemma UnknownOption(x: Externals, req: AuthReq, p: string)
    requires var key := SplitOnce(p, '=')[0]; !NeedsValue(key) && !FlagKey(key) && key != "service"
    ensures ApplyReqOption(x, req, p) == Success(req)
  {
  }

  /** Whether an option fails, and with which error, depends on the option alone. */
  lemma ApplyReqOptionFails(x: Externals, req: AuthReq, other: AuthReq, p: string)
    ensures ApplyReqOption(x, req, p).Failure? <==> Rejected(x, p)
    ensures ApplyReqOption(x, req, p).Failure? ==> ApplyReqOption(x, req, p) == ApplyReqOption(x, other, p)
  {
    var parts := SplitOnce(p, '=');
    if KeyOf(p).Some? {
      ApplyKeyEffect(x, req, other, KeyOf(p).value, parts);
      ApplyKeyEffect(x, req, Blank("", ""), KeyOf(p).value, parts);
    }
  }

  /** An accepted option changes only the field its key names, never the request
      id or the mechanism, and sets a flag only to true. */
  lemma ApplyReqOptionFrame(x: Externals, req: AuthReq, p: string)
    requires ApplyReqOption(x, req, p).Success?
    ensures var r := ApplyReqOption(x, req, p).value;
      && r.requestId == req.requestId && r.mechanism == req.mechanism
      && (forall k :: KeyOf(p) != Some(k) ==> Agree(r, req, k))
      && (KeyOf(p).Some? && IsFlag(KeyOf(p).value) ==> Flag(r, KeyOf(p).value))
  {
    var parts := SplitOnce(p, '=');
    if KeyOf(p).Some? {
      ApplyKeyEffect(x, req, req, KeyOf(p).value, parts);
    }
  }

  /** An accepted option sets the field its key names the same way whatever the
      request held before. */
  lemma ApplyReqOptionSets(x: Externals, req: AuthReq, other: AuthReq, p: string)
    requires ApplyReqOption(x, req, p).Success? && KeyOf(p).Some?
    ensures ApplyReqOption(x, other, p).Success?
    ensures Agree(ApplyReqOption(x, req, p).value, ApplyReqOption(x, other, p).value, KeyOf(p).value)
  {
    ApplyKeyEffect(x, req, other, KeyOf(p).value, SplitOnce(p, '='));
  }

  /** parseAuthReq's loop over params[2:]: the first rejected option ends it. */
  function ApplyReqOptions(x: Externals, req: AuthReq, ps: seq<string>): (r: Result<AuthReq>)
    ensures r.Success? ==> r.value.requestId == req.requestId && r.value.mechanism == req.mechanism
    ensures (forall i :: 0 <= i < |ps| ==> !Rejected(x, ps[i])) ==> r.Success?
    decreases |ps|
  {
    if ps == [] then Success(req)
    else
      match ApplyReqOption(x, req, ps[0])
      case Failure(e) => Failure(e)
      case Success(next) => ApplyReqOptions(x, next, ps[1..])
  }

  /** parseAuthReq: at least three parameters, the first two of which are the
      request id and the mechanism and never options. */
  function ParseAuthReq(x: Externals, params: seq<string>): (r: Result<AuthReq>)
    ensures |params| < 3 ==> r == Failure(NotEnoughRequestParams)
    ensures r.Success? ==> r.value.requestId == params[0] && r.value.mechanism == params[1]
    ensures |params| >= 3 && (forall i :: 2 <= i < |params| ==> !Rejected(x, params[i])) ==> r.Success?
  {
    if |params| < 3 then Failure(NotEnoughRequestParams)
    else ApplyReqOptions(x, Blank(params[0], params[1]), params[2..])
  }

  /** A request with one option is that option applied to the blank request. */
  lemma ParseAuthReqSingle(x: Externals, rid: string, mech: string, p: string)
    ensures ParseAuthReq(x, [rid, mech, p]) == ApplyReqOption(x, Blank(rid, mech), p)
  {
    assert [rid, mech, p][2..] == [p];
    assert [p][1..] == [];
    match ApplyReqOption(x, Blank(rid, mech), p)
    case Failure(_) =>
    case Success(next) =>
      assert ApplyReqOptions(x, next, []) == Success(next);
  }

  /** The loop succeeds exactly when no option is rejected; it then keeps the
      request id and the mechanism. */
  lemma {:induction false} ApplyReqOptionsAccepts(x: Externals, req: AuthReq, ps: seq<string>)
    ensures ApplyReqOptions(x, req, ps).Success? <==> forall i :: 0 <= i < |ps| ==> !Rejected(x, ps[i])
    ensures ApplyReqOptions(x, req, ps).Success? ==>
      ApplyReqOptions(x, req, ps).value.requestId == req.requestId
      && ApplyReqOptions(x, req, ps).value.mechanism == req.mechanism
    decreases |ps|
  {
    if ps != [] {
      ApplyReqOptionFails(x, req, req, ps[0]);
      assert forall i :: 0 <= i < |ps[1..]| ==> ps[1..][i] == ps[i + 1];
      if !Rejected(x, ps[0]) {
        ApplyReqOptionFrame(x, req, ps[0]);
        ApplyReqOptionsAccepts(x, ApplyReqOption(x, req, ps[0]).value, ps[1..]);
      }
    }
  }

  /** The loop stops with the error of the first rejected option. */
  lemma {:induction false} ApplyReqOptionsFirstRejection(x: Externals, req: AuthReq, ps: seq<string>, i: nat)
    requires i < |ps| && Rejected(x, ps[i])
    requires forall j :: 0 <= j < i ==> !Rejected(x, ps[j])
    ensures ApplyReqOptions(x, req, ps) == ApplyReqOption(x, Blank("", ""), ps[i])
    decreases |ps|
  {
    ApplyReqOptionFails(x, req, req, ps[0]);
    if i == 0 {
      ApplyReqOptionFails(x, req, Blank("", ""), ps[0]);
    } else {
      assert !Rejected(x, ps[0]);
      assert forall j :: 0 <= j < |ps[1..]| ==> ps[1..][j] == ps[j + 1];
      ApplyReqOptionsFirstRejection(x, ApplyReqOption(x, req, ps[0]).value, ps[1..], i - 1);
    }
  }

  /** A field no option names keeps the value it started with. */
  lemma {:induction false} ApplyReqOptionsUntouched(x: Externals, req: AuthReq, ps: seq<string>, k: ReqKey)
    requires ApplyReqOptions(x, req, ps).Success?
    requires forall j :: 0 <= j < |ps| ==> KeyOf(ps[j]) != Some(k)
    ensures Agree(ApplyReqOptions(x, req, ps).value, req, k)
    decreases |ps|
  {
    if ps != [] {
      var next := ApplyReqOption(x, req, ps[0]).value;
      ApplyReqOptionFrame(x, req, ps[0]);
      assert forall j :: 0 <= j < |ps[1..]| ==> ps[1..][j] == ps[j + 1];
      ApplyReqOptionsUntouched(x, next, ps[1..], k);
    }
  }

  /** Last one wins: a field ends as the last option naming it sets it, whatever
      came before. */
  lemma {:induction false} ApplyReqOptionsLastWins(x: Externals, req: AuthReq, ps: seq<string>, k: ReqKey, i: nat)
    requires ApplyReqOptions(x, req, ps).Success?
    requires i < |ps| && KeyOf(ps[i]) == Some(k)
    requires forall j :: i < j < |ps| ==> KeyOf(ps[j]) != Some(k)
    ensures ApplyReqOption(x, req, ps[i]).Success?
    ensures Agree(ApplyReqOptions(x, req, ps).value, ApplyReqOption(x, req, ps[i]).value, k)
    decreases |ps|
  {
    var next := ApplyReqOption(x, req, ps[0]).value;
    assert forall j :: 0 <= j < |ps[1..]| ==> ps[1..][j] == ps[j + 1];
    if i == 0 {
      ApplyReqOptionsUntouched(x, next, ps[1..], k);
    } else {
      ApplyReqOptionsLastWins(x, next, ps[1..], k, i - 1);
      ApplyReqOptionSets(x, next, req, ps[i]);
    }
  }

  /** A flag is set exactly when it was already set or some option names it. */
  lemma {:induction false} ApplyReqOptionsFlag(x: Externals, req: AuthReq, ps: seq<string>, k: ReqKey)
    requires IsFlag(k)
    requires ApplyReqOptions(x, req, ps).Success?
    ensures Flag(ApplyReqOptions(x, req, ps).value, k)
        <==> Flag(req, k) || exists i :: 0 <= i < |ps| && KeyOf(ps[i]) == Some(k)
    decreases |ps|
  {
    if ps != [] {
      var next := ApplyReqOption(x, req, ps[0]).value;
      ApplyReqOptionFrame(x, req, ps[0]);
      ApplyReqOptionsFlag(x, next, ps[1..], k);
      if exists i :: 0 <= i < |ps[1..]| && KeyOf(ps[1..][i]) == Some(k) {
        var i :| 0 <= i < |ps[1..]| && KeyOf(ps[1..][i]) == Some(k);
        assert KeyOf(ps[i + 1]) == Some(k);
      }
      if exists i :: 0 <= i < |ps| && KeyOf(ps[i]) == Some(k) {
        var i :| 0 <= i < |ps| && KeyOf(ps[i]) == Some(k);
        if i > 0 {
          assert KeyOf(ps[1..][i - 1]) == Some(k);
        }
      }
    }
  }

  /** parseAuthReq fails with fewer than three parameters and otherwise exactly
      when some option is rejected; on success the request id and the mechanism
      are the first two parameters. */
  lemma ParseAuthReqAccepts(x: Externals, params: seq<string>)
    ensures |params| < 3 ==> ParseAuthReq(x, params) == Failure(NotEnoughRequestParams)
    ensures ParseAuthReq(x, params).Success?
        <==> |params| >= 3 && forall i :: 2 <= i < |params| ==> !Rejected(x, params[i])
    ensures ParseAuthReq(x, params).Success? ==>
      ParseAuthReq(x, params).value.requestId == params[0]
      && ParseAuthReq(x, params).value.mechanism == params[1]
  {
    if |params| >= 3 {
      var ps := params[2..];
      assert forall i :: 0 <= i < |ps| ==> ps[i] == params[i + 2];
      ApplyReqOptionsAccepts(x, Blank(params[0], params[1]), ps);
    }
  }

  /** A rejected request fails with the error of its first rejected option. */
  lemma ParseAuthReqFirstRejection(x: Externals, params: seq<string>, i: nat)
    requires 2 <= i < |params| && Rejected(x, params[i])
    requires forall j :: 2 <= j < i ==> !Rejected(x, params[j])
    ensures ParseAuthReq(x, params) == ApplyReqOption(x, Blank("", ""), params[i])
    ensures ParseAuthReq(x, params).Failure?
  {
    var ps := params[2..];
    assert forall j :: 0 <= j < |ps| ==> ps[j] == params[j + 2];
    ApplyReqOptionsFirstRejection(x, Blank(params[0], params[1]), ps, i - 2);
  }

  /** Last one wins: each field ends as the last option naming it sets it. */
  lemma ParseAuthReqLastWins(x: Externals, params: seq<string>, k: ReqKey, i: nat)
    requires ParseAuthReq(x, params).Success?
    requires 2 <= i < |params| && KeyOf(params[i]) == Some(k)
    requires forall j :: i < j < |params| ==> KeyOf(params[j]) != Some(k)
    ensures ApplyReqOption(x, Blank("", ""), params[i]).Success?
    ensures Agree(ParseAuthReq(x, params).value, ApplyReqOption(x, Blank("", ""), params[i]).value, k)
  {
    var ps := params[2..];
    var start := Blank(params[0], params[1]);
    assert forall j :: 0 <= j < |ps| ==> ps[j] == params[j + 2];
    ApplyReqOptionsLastWins(x, start, ps, k, i - 2);
    ApplyReqOptionSets(x, start, Blank("", ""), params[i]);
  }

  /** A field no option names keeps its zero value. */
  lemma ParseAuthReqUntouched(x: Externals, params: seq<string>, k: ReqKey)
    requires ParseAuthReq(x, params).Success?
    requires forall j :: 2 <= j < |params| ==> KeyOf(params[j]) != Some(k)
    ensures Agree(ParseAuthReq(x, params).value, Blank("", ""), k)
  {
    var ps := params[2..];
    assert forall j :: 0 <= j < |ps| ==> ps[j] == params[j + 2];
    ApplyReqOptionsUntouched(x, Blank(params[0], params[1]), ps, k);
  }

  /** The flags secured, valid-client-cert, no-penalty and cert_username are set
      exactly when an option names them. */
  lemma ParseAuthReqFlag(x: Externals, params: seq<string>, k: ReqKey)
    requires IsFlag(k)
    requires ParseAuthReq(x, params).Success?
    ensures Flag(ParseAuthReq(x, params).value, k) <==> exists i :: 2 <= i < |params| && KeyOf(params[i]) == Some(k)
  {
    var ps := params[2..];
    ApplyReqOptionsFlag(x, Blank(params[0], params[1]), ps, k);
    if exists i :: 0 <= i < |ps| && KeyOf(ps[i]) == Some(k) {
      var i :| 0 <= i < |ps| && KeyOf(ps[i]) == Some(k);
      assert KeyOf(params[i + 2]) == Some(k);
    }
    if exists i :: 2 <= i < |params| && KeyOf(params[i]) == Some(k) {
      var i :| 2 <= i < |params| && KeyOf(params[i]) == Some(k);
      assert KeyOf(ps[i - 2]) == Some(k);
    }
  }

  /** A bare "service" option makes parseAuthReq panic. */
  lemma BareServicePanics(x: Externals, requestId: string, mechanism: string)
    ensures ParseAuthReq(x, [requestId, mechanism, "service"]) == Failure(Panicked(IndexOutOfRange))
  {
    SplitOnceParts("service", '=');
    assert [requestId, mechanism, "service"][2..] == ["service"];
  }
}
