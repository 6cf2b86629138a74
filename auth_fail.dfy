/** auth_fail.go: the older declaration of the FAIL reply codec, whose
    parameters are all options (there is no request-id slot). */
module AuthFailLegacy {
  import opened Types
  import opened Strings
  import opened FailOptions

  datatype AuthFail = AuthFail(code: string, reason: string)

  const Zero := AuthFail("", "")

  function Get(af: AuthFail, f: Field): string {
    match f
    case Code => af.code
    case Reason => af.reason
  }

  /** Two failures with the same code and reason are equal. */
  lemma AuthFailExt(a: AuthFail, b: AuthFail)
    requires Get(a, Code) == Get(b, Code) && Get(a, Reason) == Get(b, Reason)
    ensures a == b
  {
  }

  /** One iteration of parseFail's loop: the text before the first '=' selects
      the case of the switch. */
  function ApplyOption(af: AuthFail, p: string): (r: AuthFail)
    ensures r.code == Sets(p, Code).GetOr(af.code)
    ensures r.reason == Sets(p, Reason).GetOr(af.reason)
  {
    var parts := SplitOnce(p, '=');
    match FailKeyOf(parts[0])
    case Some(ReasonKey) => if |parts| < 2 then af else af.(reason := parts[1])
    case Some(CodeKey) => if |parts| < 2 then af else af.(code := parts[1])
    case Some(TempKey) => af.(code := TempFail)
    case Some(AuthzKey) => af.(code := AuthzFail)
    case Some(UserDisabledKey) => af.(code := UserDisabled)
    case Some(PassExpiredKey) => af.(code := PassExpired)
    case None => af
  }

  /** parseFail's loop over the option tokens, left to right. */
  function ApplyOptions(af: AuthFail, ps: seq<string>): (r: AuthFail)
    ensures r.code == LastSet(ps, Code).GetOr(af.code)
    ensures r.reason == LastSet(ps, Reason).GetOr(af.reason)
    decreases |ps|
  {
    if ps == [] then af else ApplyOptions(ApplyOption(af, ps[0]), ps[1..])
  }

  /** parseFail of auth_fail.go: every parameter is an option. */
  function ParseFail(optParams: seq<string>): (r: AuthFail)
    ensures r == AuthFail(LastSet(optParams, Code).GetOr(""), LastSet(optParams, Reason).GetOr(""))
  {
    ApplyOptions(Zero, optParams)
  }

  /** A field no token sets keeps its value; in particular an empty or
      option-free list parses to the zero value. */
  lemma {:induction false} Untouched(af: AuthFail, ps: seq<string>, f: Field)
    requires forall j :: 0 <= j < |ps| ==> Sets(ps[j], f).None?
    ensures Get(ApplyOptions(af, ps), f) == Get(af, f)
    decreases |ps|
  {
    if ps != [] {
      assert forall j :: 0 <= j < |ps[1..]| ==> ps[1..][j] == ps[j + 1];
      Untouched(ApplyOption(af, ps[0]), ps[1..], f);
    }
  }

  /** Last one wins: a field ends with the value of the last token that sets it. */
  lemma {:induction false} LastWins(af: AuthFail, ps: seq<string>, f: Field, k: nat)
    requires k < |ps| && Sets(ps[k], f).Some?
    requires forall j :: k < j < |ps| ==> Sets(ps[j], f).None?
    ensures Get(ApplyOptions(af, ps), f) == Sets(ps[k], f).value
    decreases |ps|
  {
    assert forall j :: 0 <= j < |ps[1..]| ==> ps[1..][j] == ps[j + 1];
    if k == 0 {
      Untouched(ApplyOption(af, ps[0]), ps[1..], f);
    } else {
      LastWins(ApplyOption(af, ps[0]), ps[1..], f, k - 1);
    }
  }

  /** format of auth_fail.go: reason= then code=, each only when sendable. */
  function Format(af: AuthFail): (ps: seq<string>)
    ensures |ps| <= 2
  {
    Options(af.reason, af.code)
  }

  /** Round trip: parsing what format emits gives back each field that was
      sendable; a field holding a tab or newline comes back empty. */
  lemma RoundTrip(af: AuthFail)
    ensures ParseFail(Format(af)) == AuthFail(Kept(af.code), Kept(af.reason))
  {
    var ps := Format(af);
    SetsOption(af.reason, Reason);
    SetsOption(af.reason, Code);
    SetsOption(af.code, Reason);
    SetsOption(af.code, Code);
    if Sendable(af.reason) {
      LastWins(Zero, ps, Reason, 0);
    } else {
      Untouched(Zero, ps, Reason);
    }
    if Sendable(af.code) {
      LastWins(Zero, ps, Code, |ps| - 1);
    } else {
      Untouched(Zero, ps, Code);
    }
    AuthFailExt(ParseFail(ps), AuthFail(Kept(af.code), Kept(af.reason)));
  }

  /** Without tab or newline in either field the codec is an exact round trip. */
  lemma RoundTripClean(af: AuthFail)
    requires !HasFramingChar(af.code) && !HasFramingChar(af.reason)
    ensures ParseFail(Format(af)) == af
  {
    RoundTrip(af);
  }
}
