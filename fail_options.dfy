/** The vocabulary of FAIL replies shared by both declarations of parseFail and
    format: the option keys, the failure codes, and what each option token does
    to the code and the reason. */
module FailOptions {
  import opened Types
  import opened Strings

  /** The FailCode constants, including the values the legacy Dovecot 2.2 flags stand for. */
  const TempFail := "temp_fail"
  const AuthzFail := "authz_fail"
  const UserDisabled := "user_disabled"
  const PassExpired := "pass_expired"

  /** The option keys parseFail's switch recognises. */
  datatype FailKey = ReasonKey | CodeKey | TempKey | AuthzKey | UserDisabledKey | PassExpiredKey

  /** The switch of parseFail: the key a token's text before '=' names, if any. */
  function FailKeyOf(key: string): Option<FailKey> {
    if key == "reason" then Some(ReasonKey)
    else if key == "code" then Some(CodeKey)
    else if key == "temp" then Some(TempKey)
    else if key == "authz" then Some(AuthzKey)
    else if key == "user_disabled" then Some(UserDisabledKey)
    else if key == "pass_expired" then Some(PassExpiredKey)
    else None
  }

  /** The two fields a FAIL reply carries besides its request id. */
  datatype Field = Code | Reason

  /** The value option token `p` stores into `f`, or None when it leaves `f` alone.
      reason= and code= store what follows the first '='; the legacy flags store
      their code whatever follows them; a bare "reason" or "code" stores nothing. */
  function Sets(p: string, f: Field): Option<string> {
    var parts := SplitOnce(p, '=');
    match (FailKeyOf(parts[0]), f)
    case (Some(ReasonKey), Reason) => if |parts| < 2 then None else Some(parts[1])
    case (Some(CodeKey), Code) => if |parts| < 2 then None else Some(parts[1])
    case (Some(TempKey), Code) => Some(TempFail)
    case (Some(AuthzKey), Code) => Some(AuthzFail)
    case (Some(UserDisabledKey), Code) => Some(UserDisabled)
    case (Some(PassExpiredKey), Code) => Some(PassExpired)
    case _ => None
  }

  /** The value the last token of `ps` that sets `f` stores, or None when no
      token sets it. */
  function LastSet(ps: seq<string>, f: Field): Option<string>
    decreases |ps|
  {
    if ps == [] then None
    else match LastSet(ps[1..], f)
      case Some(v) => Some(v)
      case None => Sets(ps[0], f)
  }

  /** Neither field is set by a key without '=' that needs a value. */
  lemma BareKeysSkipped(f: Field)
    ensures Sets("reason", f).None? && Sets("code", f).None?
  {
    SplitOnceParts("reason", '=');
    SplitOnceParts("code", '=');
  }

  /** A field value format sends: non-empty and free of tab and newline. */
  predicate Sendable(s: string) {
    s != [] && !HasFramingChar(s)
  }

  /** What a field comes back as after format and parseFail: itself when
      sendable, empty otherwise. */
  function Kept(s: string): (k: string)
    ensures !HasFramingChar(s) ==> k == s
    ensures HasFramingChar(s) ==> k == []
  {
    if Sendable(s) then s else []
  }

  /** The option tokens format emits for a reason and a code, in that order. */
  function Options(reason: string, code: string): (ps: seq<string>)
    ensures |ps| <= 2
  {
    (if Sendable(reason) then ["reason=" + reason] else [])
    + (if Sendable(code) then ["code=" + code] else [])
  }

  /** The token emitted for a sendable value sets that field to the value, and
      leaves the other field alone. */
  lemma SetsOption(v: string, f: Field)
    ensures Sets("reason=" + v, f) == if f == Reason then Some(v) else None
    ensures Sets("code=" + v, f) == if f == Code then Some(v) else None
  {
    SplitOnceJoined("reason", v, '=');
    assert "reason=" + v == "reason" + ['='] + v;
    SplitOnceJoined("code", v, '=');
    assert "code=" + v == "code" + ['='] + v;
  }
}
