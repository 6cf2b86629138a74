/** handshake.go: the mechanism catalog codec, the connection information both
    sides build, and the two roles of the handshake. */
module Handshake {
  import opened Types
  import opened Strings
  import opened Conn

  /** A mechanism's seven capability flags (its name is the catalog key). */
  datatype Mechanism = Mechanism(
    anonymous: bool,
    plaintext: bool,
    dictonary: bool,
    active: bool,
    forwardSecrecy: bool,
    mutualAuth: bool,
    privateUse: bool)

  const NoCapabilities := Mechanism(false, false, false, false, false, false, false)

  /** The seven capabilities a mechanism can declare. */
  datatype Capability = Anonymous | Plaintext | Dictonary | Active | ForwardSecrecy | MutualAuth | Private

  /** The wire literal of each capability; "dictonary" is spelled as on the
      wire. The switch of parseMech recognises every literal as its capability. */
  function Literal(c: Capability): (s: string)
    ensures CapabilityOf(s) == Some(c)
  {
    match c
    case Anonymous => "anonymous"
    case Plaintext => "plaintext"
    case Dictonary => "dictonary"
    case Active => "active"
    case ForwardSecrecy => "forward-secrecy"
    case MutualAuth => "mutual-auth"
    case Private => "private"
  }

  /** The switch of parseMech: the capability a token names, if any. Matching is
      exact and case-sensitive. */
  function CapabilityOf(tok: string): Option<Capability> {
    if tok == "anonymous" then Some(Anonymous)
    else if tok == "plaintext" then Some(Plaintext)
    else if tok == "dictonary" then Some(Dictonary)
    else if tok == "active" then Some(Active)
    else if tok == "forward-secrecy" then Some(ForwardSecrecy)
    else if tok == "mutual-auth" then Some(MutualAuth)
    else if tok == "private" then Some(Private)
    else None
  }

  /** A token names a capability exactly when it is that capability's literal. */
  lemma CapabilityOfLiteral(tok: string, c: Capability)
    ensures CapabilityOf(tok) == Some(c) <==> tok == Literal(c)
  {
  }

  /** Whether mechanism `m` has capability `c` set. */
  function Has(m: Mechanism, c: Capability): bool {
    match c
    case Anonymous => m.anonymous
    case Plaintext => m.plaintext
    case Dictonary => m.dictonary
    case Active => m.active
    case ForwardSecrecy => m.forwardSecrecy
    case MutualAuth => m.mutualAuth
    case Private => m.privateUse
  }

  /** Two mechanisms with the same capabilities are equal. */
  lemma MechanismExt(a: Mechanism, b: Mechanism)
    requires forall c :: Has(a, c) == Has(b, c)
    ensures a == b
  {
    assert Has(a, Anonymous) == Has(b, Anonymous);
    assert Has(a, Plaintext) == Has(b, Plaintext);
    assert Has(a, Dictonary) == Has(b, Dictonary);
    assert Has(a, Active) == Has(b, Active);
    assert Has(a, ForwardSecrecy) == Has(b, ForwardSecrecy);
    assert Has(a, MutualAuth) == Has(b, MutualAuth);
    assert Has(a, Private) == Has(b, Private);
  }

  /** Setting one flag leaves the six others as they were. */
  function With(m: Mechanism, c: Capability): (r: Mechanism)
    ensures forall d :: Has(r, d) == (Has(m, d) || d == c)
  {
    match c
    case Anonymous => m.(anonymous := true)
    case Plaintext => m.(plaintext := true)
    case Dictonary => m.(dictonary := true)
    case Active => m.(active := true)
    case ForwardSecrecy => m.(forwardSecrecy := true)
    case MutualAuth => m.(mutualAuth := true)
    case Private => m.(privateUse := true)
  }

  /** Some token of `toks` names capability `c`. */
  predicate Mentions(toks: seq<string>, c: Capability) {
    exists i :: 0 <= i < |toks| && CapabilityOf(toks[i]) == Some(c)
  }

  /** One step of parseMech's loop: a known literal sets its flag, anything else is ignored. */
  function WithToken(m: Mechanism, tok: string): Mechanism {
    match CapabilityOf(tok)
    case None => m
    case Some(c) => With(m, c)
  }

  /** parseMech's loop over the capability tokens: it only ever sets flags, each
      one exactly when some token names it; order, repeats and unknown tokens do
      not matter. */
  function WithTokens(m: Mechanism, toks: seq<string>): (r: Mechanism)
    ensures forall c :: Has(r, c) == (Has(m, c) || Mentions(toks, c))
    decreases |toks|
  {
    if toks == [] then m
    else
      var r := WithTokens(WithToken(m, toks[0]), toks[1..]);
      assert forall c :: Mentions(toks, c) <==> CapabilityOf(toks[0]) == Some(c) || Mentions(toks[1..], c) by {
        forall c ensures Mentions(toks, c) <==> CapabilityOf(toks[0]) == Some(c) || Mentions(toks[1..], c) {
          if Mentions(toks, c) {
            var i :| 0 <= i < |toks| && CapabilityOf(toks[i]) == Some(c);
            if i > 0 { assert toks[1..][i - 1] == toks[i]; }
          }
          if Mentions(toks[1..], c) {
            var i :| 0 <= i < |toks[1..]| && CapabilityOf(toks[1..][i]) == Some(c);
            assert toks[i + 1] == toks[1..][i];
          }
        }
      }
      r
  }

  /** parseMech: the first parameter is the name; a flag is set exactly when one
      of the remaining parameters is its literal. */
  function ParseMech(params: seq<string>): (r: Result<(string, Mechanism)>)
    ensures params == [] <==> r == Failure(MissingMechanismName)
    ensures params != [] ==> r.Success? && r.value.0 == params[0]
    ensures params != [] ==> forall c :: Has(r.value.1, c) == Mentions(params[1..], c)
  {
    if params == [] then Failure(MissingMechanismName)
    else Success((params[0], WithTokens(NoCapabilities, params[1..])))
  }

  function FlagCount(m: Mechanism): nat {
    (if m.anonymous then 1 else 0) + (if m.plaintext then 1 else 0) + (if m.dictonary then 1 else 0)
    + (if m.active then 1 else 0) + (if m.forwardSecrecy then 1 else 0)
    + (if m.mutualAuth then 1 else 0) + (if m.privateUse then 1 else 0)
  }

  /** The token advertising capability `c` when `flag` is set. */
  function Emit(flag: bool, c: Capability): (r: seq<string>)
    ensures |r| == (if flag then 1 else 0)
  {
    if flag then [Literal(c)] else []
  }

  /** The emitted token names its capability and no other. */
  lemma MentionsEmit(flag: bool, c: Capability, d: Capability)
    ensures Mentions(Emit(flag, c), d) == (flag && d == c)
  {
    if flag && d == c {
      assert CapabilityOf(Emit(flag, c)[0]) == Some(d);
    }
  }

  /** A capability is named in a concatenation when it is named in either part. */
  lemma MentionsAppend(a: seq<string>, b: seq<string>, c: Capability)
    ensures Mentions(a + b, c) == (Mentions(a, c) || Mentions(b, c))
  {
    if Mentions(a + b, c) {
      var i :| 0 <= i < |a + b| && CapabilityOf((a + b)[i]) == Some(c);
      if i >= |a| { assert b[i - |a|] == (a + b)[i]; }
    }
    if Mentions(a, c) {
      var i :| 0 <= i < |a| && CapabilityOf(a[i]) == Some(c);
      assert (a + b)[i] == a[i];
    }
    if Mentions(b, c) {
      var i :| 0 <= i < |b| && CapabilityOf(b[i]) == Some(c);
      assert (a + b)[i + |a|] == b[i];
    }
  }

  /** The literals of the set flags, in the fixed order of Mechanism.format. A
      private mechanism is advertised with the "mutual-auth" literal, as the
      source does; "private" is never emitted. */
  function CapabilityTokens(m: Mechanism): seq<string>
  {
    Emit(m.anonymous, Anonymous) + Emit(m.plaintext, Plaintext) + Emit(m.dictonary, Dictonary)
    + Emit(m.active, Active) + Emit(m.forwardSecrecy, ForwardSecrecy) + Emit(m.mutualAuth, MutualAuth)
    + Emit(m.privateUse, MutualAuth)
  }

  /** Mechanism.format: the name, then the literal of every set flag. */
  function Format(m: Mechanism, name: string): (r: seq<string>)
    ensures |r| == 1 + FlagCount(m) && r[0] == name
  {
    [name] + CapabilityTokens(m)
  }

  /** Whether the catalog entry of `m` announces capability `c`: the private flag
      is announced as mutual-auth. */
  function Advertises(m: Mechanism, c: Capability): bool {
    match c
    case Private => false
    case MutualAuth => m.mutualAuth || m.privateUse
    case _ => Has(m, c)
  }

  /** The capabilities an advertised entry names: those set, with Private shown
      as MutualAuth and never as itself. */
  lemma FormatMentions(m: Mechanism, name: string)
    ensures forall c :: Mentions(Format(m, name)[1..], c) == Advertises(m, c)
  {
    assert Format(m, name)[1..] == CapabilityTokens(m);
    var e1, e2, e3, e4 := Emit(m.anonymous, Anonymous), Emit(m.plaintext, Plaintext), Emit(m.dictonary, Dictonary), Emit(m.active, Active);
    var e5, e6, e7 := Emit(m.forwardSecrecy, ForwardSecrecy), Emit(m.mutualAuth, MutualAuth), Emit(m.privateUse, MutualAuth);
    forall c ensures Mentions(CapabilityTokens(m), c) == Advertises(m, c) {
      MentionsEmit(m.anonymous, Anonymous, c);
      MentionsEmit(m.plaintext, Plaintext, c);
      MentionsEmit(m.dictonary, Dictonary, c);
      MentionsEmit(m.active, Active, c);
      MentionsEmit(m.forwardSecrecy, ForwardSecrecy, c);
      MentionsEmit(m.mutualAuth, MutualAuth, c);
      MentionsEmit(m.privateUse, MutualAuth, c);
      MentionsAppend(e1, e2, c);
      MentionsAppend(e1 + e2, e3, c);
      MentionsAppend(e1 + e2 + e3, e4, c);
      MentionsAppend(e1 + e2 + e3 + e4, e5, c);
      MentionsAppend(e1 + e2 + e3 + e4 + e5, e6, c);
      MentionsAppend(e1 + e2 + e3 + e4 + e5 + e6, e7, c);
    }
  }

  /** The advertised list never names the private capability. */
  lemma FormatShape(m: Mechanism, name: string)
    ensures !Mentions(Format(m, name)[1..], Private)
  {
    FormatMentions(m, name);
  }

  /** Catalog round trip: parsing a formatted entry gives back the name and the
      flags, except that a private mechanism comes back as mutual-auth and not private. */
  lemma FormatRoundTrip(m: Mechanism, name: string)
    ensures ParseMech(Format(m, name))
         == Success((name, if m.privateUse then m.(privateUse := false, mutualAuth := true) else m))
  {
    FormatMentions(m, name);
    MechanismExt(ParseMech(Format(m, name)).value.1, if m.privateUse then m.(privateUse := false, mutualAuth := true) else m);
  }

  /** Without the private flag the catalog codec is an exact round trip. */
  lemma FormatRoundTripPublic(m: Mechanism, name: string)
    requires !m.privateUse
    ensures ParseMech(Format(m, name)) == Success((name, m))
  {
    FormatRoundTrip(m, name);
  }

  /** A token that names no capability is ignored. */
  lemma ParseMechIgnoresUnknown(params: seq<string>, tok: string)
    requires params != []
    requires CapabilityOf(tok).None?
    ensures ParseMech(params + [tok]) == ParseMech(params)
  {
    var p2 := params + [tok];
    assert p2[1..] == params[1..] + [tok];
    forall c ensures Mentions(p2[1..], c) == Mentions(params[1..], c) {
      if Mentions(p2[1..], c) {
        var i :| 0 <= i < |p2[1..]| && CapabilityOf(p2[1..][i]) == Some(c);
        assert params[1..][i] == p2[1..][i];
      }
      if Mentions(params[1..], c) {
        var i :| 0 <= i < |params[1..]| && CapabilityOf(params[1..][i]) == Some(c);
        assert p2[1..][i] == params[1..][i];
      }
    }
    MechanismExt(ParseMech(p2).value.1, ParseMech(params).value.1);
  }

  /** The information a handshake gathers about the connection. */
  datatype ConnInfo = ConnInfo(
    cpid: string,
    spid: string,
    cuid: string,
    cookie: string,
    mechs: map<string, Mechanism>)

  function HexDigit(d: nat): char
    requires d < 16
  {
    "0123456789abcdef"[d]
  }

  /** hex.EncodeToString: two lower-case hex digits per byte. */
  function Hex(b: Bytes): (s: string)
    ensures |s| == 2 * |b|
  {
    if b == [] then "" else [HexDigit(b[0] / 16), HexDigit(b[0] % 16)] + Hex(b[1..])
  }

  /** Byte i of the input is written as characters 2i and 2i+1: its high and low
      nibbles as lower-case hex digits. */
  lemma {:induction false} HexDigits(b: Bytes, i: nat)
    requires i < |b|
    ensures Hex(b)[2 * i] == HexDigit(b[i] / 16) && Hex(b)[2 * i + 1] == HexDigit(b[i] % 16)
  {
    if i > 0 {
      HexDigits(b[1..], i - 1);
    }
  }

  /** A cookie holds neither tab nor newline, so it travels as one parameter. */
  lemma {:induction false} HexNoFraming(b: Bytes)
    ensures !HasFramingChar(Hex(b))
  {
    if b != [] {
      HexNoFraming(b[1..]);
      assert Hex(b) == [HexDigit(b[0] / 16), HexDigit(b[0] % 16)] + Hex(b[1..]);
    }
  }

  /** The session cookie made from 16 random bytes is 32 hex characters. */
  lemma CookieLength(cookieBytes: Bytes)
    requires |cookieBytes| == 16
    ensures |Hex(cookieBytes)| == 32
  {
  }

  /** The MECH messages for the catalog entries named in `order`, in that order. */
  function MechLines(order: seq<string>, mechs: map<string, Mechanism>): seq<Line>
    requires forall i :: 0 <= i < |order| ==> order[i] in mechs
  {
    if order == [] then []
    else
      var n := order[|order| - 1];
      MechLines(order[..|order| - 1], mechs) + [Line("MECH", Format(mechs[n], n))]
  }

  /** Naming one more entry adds its MECH message. */
  lemma MechLinesSnoc(order: seq<string>, name: string, mechs: map<string, Mechanism>)
    requires forall i :: 0 <= i < |order| ==> order[i] in mechs
    requires name in mechs
    ensures MechLines(order + [name], mechs) == MechLines(order, mechs) + [Line("MECH", Format(mechs[name], name))]
  {
    assert (order + [name])[..|order|] == order;
  }

  /** `order` lists every name of `names` exactly once. */
  ghost predicate Enumerates(order: seq<string>, names: set<string>) {
    && (forall i, j :: 0 <= i < j < |order| ==> order[i] != order[j])
    && (forall n :: n in order <==> n in names)
  }

  /** The server's greeting before the catalog. */
  function ServerGreeting(spid: string, cuid: string, cookie: string): seq<Line> {
    [Line("VERSION", ["1", "1"]), Line("SPID", [spid]), Line("CUID", [cuid]), Line("COOKIE", [cookie])]
  }

  /** Taking one more name out of `remaining` keeps `order` listing, once
      each, exactly the names already taken. */
  lemma EnumerateStep(order: seq<string>, keys: set<string>, remaining: set<string>, name: string)
    requires remaining <= keys && name in remaining
    requires forall i, j :: 0 <= i < j < |order| ==> order[i] != order[j]
    requires forall n :: n in order <==> n in keys - remaining
    ensures forall i, j :: 0 <= i < j < |order + [name]| ==> (order + [name])[i] != (order + [name])[j]
    ensures forall n :: n in order + [name] <==> n in keys - (remaining - {name})
  {
    assert name !in order;
  }

  /** Writes one MECH message per catalog entry, in Go's unspecified map order. */
  method WriteMechs(c: Connection, mechs: map<string, Mechanism>) returns (ghost order: seq<string>)
    modifies c`out
    ensures Enumerates(order, mechs.Keys)
    ensures c.out == old(c.out) + Frames(MechLines(order, mechs))
  {
    var remaining := mechs.Keys;
    order := [];
    ghost var lines: seq<Line> := [];
    while remaining != {}
      invariant remaining <= mechs.Keys
      invariant forall i :: 0 <= i < |order| ==> order[i] in mechs
      invariant forall i, j :: 0 <= i < j < |order| ==> order[i] != order[j]
      invariant forall n :: n in order <==> n in mechs.Keys - remaining
      invariant lines == MechLines(order, mechs)
      invariant c.out == old(c.out) + Frames(lines)
      decreases remaining
    {
      var name :| name in remaining;
      EnumerateStep(order, mechs.Keys, remaining, name);
      var l := Line("MECH", Format(mechs[name], name));
      c.Writeln(l.cmd, l.params);
      OutputSnoc(old(c.out), lines, l);
      MechLinesSnoc(order, name, mechs);
      lines := lines + [l];
      order := order + [name];
      remaining := remaining - {name};
    }
  }


  /** Writes the greeting that precedes the catalog: VERSION 1 1, SPID, CUID and COOKIE. */
  method WriteGreeting(c: Connection, spid: string, cuid: string, cookie: string)
    modifies c`out
    ensures c.out == old(c.out) + Frames(ServerGreeting(spid, cuid, cookie))
  {
    c.Writeln("VERSION", ["1", "1"]);
    c.Writeln("SPID", [spid]);
    c.Writeln("CUID", [cuid]);
    c.Writeln("COOKIE", [cookie]);
    ghost var greeting := ServerGreeting(spid, cuid, cookie);
    FramesFour(greeting[0], greeting[1], greeting[2], greeting[3]);
    assert greeting == [greeting[0], greeting[1], greeting[2], greeting[3]];
  }

  /** Writes the greeting, then one MECH message per catalog entry in Go's
      unspecified map order. */
  method WriteAdvertisement(c: Connection, spid: string, cuid: string, cookie: string, mechs: map<string, Mechanism>)
    returns (ghost order: seq<string>)
    modifies c`out
    ensures Enumerates(order, mechs.Keys)
    ensures c.out == old(c.out) + Frames(ServerGreeting(spid, cuid, cookie) + MechLines(order, mechs))
  {
    WriteGreeting(c, spid, cuid, cookie);
    order := WriteMechs(c, mechs);
    FramesAppend(ServerGreeting(spid, cuid, cookie), MechLines(order, mechs));
  }

  /** What the server reads back after its greeting: VERSION with at least two
      parameters, then CPID with at least one. The value is the client's pid. */
  function ExpectClientGreeting(lines: seq<string>, readErr: Option<string>): (r: Reply<string>)
    ensures r.consumed <= |lines|
  {
    match ExpectNext(lines, readErr, "VERSION", 2)
    case Failure(e) => Reply(Failure(e), Consumed(lines, 1))
    case Success(version) =>
      if version[0] != "1" then Reply(Failure(IncompatibleClientVersion(version[0], version[1])), 1)
      else
        match ExpectNext(lines[1..], readErr, "CPID", 1)
        case Failure(e) => Reply(Failure(e), Consumed(lines, 2))
        case Success(cpid) => Reply(Success(cpid[0]), 2)
  }

  /** The number of lines reading `n` of them takes from `lines`. */
  function Consumed(lines: seq<string>, n: nat): (k: nat)
    ensures k <= |lines| && k <= n
    ensures k == n || k == |lines|
  {
    if n <= |lines| then n else |lines|
  }

  /** The server accepts the client exactly when the first message is VERSION
      with major "1" and at least two parameters and the second is CPID with at
      least one; the pid is then CPID's first parameter and two lines are read. */
  lemma ExpectClientGreetingAccepts(lines: seq<string>, readErr: Option<string>)
    ensures ExpectClientGreeting(lines, readErr).result.Success? <==>
      && |lines| >= 2
      && SplitLine(lines[0]).cmd == "VERSION" && |SplitLine(lines[0]).params| >= 2
      && SplitLine(lines[0]).params[0] == "1"
      && SplitLine(lines[1]).cmd == "CPID" && |SplitLine(lines[1]).params| >= 1
    ensures ExpectClientGreeting(lines, readErr).result.Success? ==>
      && ExpectClientGreeting(lines, readErr).result.value == SplitLine(lines[1]).params[0]
      && ExpectClientGreeting(lines, readErr).consumed == 2
  {
    if |lines| >= 1 {
      assert lines[1..] == [] <==> |lines| < 2;
      if |lines| >= 2 {
        assert lines[1..][0] == lines[1];
      }
    }
  }

  /** A client announcing another major version is refused, naming both numbers. */
  lemma ExpectClientGreetingRejectsVersion(lines: seq<string>, readErr: Option<string>)
    requires lines != []
    requires SplitLine(lines[0]).cmd == "VERSION" && |SplitLine(lines[0]).params| >= 2
    requires SplitLine(lines[0]).params[0] != "1"
    ensures ExpectClientGreeting(lines, readErr).result
         == Failure(IncompatibleClientVersion(SplitLine(lines[0]).params[0], SplitLine(lines[0]).params[1]))
  {
  }

  /** handshakeServer of handshake.go: the greeting, the catalog and DONE are
      written before anything is read; then the client's VERSION (major 1) and
      CPID are required. The process id and the 16 cookie bytes are inputs. */
  method HandshakeServer(c: Connection, cuid: string, mechs: map<string, Mechanism>, pid: nat, cookieBytes: Bytes)
    returns (r: Result<ConnInfo>, ghost order: seq<string>)
    requires |cookieBytes| == 16
    modifies c
    ensures Enumerates(order, mechs.Keys)
    ensures c.out == old(c.out)
      + Frames(ServerGreeting(Itoa(pid), cuid, Hex(cookieBytes)) + MechLines(order, mechs) + [Line("DONE", [])])
    ensures var hello := ExpectClientGreeting(old(c.input), c.readErr);
      && c.input == old(c.input)[hello.consumed..]
      && r == match hello.result
              case Success(cpid) => Success(ConnInfo(cpid, Itoa(pid), cuid, Hex(cookieBytes), mechs))
              case Failure(e) => Failure(e)
  {
    var info := ConnInfo("", Itoa(pid), cuid, Hex(cookieBytes), mechs);
    CookieLength(cookieBytes);
    order := WriteAdvertisement(c, info.spid, info.cuid, info.cookie, info.mechs);
    c.Writeln("DONE", []);
    FramesSnoc(ServerGreeting(info.spid, info.cuid, info.cookie) + MechLines(order, mechs), Line("DONE", []));

    var cpid := ReadClientGreeting(c);
    if cpid.Failure? {
      return Failure(cpid.error), order;
    }
    info := info.(cpid := cpid.value);
    return Success(info), order;
  }

  /** The reads of handshakeServer: VERSION with major "1", then CPID. */
  method ReadClientGreeting(c: Connection) returns (r: Result<string>)
    modifies c`input
    ensures var hello := ExpectClientGreeting(old(c.input), c.readErr);
      r == hello.result && c.input == old(c.input)[hello.consumed..]
  {
    var version := c.ReadlnExpect("VERSION", 2);
    if version.Failure? {
      return Failure(version.error);
    }
    if version.value[0] != "1" {
      return Failure(IncompatibleClientVersion(version.value[0], version.value[1]));
    }
    var cpid := c.ReadlnExpect("CPID", 1);
    if cpid.Failure? {
      return Failure(cpid.error);
    }
    return Success(cpid.value[0]);
  }

  /** The information a client starts from: its own process id and an empty catalog. */
  function InitialClientInfo(pid: nat): ConnInfo {
    ConnInfo(Itoa(pid), "", "", "", map[])
  }

  /** What handshakeClient does with one received message other than DONE. */
  function ClientStep(info: ConnInfo, l: Line): (r: Result<ConnInfo>)
    ensures r.Success? ==> r.value.cpid == info.cpid
    ensures r.Success? && CommandOf(l.cmd) == Some(SPID) ==> l.params != [] && r.value.spid == l.params[0]
    ensures r.Success? && CommandOf(l.cmd) == Some(CUID) ==> l.params != [] && r.value.cuid == l.params[0]
    ensures r.Success? && CommandOf(l.cmd) == Some(COOKIE) ==> l.params != [] && r.value.cookie == l.params[0]
    ensures r.Success? && CommandOf(l.cmd) != Some(SPID) ==> r.value.spid == info.spid
    ensures r.Success? && CommandOf(l.cmd) != Some(CUID) ==> r.value.cuid == info.cuid
    ensures r.Success? && CommandOf(l.cmd) != Some(COOKIE) ==> r.value.cookie == info.cookie
  {
    match CommandOf(l.cmd)
    case Some(VERSION) =>
      if |l.params| == 0 then Failure(MissingParameter("VERSION"))
      else if l.params[0] != "1" then
        // params[1] is read without a length check: a one-parameter VERSION panics
        if |l.params| < 2 then Failure(Panicked(IndexOutOfRange))
        else Failure(IncompatibleServerVersion(l.params[0], l.params[1]))
      else Success(info)
    case Some(MECH) =>
      (match ParseMech(l.params)
       case Failure(e) => Failure(e)
       case Success(entry) => Success(info.(mechs := info.mechs[entry.0 := entry.1])))
    case Some(SPID) =>
      if |l.params| == 0 then Failure(MissingParameter("SPID")) else Success(info.(spid := l.params[0]))
    case Some(CUID) =>
      if |l.params| == 0 then Failure(MissingParameter("CUID")) else Success(info.(cuid := l.params[0]))
    case Some(COOKIE) =>
      if |l.params| == 0 then Failure(MissingParameter("COOKIE")) else Success(info.(cookie := l.params[0]))
    case _ => Success(info)
  }

  /** The messages handshakeClient refuses, independently of what it has gathered. */
  predicate Refused(l: Line) {
    match CommandOf(l.cmd)
    case Some(VERSION) => l.params == [] || l.params[0] != "1"
    case Some(MECH) => l.params == []
    case Some(SPID) => l.params == []
    case Some(CUID) => l.params == []
    case Some(COOKIE) => l.params == []
    case _ => false
  }

  /** A message is refused exactly when it is one of the malformed kinds. */
  lemma ClientStepRefuses(info: ConnInfo, l: Line)
    ensures ClientStep(info, l).Failure? <==> Refused(l)
  {
  }

  /** handshakeClient's loop over the received messages, up to and including DONE. */
  function Negotiate(msgs: seq<Line>, readErr: Option<string>, info: ConnInfo): (n: Reply<ConnInfo>)
    ensures n.consumed <= |msgs|
    decreases |msgs|
  {
    if msgs == [] then Reply(Failure(EndOfInput(readErr)), 0)
    else if CommandOf(msgs[0].cmd) == Some(DONE) then Reply(Success(info), 1)
    else
      match ClientStep(info, msgs[0])
      case Failure(e) => Reply(Failure(e), 1)
      case Success(next) =>
        var n := Negotiate(msgs[1..], readErr, next);
        Reply(n.result, n.consumed + 1)
  }

  /** The index of the first DONE message, or the number of messages when there is none. */
  function DoneAt(msgs: seq<Line>): (d: nat)
    ensures d <= |msgs|
    ensures forall k :: 0 <= k < d ==> CommandOf(msgs[k].cmd) != Some(DONE)
    ensures d < |msgs| ==> CommandOf(msgs[d].cmd) == Some(DONE)
  {
    if msgs == [] then 0
    else if CommandOf(msgs[0].cmd) == Some(DONE) then 0
    else 1 + DoneAt(msgs[1..])
  }

  /** The client handshake succeeds exactly when a DONE message arrives and no
      message before it is refused; it then has read up to and including DONE. */
  lemma {:induction false} NegotiateSucceeds(msgs: seq<Line>, readErr: Option<string>, info: ConnInfo)
    ensures Negotiate(msgs, readErr, info).result.Success?
        <==> DoneAt(msgs) < |msgs| && forall k :: 0 <= k < DoneAt(msgs) ==> !Refused(msgs[k])
    ensures Negotiate(msgs, readErr, info).result.Success?
        ==> Negotiate(msgs, readErr, info).consumed == DoneAt(msgs) + 1
  {
    if msgs != [] && CommandOf(msgs[0].cmd) != Some(DONE) {
      ClientStepRefuses(info, msgs[0]);
      if ClientStep(info, msgs[0]).Success? {
        NegotiateSucceeds(msgs[1..], readErr, ClientStep(info, msgs[0]).value);
        assert forall k :: 1 <= k < DoneAt(msgs) ==> msgs[k] == msgs[1..][k - 1];
      }
    }
  }

  /** A server VERSION whose major is not "1", before DONE, fails the handshake. */
  lemma NegotiateRejectsVersion(msgs: seq<Line>, readErr: Option<string>, info: ConnInfo, k: nat)
    requires k < DoneAt(msgs)
    requires CommandOf(msgs[k].cmd) == Some(VERSION) && msgs[k].params != []
    requires msgs[k].params[0] != "1"
    ensures Negotiate(msgs, readErr, info).result.Failure?
  {
    NegotiateSucceeds(msgs, readErr, info);
  }

  /** `l` is a MECH message for mechanism `name`. */
  predicate MechFor(l: Line, name: string) {
    CommandOf(l.cmd) == Some(MECH) && l.params != [] && l.params[0] == name
  }

  /** Without MECH messages for `name` before DONE, the catalog entry for `name`
      is what it was. */
  lemma {:induction false} NegotiateKeepsMech(msgs: seq<Line>, readErr: Option<string>, info: ConnInfo, name: string)
    requires Negotiate(msgs, readErr, info).result.Success?
    requires forall j :: 0 <= j < DoneAt(msgs) ==> !MechFor(msgs[j], name)
    ensures var fin := Negotiate(msgs, readErr, info).result.value;
      && (name in fin.mechs <==> name in info.mechs)
      && (name in info.mechs ==> fin.mechs[name] == info.mechs[name])
  {
    if msgs != [] && CommandOf(msgs[0].cmd) != Some(DONE) {
      var next := ClientStep(info, msgs[0]).value;
      ClientStepKeepsMech(info, msgs[0], name);
      assert forall j :: 0 <= j < DoneAt(msgs[1..]) ==> msgs[1..][j] == msgs[j + 1];
      NegotiateKeepsMech(msgs[1..], readErr, next, name);
    }
  }

  /** An accepted message other than a MECH for `name` leaves that entry alone;
      a MECH for `name` sets it to the parsed capabilities. */
  lemma ClientStepKeepsMech(info: ConnInfo, l: Line, name: string)
    requires ClientStep(info, l).Success?
    ensures var next := ClientStep(info, l).value;
      if MechFor(l, name) then name in next.mechs && next.mechs[name] == ParseMech(l.params).value.1
      else (name in next.mechs <==> name in info.mechs) && (name in info.mechs ==> next.mechs[name] == info.mechs[name])
  {
  }

  /** MECH messages accumulate into the catalog and the last one for a name
      before DONE is the one kept. */
  lemma {:induction false} NegotiateLastMechWins(msgs: seq<Line>, readErr: Option<string>, info: ConnInfo, name: string, k: nat)
    requires Negotiate(msgs, readErr, info).result.Success?
    requires k < DoneAt(msgs) && MechFor(msgs[k], name)
    requires forall j :: k < j < DoneAt(msgs) ==> !MechFor(msgs[j], name)
    ensures var fin := Negotiate(msgs, readErr, info).result.value;
      name in fin.mechs && fin.mechs[name] == ParseMech(msgs[k].params).value.1
  {
    var next := ClientStep(info, msgs[0]).value;
    ClientStepKeepsMech(info, msgs[0], name);
    assert forall j :: 0 <= j < DoneAt(msgs[1..]) ==> msgs[1..][j] == msgs[j + 1];
    if k == 0 {
      NegotiateKeepsMech(msgs[1..], readErr, next, name);
    } else {
      NegotiateLastMechWins(msgs[1..], readErr, next, name, k - 1);
    }
  }

  /** The three identifiers the server announces: SPID, CUID and COOKIE. */
  datatype IdField = SpidField | CuidField | CookieField

  /** The command announcing identifier `f`. */
  function IdCommand(f: IdField): Command {
    match f
    case SpidField => SPID
    case CuidField => CUID
    case CookieField => COOKIE
  }

  /** The value of identifier `f` in `info`. */
  function Id(info: ConnInfo, f: IdField): string {
    match f
    case SpidField => info.spid
    case CuidField => info.cuid
    case CookieField => info.cookie
  }

  /** `l` announces identifier `f`. */
  predicate IdFor(l: Line, f: IdField) {
    CommandOf(l.cmd) == Some(IdCommand(f))
  }

  /** An accepted message announcing identifier `f` sets it to its first
      parameter; any other accepted message leaves it alone. */
  lemma ClientStepId(info: ConnInfo, l: Line, f: IdField)
    requires ClientStep(info, l).Success?
    ensures IdFor(l, f) ==> l.params != [] && Id(ClientStep(info, l).value, f) == l.params[0]
    ensures !IdFor(l, f) ==> Id(ClientStep(info, l).value, f) == Id(info, f)
  {
    match f
    case SpidField =>
    case CuidField =>
    case CookieField =>
  }

  /** Without a message announcing identifier `f` before DONE, the identifier is
      what it was; the client therefore starts from, and keeps, an empty one. */
  lemma {:induction false} NegotiateKeepsId(msgs: seq<Line>, readErr: Option<string>, info: ConnInfo, f: IdField)
    requires Negotiate(msgs, readErr, info).result.Success?
    requires forall j :: 0 <= j < DoneAt(msgs) ==> !IdFor(msgs[j], f)
    ensures Id(Negotiate(msgs, readErr, info).result.value, f) == Id(info, f)
  {
    if msgs != [] && CommandOf(msgs[0].cmd) != Some(DONE) {
      var next := ClientStep(info, msgs[0]).value;
      ClientStepId(info, msgs[0], f);
      assert forall j :: 0 <= j < DoneAt(msgs[1..]) ==> msgs[1..][j] == msgs[j + 1];
      NegotiateKeepsId(msgs[1..], readErr, next, f);
    }
  }

  /** The last SPID, CUID or COOKIE before DONE is the one kept: its first
      parameter becomes the identifier. */
  lemma {:induction false} NegotiateLastIdWins(msgs: seq<Line>, readErr: Option<string>, info: ConnInfo, f: IdField, k: nat)
    requires Negotiate(msgs, readErr, info).result.Success?
    requires k < DoneAt(msgs) && IdFor(msgs[k], f)
    requires forall j :: k < j < DoneAt(msgs) ==> !IdFor(msgs[j], f)
    ensures msgs[k].params != []
    ensures Id(Negotiate(msgs, readErr, info).result.value, f) == msgs[k].params[0]
  {
    var next := ClientStep(info, msgs[0]).value;
    ClientStepId(info, msgs[0], f);
    assert forall j :: 0 <= j < DoneAt(msgs[1..]) ==> msgs[1..][j] == msgs[j + 1];
    if k == 0 {
      NegotiateKeepsId(msgs[1..], readErr, next, f);
    } else {
      NegotiateLastIdWins(msgs[1..], readErr, next, f, k - 1);
    }
  }

  /** The lines of the server's greeting and of DONE, as the client receives them. */
  function GreetingLines(spid: string, cuid: string, cookie: string): seq<string> {
    var g := ServerGreeting(spid, cuid, cookie);
    [Body(g[0]), Body(g[1]), Body(g[2]), Body(g[3]), Body(Line("DONE", []))]
  }

  /** The client reads each greeting line back as the message written. */
  lemma GreetingLineParsed(spid: string, cuid: string, cookie: string, i: nat)
    requires !HasFramingChar(spid) && !HasFramingChar(cuid) && !HasFramingChar(cookie)
    requires i < 4
    ensures SplitLine(GreetingLines(spid, cuid, cookie)[i]) == ServerGreeting(spid, cuid, cookie)[i]
  {
    var g := ServerGreeting(spid, cuid, cookie);
    assert GreetingLines(spid, cuid, cookie)[i] == Body(g[i]);
    BodyRoundTrip(g[i]);
  }

  /** The client reads back the greeting's messages, and DONE with one empty parameter. */
  lemma GreetingParsed(spid: string, cuid: string, cookie: string)
    requires !HasFramingChar(spid) && !HasFramingChar(cuid) && !HasFramingChar(cookie)
    ensures Parse(GreetingLines(spid, cuid, cookie)) == ServerGreeting(spid, cuid, cookie) + [Line("DONE", [""])]
  {
    var lines := GreetingLines(spid, cuid, cookie);
    var m := ServerGreeting(spid, cuid, cookie) + [Line("DONE", [""])];
    forall i | 0 <= i < 4
      ensures SplitLine(lines[i]) == m[i]
    {
      GreetingLineParsed(spid, cuid, cookie, i);
    }
    BodyRoundTrip(Line("DONE", []));
  }

  /** The client accepts the greeting's messages followed by DONE, and takes
      the server's pid, connection id and cookie from them. */
  lemma GreetingNegotiated(spid: string, cuid: string, cookie: string, readErr: Option<string>, info: ConnInfo)
    ensures Negotiate(ServerGreeting(spid, cuid, cookie) + [Line("DONE", [""])], readErr, info)
         == Reply(Success(info.(spid := spid, cuid := cuid, cookie := cookie)), 5)
  {
    var m := ServerGreeting(spid, cuid, cookie) + [Line("DONE", [""])];
    assert Name(VERSION) == "VERSION" && Name(SPID) == "SPID" && Name(CUID) == "CUID";
    assert Name(COOKIE) == "COOKIE" && Name(DONE) == "DONE";
    var i2 := info.(spid := spid);
    var i3 := i2.(cuid := cuid);
    var i4 := i3.(cookie := cookie);
    assert m[4..] == [Line("DONE", [""])];
    assert m[3..][1..] == m[4..];
    NegotiateNext(m[3..], readErr, i3);
    assert m[2..][1..] == m[3..];
    NegotiateNext(m[2..], readErr, i2);
    assert m[1..][1..] == m[2..];
    NegotiateNext(m[1..], readErr, info);
    NegotiateNext(m, readErr, info);
  }

  /** The two roles agree: the client accepts the lines of the server's greeting
      followed by DONE, and takes the server's pid, connection id and cookie
      from them. */
  lemma ServerGreetingNegotiated(spid: string, cuid: string, cookie: string, readErr: Option<string>, info: ConnInfo)
    requires !HasFramingChar(spid) && !HasFramingChar(cuid) && !HasFramingChar(cookie)
    ensures Negotiate(Parse(GreetingLines(spid, cuid, cookie)), readErr, info)
         == Reply(Success(info.(spid := spid, cuid := cuid, cookie := cookie)), 5)
  {
    GreetingParsed(spid, cuid, cookie);
    GreetingNegotiated(spid, cuid, cookie, readErr, info);
  }

  /** A message with any other command before DONE is skipped. */
  lemma NegotiateIgnoresOther(l: Line, msgs: seq<Line>, readErr: Option<string>, info: ConnInfo)
    requires CommandOf(l.cmd) !in {Some(DONE), Some(VERSION), Some(MECH), Some(SPID), Some(CUID), Some(COOKIE)}
    ensures Negotiate([l] + msgs, readErr, info).result == Negotiate(msgs, readErr, info).result
  {
    assert ([l] + msgs)[1..] == msgs;
  }

  /** A step past a message that is neither DONE nor refused. */
  lemma NegotiateNext(msgs: seq<Line>, readErr: Option<string>, info: ConnInfo)
    requires msgs != [] && CommandOf(msgs[0].cmd) != Some(DONE) && ClientStep(info, msgs[0]).Success?
    ensures Negotiate(msgs, readErr, info).result == Negotiate(msgs[1..], readErr, ClientStep(info, msgs[0]).value).result
    ensures Negotiate(msgs, readErr, info).consumed == 1 + Negotiate(msgs[1..], readErr, ClientStep(info, msgs[0]).value).consumed
  {
  }

  /** What the client sends once it has seen DONE. */
  function ClientGreeting(cpid: string): seq<Line> {
    [Line("VERSION", ["1", "1"]), Line("CPID", [cpid])]
  }

  /** Writes VERSION 1 1 and CPID. */
  method WriteClientGreeting(c: Connection, cpid: string)
    modifies c`out
    ensures c.out == old(c.out) + Frames(ClientGreeting(cpid))
  {
    c.Writeln("VERSION", ["1", "1"]);
    c.Writeln("CPID", [cpid]);
    FramesSnoc([Line("VERSION", ["1", "1"])], Line("CPID", [cpid]));
  }

  /** The two roles agree: the server accepts the lines the client writes once
      it has seen DONE and takes its pid from them. */
  lemma ClientGreetingAccepted(cpid: string, rest: seq<string>, readErr: Option<string>)
    requires !HasFramingChar(cpid)
    ensures var g := ClientGreeting(cpid);
      ExpectClientGreeting([Body(g[0]), Body(g[1])] + rest, readErr) == Reply(Success(cpid), 2)
  {
    var g := ClientGreeting(cpid);
    BodyRoundTrip(g[0]);
    BodyRoundTrip(g[1]);
    var lines := [Body(g[0]), Body(g[1])] + rest;
    assert lines[1..][0] == Body(g[1]);
  }

  /** handshakeClient: reads messages until DONE, gathering the server's
      identifiers and catalog; only then writes VERSION 1 1 and CPID. */
  method HandshakeClient(c: Connection, pid: nat) returns (r: Result<ConnInfo>)
    modifies c
    ensures var n := Negotiate(Parse(old(c.input)), c.readErr, InitialClientInfo(pid));
      && r == n.result
      && c.input == old(c.input)[n.consumed..]
      && c.out == old(c.out) + (if r.Success? then Frames(ClientGreeting(Itoa(pid))) else "")
  {
    var info := InitialClientInfo(pid);
    ghost var k := 0;
    ghost var n0 := Negotiate(Parse(c.input), c.readErr, info);
    while true
      invariant 0 <= k <= |old(c.input)| && c.input == old(c.input)[k..]
      invariant n0.result == Negotiate(Parse(c.input), c.readErr, info).result
      invariant n0.consumed == k + Negotiate(Parse(c.input), c.readErr, info).consumed
      invariant info.cpid == Itoa(pid)
      invariant c.out == old(c.out)
      decreases |c.input|
    {
      ghost var lines := c.input;
      var line := c.Readln();
      if line.Failure? {
        return Failure(line.error);
      }
      ParseNext(lines);
      k := k + 1;
      if CommandOf(line.value.cmd) == Some(DONE) {
        WriteClientGreeting(c, info.cpid);
        return Success(info);
      }
      var step := ClientStep(info, line.value);
      if step.Failure? {
        return Failure(step.error);
      }
      NegotiateNext(Parse(lines), c.readErr, info);
      info := step.value;
    }
  }
}
