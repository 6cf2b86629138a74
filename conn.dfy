/** The line codec of conn.go: one protocol message is a command and its
    parameters, separated by single tabs and terminated by a newline.

    A connection is modelled by the lines its scanner will still deliver, the
    scanner's error after the last of them (none: a clean end of stream), and the
    bytes written to the peer so far. */
module Conn {
  import opened Types
  import opened Strings

  /** One protocol message: the command and its parameters. */
  datatype Line = Line(cmd: string, params: seq<string>)

  /** The text Writeln emits before the newline. The tab after the command is
      emitted even when there are no parameters. */
  function Body(l: Line): string {
    l.cmd + "\t" + Join(l.params, '\t')
  }

  /** The bytes Writeln emits for one message. */
  function Frame(l: Line): string {
    Body(l) + "\n"
  }

  /** The bytes emitted by writing the messages one after another. */
  function Frames(ls: seq<Line>): string {
    if ls == [] then "" else Frames(ls[..|ls| - 1]) + Frame(ls[|ls| - 1])
  }

  /** The commands of the protocol. */
  datatype Command = VERSION | CPID | SPID | CUID | COOKIE | MECH | DONE | AUTH | CONT | OK | FAIL

  /** The command a received command field names, if it names one; matching is
      exact and case-sensitive, as Go's switch on strings is. */
  function CommandOf(cmd: string): Option<Command> {
    if cmd == "VERSION" then Some(VERSION)
    else if cmd == "CPID" then Some(CPID)
    else if cmd == "SPID" then Some(SPID)
    else if cmd == "CUID" then Some(CUID)
    else if cmd == "COOKIE" then Some(COOKIE)
    else if cmd == "MECH" then Some(MECH)
    else if cmd == "DONE" then Some(DONE)
    else if cmd == "AUTH" then Some(AUTH)
    else if cmd == "CONT" then Some(CONT)
    else if cmd == "OK" then Some(OK)
    else if cmd == "FAIL" then Some(FAIL)
    else None
  }

  /** The wire name of each command; CommandOf recognises it. */
  function Name(c: Command): (s: string)
    ensures CommandOf(s) == Some(c)
  {
    match c
    case VERSION => "VERSION"
    case CPID => "CPID"
    case SPID => "SPID"
    case CUID => "CUID"
    case COOKIE => "COOKIE"
    case MECH => "MECH"
    case DONE => "DONE"
    case AUTH => "AUTH"
    case CONT => "CONT"
    case OK => "OK"
    case FAIL => "FAIL"
  }

  /** CommandOf names a command exactly for that command's wire name. */
  lemma CommandOfName(cmd: string, c: Command)
    ensures CommandOf(cmd) == Some(c) <==> cmd == Name(c)
  {
  }

  /** Fields free of tab and newline: what the framing can carry unchanged. */
  predicate WellFormed(l: Line) {
    && !HasFramingChar(l.cmd)
    && forall i :: 0 <= i < |l.params| ==> !HasFramingChar(l.params[i])
  }

  /** What Readln makes of one received line: the first tab-separated field is
      the command and the remaining fields, in order, are the parameters. */
  function SplitLine(text: string): (l: Line)
    ensures '\t' !in l.cmd
    ensures forall i :: 0 <= i < |l.params| ==> '\t' !in l.params[i]
    ensures l.params == [] <==> '\t' !in text
  {
    var parts := Split(text, '\t');
    JoinSplit(text, '\t');
    if |parts| == 1 then Line(parts[0], [])
    else
      assert text == parts[0] + "\t" + Join(parts[1..], '\t');
      assert text[|parts[0]|] == '\t';
      Line(parts[0], parts[1..])
  }

  /** The received line is the command and the parameters joined with tabs. */
  lemma SplitLineJoin(text: string)
    ensures var l := SplitLine(text);
      text == if l.params == [] then l.cmd else l.cmd + "\t" + Join(l.params, '\t')
  {
    JoinSplit(text, '\t');
  }

  /** Frames of two batches of messages are the frames of the first, then of the second. */
  lemma {:induction false} FramesAppend(a: seq<Line>, b: seq<Line>)
    ensures Frames(a + b) == Frames(a) + Frames(b)
  {
    if b != [] {
      assert (a + b)[..|a + b| - 1] == a + b[..|b| - 1];
      FramesAppend(a, b[..|b| - 1]);
    } else {
      assert a + b == a;
    }
  }

  /** Dropping `i` lines and then `j` more drops `i + j`. */
  lemma DropDrop(lines: seq<string>, i: nat, j: nat)
    requires i + j <= |lines|
    ensures lines[i..][j..] == lines[i + j..]
  {
  }

  /** The same, for lines already named: `rest` is what is left of `lines` after
      dropping `i` lines and then `j` more. */
  lemma DropMore(lines: seq<string>, i: nat, mid: seq<string>, j: nat, rest: seq<string>)
    requires i <= |lines| && mid == lines[i..]
    requires j <= |mid| && rest == mid[j..]
    ensures i + j <= |lines| && rest == lines[i + j..]
  {
    DropDrop(lines, i, j);
  }

  /** Output that already holds the frames of one batch, extended by the frames
      of another, holds the frames of both batches. */
  lemma OutputAppend(base: string, a: seq<Line>, b: seq<Line>)
    ensures (base + Frames(a)) + Frames(b) == base + Frames(a + b)
  {
    FramesAppend(a, b);
  }

  /** Writing one more message appends its frame. */
  lemma FramesSnoc(ls: seq<Line>, l: Line)
    ensures Frames(ls + [l]) == Frames(ls) + Frame(l)
  {
    assert (ls + [l])[..|ls|] == ls;
  }

  /** Output that already holds the frames of a batch, extended by one more
      frame, holds the frames of the longer batch. */
  lemma OutputSnoc(base: string, ls: seq<Line>, l: Line)
    ensures (base + Frames(ls)) + Frame(l) == base + Frames(ls + [l])
  {
    FramesSnoc(ls, l);
    assert (base + Frames(ls)) + Frame(l) == base + (Frames(ls) + Frame(l));
  }

  /** One message written alone. */
  lemma FramesOne(l: Line)
    ensures Frames([l]) == Frame(l)
  {
    assert [l][..0] == [];
  }

  /** Four messages written one after another. */
  lemma FramesFour(a: Line, b: Line, c: Line, d: Line)
    ensures Frames([a, b, c, d]) == Frame(a) + Frame(b) + Frame(c) + Frame(d)
  {
    FramesSnoc([a, b, c], d);
    FramesSnoc([a, b], c);
    FramesSnoc([a], b);
    FramesSnoc([], a);
    assert [a, b, c] + [d] == [a, b, c, d];
    assert [a, b] + [c] == [a, b, c];
    assert [a] + [b] == [a, b];
    assert [] + [a] == [a];
  }

  /** A framed message holds exactly one newline, at its end, so the reader's
      line scanner returns its body as one line. */
  lemma FrameSingleLine(l: Line)
    requires WellFormed(l)
    ensures Frame(l) == Body(l) + "\n"
    ensures '\n' !in Body(l)
  {
    JoinFree(l.params, '\n', '\t');
  }

  /** Joining parts free of a character, with a different separator, keeps the result free of it. */
  lemma {:induction false} JoinFree(parts: seq<string>, c: char, sep: char)
    requires c != sep
    requires forall i :: 0 <= i < |parts| ==> c !in parts[i]
    ensures c !in Join(parts, sep)
  {
    if |parts| > 1 {
      JoinFree(parts[1..], c, sep);
    }
  }

  /** Framing round trip: the receiver splits the body Writeln produced back into
      the command and the parameters; with no parameters it sees one empty one. */
  lemma BodyRoundTrip(l: Line)
    requires WellFormed(l)
    ensures SplitLine(Body(l)) == if l.params == [] then Line(l.cmd, [""]) else l
  {
    SplitAtFirst(l.cmd, Join(l.params, '\t'), '\t');
    assert Body(l) == l.cmd + ['\t'] + Join(l.params, '\t');
    if l.params != [] {
      SplitJoin(l.params, '\t');
    }
  }

  /** How the input ended: a scanner error, or io.EOF when there was none. */
  function EndOfInput(readErr: Option<string>): (e: Error)
    ensures e == EOF <==> readErr.None?
    ensures readErr.Some? ==> e == ReadFailed(readErr.value)
  {
    match readErr
    case None => EOF
    case Some(reason) => ReadFailed(reason)
  }

  /** What Readln returns when `lines` are still to be delivered. */
  function NextLine(lines: seq<string>, readErr: Option<string>): Result<Line>
  {
    if lines == [] then Failure(EndOfInput(readErr)) else Success(SplitLine(lines[0]))
  }

  /** The lines still to be delivered after one Readln. */
  function Remaining(lines: seq<string>): seq<string>
  {
    if lines == [] then [] else lines[1..]
  }

  /** The messages the scanner's lines carry, in order. */
  function Parse(lines: seq<string>): (msgs: seq<Line>)
    ensures |msgs| == |lines|
    ensures forall i :: 0 <= i < |lines| ==> msgs[i] == SplitLine(lines[i])
  {
    if lines == [] then [] else [SplitLine(lines[0])] + Parse(lines[1..])
  }

  /** The first message of a non-empty input, and the messages after it. */
  lemma ParseNext(lines: seq<string>)
    requires lines != []
    ensures Parse(lines)[0] == SplitLine(lines[0]) && Parse(lines)[1..] == Parse(lines[1..])
  {
  }

  /** The outcome of reading a conversation step by step, and how many lines it took. */
  datatype Reply<+T> = Reply(result: Result<T>, consumed: nat)

  /** The check ReadlnExpect makes of a received message. */
  function Expect(l: Line, expectCmd: string, atleastParams: nat): (r: Result<seq<string>>)
    ensures r.Success? <==> l.cmd == expectCmd && |l.params| >= atleastParams
    ensures r.Success? ==> r.value == l.params
    ensures l.cmd != expectCmd ==> r == Failure(UnexpectedCommand(l.cmd))
    ensures l.cmd == expectCmd && |l.params| < atleastParams ==> r == Failure(NotEnoughParams(l.cmd, |l.params|))
  {
    if l.cmd != expectCmd then Failure(UnexpectedCommand(l.cmd))
    else if |l.params| < atleastParams then Failure(NotEnoughParams(l.cmd, |l.params|))
    else Success(l.params)
  }

  /** What ReadlnExpect returns when `lines` are still to be delivered. */
  function ExpectNext(lines: seq<string>, readErr: Option<string>, expectCmd: string, atleastParams: nat): (r: Result<seq<string>>)
    ensures lines == [] ==> r == Failure(EndOfInput(readErr))
    ensures lines != [] ==> r == Expect(SplitLine(lines[0]), expectCmd, atleastParams)
  {
    match NextLine(lines, readErr)
    case Failure(e) => Failure(e)
    case Success(l) => Expect(l, expectCmd, atleastParams)
  }

  class Connection {
    /** The lines the scanner will still deliver, without their newlines. */
    var input: seq<string>
    /** The scanner's error once those lines are used up; None is a clean end of stream. */
    const readErr: Option<string>
    /** Every byte written and flushed to the peer. */
    var out: string

    constructor (lines: seq<string>, readErr: Option<string>)
      ensures input == lines && this.readErr == readErr && out == ""
    {
      input := lines;
      this.readErr := readErr;
      out := "";
    }

    /** Writes the command, a tab, the parameters separated by tabs, and a newline. */
    method Writeln(cmd: string, params: seq<string>)
      modifies this`out
      ensures out == old(out) + Frame(Line(cmd, params))
    {
      out := out + cmd;
      out := out + "\t";
      var i := 0;
      while i < |params|
        invariant 0 <= i <= |params|
        invariant out == old(out) + cmd + "\t" + Join(params[..i], '\t') + (if 0 < i < |params| then "\t" else "")
      {
        out := out + params[i];
        if i != |params| - 1 {
          out := out + "\t";
        }
        if i > 0 {
          JoinSnoc(params[..i], params[i], '\t');
        }
        assert params[..i + 1] == params[..i] + [params[i]];
        i := i + 1;
      }
      assert params[..i] == params;
      out := out + "\n";
    }

    /** Reads one line and splits it into the command and its parameters. */
    method Readln() returns (r: Result<Line>)
      modifies this`input
      ensures r == NextLine(old(input), readErr)
      ensures input == Remaining(old(input))
    {
      if input == [] {
        return Failure(EndOfInput(readErr));
      }
      r := Success(SplitLine(input[0]));
      input := input[1..];
    }

    /** Reads one line and fails unless it is `expectCmd` with at least
        `atleastParams` parameters; returns the parameters unchanged. */
    method ReadlnExpect(expectCmd: string, atleastParams: nat) returns (r: Result<seq<string>>)
      modifies this`input
      ensures r == ExpectNext(old(input), readErr, expectCmd, atleastParams)
      ensures input == Remaining(old(input))
    {
      var line := Readln();
      if line.Failure? {
        return Failure(line.error);
      }
      r := Expect(line.value, expectCmd, atleastParams);
    }
  }
}
