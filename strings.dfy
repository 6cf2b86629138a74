/** The pieces of Go's `strings` and `strconv` packages the protocol engine uses,
    written out exactly: splitting on a one-character separator, joining, cutting
    at the first separator, the framing-character test, and decimal conversion. */
module Strings {
  import opened Types

  /** strings.Join(parts, sep) for a one-character separator. */
  function Join(parts: seq<string>, sep: char): string
  {
    if |parts| == 0 then ""
    else if |parts| == 1 then parts[0]
    else parts[0] + [sep] + Join(parts[1..], sep)
  }

  /** strings.Split(s, sep) for a one-character separator: the fields between
      separators, in order; an input without separator is one field. */
  function Split(s: string, sep: char): (r: seq<string>)
    ensures |r| >= 1
    ensures forall i :: 0 <= i < |r| ==> sep !in r[i]
  {
    if s == [] then [""]
    else if s[0] == sep then [""] + Split(s[1..], sep)
    else
      var rest := Split(s[1..], sep);
      [[s[0]] + rest[0]] + rest[1..]
  }

  /** Joining the fields with the separator gives back the text. */
  lemma {:induction false} JoinSplit(s: string, sep: char)
    ensures Join(Split(s, sep), sep) == s
  {
    if s != [] {
      var rest := Split(s[1..], sep);
      JoinSplit(s[1..], sep);
      if s[0] == sep {
        assert ([""] + rest)[1..] == rest;
        assert s == [sep] + s[1..];
      } else {
        var r := [[s[0]] + rest[0]] + rest[1..];
        assert r[1..] == rest[1..];
        assert s == [s[0]] + s[1..];
      }
    }
  }

  /** Appending one more part adds one separator and the part. */
  lemma {:induction false} JoinSnoc(parts: seq<string>, x: string, sep: char)
    requires |parts| >= 1
    ensures Join(parts + [x], sep) == Join(parts, sep) + [sep] + x
  {
    if |parts| == 1 {
      assert (parts + [x])[1..] == [x];
    } else {
      assert (parts + [x])[1..] == parts[1..] + [x];
      JoinSnoc(parts[1..], x, sep);
    }
  }

  /** A text without separator is one field. */
  lemma {:induction false} SplitNoSeparator(a: string, sep: char)
    requires sep !in a
    ensures Split(a, sep) == [a]
  {
    if a != [] {
      SplitNoSeparator(a[1..], sep);
      assert [a[0]] + a[1..] == a;
    }
  }

  /** A separator after a separator-free prefix ends the first field there. */
  lemma {:induction false} SplitAtFirst(a: string, b: string, sep: char)
    requires sep !in a
    ensures Split(a + [sep] + b, sep) == [a] + Split(b, sep)
  {
    var s := a + [sep] + b;
    if a == [] {
      assert s[1..] == b;
    } else {
      assert s[1..] == a[1..] + [sep] + b;
      SplitAtFirst(a[1..], b, sep);
      assert [a[0]] + a[1..] == a;
    }
  }

  /** Splitting undoes joining when no part holds the separator. */
  lemma {:induction false} SplitJoin(parts: seq<string>, sep: char)
    requires |parts| >= 1
    requires forall i :: 0 <= i < |parts| ==> sep !in parts[i]
    ensures Split(Join(parts, sep), sep) == parts
  {
    if |parts| == 1 {
      SplitNoSeparator(parts[0], sep);
    } else {
      SplitAtFirst(parts[0], Join(parts[1..], sep), sep);
      SplitJoin(parts[1..], sep);
      assert [parts[0]] + parts[1..] == parts;
    }
  }

  /** strings.SplitN(s, sep, 2): the text before the first separator and, when
      there is a separator, everything after it. */
  function SplitOnce(s: string, sep: char): (r: seq<string>)
    ensures |r| == 1 || |r| == 2
  {
    if s == [] then [""]
    else if s[0] == sep then ["", s[1..]]
    else
      var rest := SplitOnce(s[1..], sep);
      [[s[0]] + rest[0]] + rest[1..]
  }

  /** SplitOnce returns the whole text when it holds no separator; otherwise the
      text before the first separator and the text after it. */
  lemma {:induction false} SplitOnceParts(s: string, sep: char)
    ensures sep !in SplitOnce(s, sep)[0]
    ensures |SplitOnce(s, sep)| == 1 <==> sep !in s
    ensures |SplitOnce(s, sep)| == 1 ==> SplitOnce(s, sep)[0] == s
    ensures |SplitOnce(s, sep)| == 2 ==> s == SplitOnce(s, sep)[0] + [sep] + SplitOnce(s, sep)[1]
  {
    if s != [] && s[0] != sep {
      SplitOnceParts(s[1..], sep);
      assert s == [s[0]] + s[1..];
    }
  }

  /** The key before the first separator is found again after re-assembly. */
  lemma SplitOnceJoined(k: string, v: string, sep: char)
    requires sep !in k
    ensures SplitOnce(k + [sep] + v, sep) == [k, v]
  {
    var s := k + [sep] + v;
    var r := SplitOnce(s, sep);
    SplitOnceParts(s, sep);
    assert s[|k|] == sep;
    assert |r| == 2;
    assert forall j :: 0 <= j < |k| ==> s[j] == k[j] && s[j] != sep;
    assert forall j :: 0 <= j < |r[0]| ==> s[j] == r[0][j] && s[j] != sep;
    assert s[|r[0]|] == sep;
    assert |r[0]| == |k|;
    assert r[0] == s[..|k|] == k;
    assert r[1] == s[|k| + 1..] == v;
  }

  /** strings.ContainsAny(s, "\t\n"): whether s holds a framing character. */
  predicate HasFramingChar(s: string) {
    '\t' in s || '\n' in s
  }

  predicate IsDigit(c: char) { '0' <= c <= '9' }

  predicate AllDigits(s: string) {
    forall i :: 0 <= i < |s| ==> IsDigit(s[i])
  }

  function DigitValue(c: char): nat
    requires IsDigit(c)
  {
    (c as int) - ('0' as int)
  }

  function Digit(d: nat): (c: char)
    requires d < 10
    ensures IsDigit(c) && DigitValue(c) == d
  {
    (('0' as int) + d) as char
  }

  /** The value of a string of decimal digits. */
  function DecimalValue(s: string): nat
    requires AllDigits(s)
  {
    if s == [] then 0 else 10 * DecimalValue(s[..|s| - 1]) + DigitValue(s[|s| - 1])
  }

  /** strconv.Itoa for a non-negative number: its shortest decimal form. */
  function Itoa(n: nat): (s: string)
    ensures s != [] && AllDigits(s)
    ensures DecimalValue(s) == n
    ensures |s| > 1 ==> s[0] != '0'
  {
    if n < 10 then [Digit(n)]
    else
      var s := Itoa(n / 10) + [Digit(n % 10)];
      assert s[..|s| - 1] == Itoa(n / 10);
      s
  }

  /** strconv.ParseUint(s, 10, 16): a non-empty string of decimal digits whose
      value fits 16 bits. Leading zeros are accepted; signs, spaces and
      underscores are not. */
  function ParseUint16(s: string): (r: Option<Uint16>)
    ensures r.None? <==> s == [] || !AllDigits(s) || DecimalValue(s) > 65535
    ensures r.Some? ==> r.value == DecimalValue(s)
  {
    if s != [] && AllDigits(s) && DecimalValue(s) < 65536 then Some(DecimalValue(s)) else None
  }

  /** The decimal form of a number is read back as that number when it fits 16
      bits, and refused otherwise. */
  lemma ParseUint16Itoa(n: nat)
    ensures ParseUint16(Itoa(n)) == if n < 65536 then Some(n) else None
  {
  }

  /** A leading zero does not change what is read. */
  lemma {:induction false} ParseUint16LeadingZero(s: string)
    requires s != []
    ensures ParseUint16("0" + s) == ParseUint16(s)
  {
    if AllDigits(s) {
      DecimalValueLeadingZero(s);
    } else {
      var i :| 0 <= i < |s| && !IsDigit(s[i]);
      assert ("0" + s)[i + 1] == s[i];
    }
  }

  /** The value of digits preceded by a zero is the value of the digits. */
  lemma {:induction false} DecimalValueLeadingZero(s: string)
    requires AllDigits(s)
    ensures AllDigits("0" + s) && DecimalValue("0" + s) == DecimalValue(s)
  {
    var t := "0" + s;
    assert forall i :: 1 <= i < |t| ==> t[i] == s[i - 1];
    if s != [] {
      assert t[..|t| - 1] == "0" + s[..|s| - 1];
      DecimalValueLeadingZero(s[..|s| - 1]);
    }
  }
}
