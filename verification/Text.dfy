/**
 String operations of the language that several files use.  Changing the case of a
 character follows the Unicode tables and is a parameter; only what it does to ASCII ever
 matters.
 */
module Text {
  import opened Wrappers

  type CaseTable = char -> string

  /** `toUpperCase` or `toLowerCase`, character by character. */
  function MapCase(s: string, table: CaseTable): string {
    if s == "" then "" else table(s[0]) + MapCase(s[1..], table)
  }

  ghost predicate AsciiUpper(upper: CaseTable) {
    && (forall c: char :: 'a' <= c <= 'z' ==> upper(c) == [c - ' '])
    && (forall c: char :: c < 128 as char && !('a' <= c <= 'z') ==> upper(c) == [c])
  }

  /** `slice(0, n)` */
  function Slice(s: string, n: nat): string {
    if n < |s| then s[..n] else s
  }

  /** White space and line ends: the class `\s` of a regular expression (section 22.2.2.9 of
      ECMA-262) and what `trim` removes (section 22.1.3.32). */
  predicate IsSpace(c: char) {
    || '\t' <= c <= '\r' || c == ' '
    || c as int in {0xA0, 0x1680, 0x2028, 0x2029, 0x202F, 0x205F, 0x3000, 0xFEFF}
    || 0x2000 <= c as int <= 0x200A
  }

  /** `replace(/\s/g, '')` */
  function StripSpace(s: string): string {
    if s == "" then ""
    else (if IsSpace(s[0]) then "" else [s[0]]) + StripSpace(s[1..])
  }

  /** White space goes and everything else stays, wherever it stands. */
  lemma {:induction false} StripJoin(a: string, b: string)
    ensures StripSpace(a + b) == StripSpace(a) + StripSpace(b)
  {
    if a == "" {
      assert a + b == b;
    } else {
      StripJoin(a[1..], b);
      assert (a + b)[1..] == a[1..] + b;
      Assoc(if IsSpace(a[0]) then "" else [a[0]], StripSpace(a[1..]), StripSpace(b));
    }
  }

  lemma StripOne(c: char)
    ensures StripSpace([c]) == if IsSpace(c) then "" else [c]
  {
    assert [c][1..] == "";
  }

  function TrimStart(s: string): string {
    if s != "" && IsSpace(s[0]) then TrimStart(s[1..]) else s
  }

  function TrimEnd(s: string): string {
    if s != "" && IsSpace(s[|s| - 1]) then TrimEnd(s[..|s| - 1]) else s
  }

  /** `trim` */
  function Trim(s: string): string {
    TrimEnd(TrimStart(s))
  }

  lemma {:induction false} TrimmedEnd(s: string)
    ensures TrimEnd(s) <= s && (TrimEnd(s) != "" ==> !IsSpace(TrimEnd(s)[|TrimEnd(s)| - 1]))
  {
    if s != "" && IsSpace(s[|s| - 1]) {
      TrimmedEnd(s[..|s| - 1]);
    }
  }

  lemma {:induction false} TrimmedStart(s: string)
    ensures TrimStart(s) != "" ==> !IsSpace(TrimStart(s)[0])
  {
    if s != "" && IsSpace(s[0]) {
      TrimmedStart(s[1..]);
    }
  }

  /** Trimming again changes nothing. */
  lemma TrimTwice(s: string)
    ensures Trim(Trim(s)) == Trim(s)
  {
    TrimmedStart(s);
    TrimmedEnd(TrimStart(s));
  }

  /** What `split` gives in front of the first separator. */
  function Before(s: string, separator: char): string {
    if s == "" || s[0] == separator then "" else [s[0]] + Before(s[1..], separator)
  }

  lemma {:induction false} BeforeSeparator(s: string, separator: char, rest: string)
    requires separator !in s
    ensures Before(s, separator) == s && Before(s + [separator] + rest, separator) == s
  {
    var joined := s + [separator] + rest;
    if s != "" {
      BeforeSeparator(s[1..], separator, rest);
      assert joined[1..] == s[1..] + [separator] + rest;
    }
  }

  // ----- texts joined by a colon

  /** The colon of b falls into a, and what is left of a goes on in y. */
  predicate Straddles(a: string, x: string, b: string, y: string) {
    |b| < |a| && a[..|b|] == b && a[|b|] == ':' && y == a[|b| + 1..] + ":" + x
  }

  lemma StraddlesExact(a: string, x: string, b: string, y: string)
    requires |b| < |a|
    ensures a + ":" + x == b + ":" + y <==> Straddles(a, x, b, y)
  {
    var s, t := a + ":" + x, b + ":" + y;
    if s == t {
      assert a == s[..|a|] && b == t[..|b|];
      assert a[|b|] == t[|b|] == ':';
      assert y == t[|b| + 1..];
      assert s[|b| + 1..] == a[|b| + 1..] + ":" + x;
    }
    if Straddles(a, x, b, y) {
      assert a == b + ":" + a[|b| + 1..];
    }
  }

  /** Texts joined by a colon agree exactly when both parts do or one colon falls into the
      first part of the other. */
  lemma JoinExact(a: string, x: string, b: string, y: string)
    ensures a + ":" + x == b + ":" + y <==> (a == b && x == y) || Straddles(a, x, b, y) || Straddles(b, y, a, x)
  {
    if |b| < |a| {
      StraddlesExact(a, x, b, y);
    } else if |a| < |b| {
      StraddlesExact(b, y, a, x);
    } else if a + ":" + x == b + ":" + y {
      assert a == (a + ":" + x)[..|a|] && b == (b + ":" + y)[..|b|];
      assert x == (a + ":" + x)[|a| + 1..] && y == (b + ":" + y)[|b| + 1..];
    }
  }

  lemma NoColonNoStraddle(a: string, x: string, b: string, y: string)
    requires ':' !in a || ':' !in y
    ensures !Straddles(a, x, b, y)
  {
  }

  /** Text without separator and white space is left alone by `split` and `trim`. */
  lemma {:induction false} PlainText(s: string, separator: char)
    requires forall i :: 0 <= i < |s| ==> s[i] != separator && !IsSpace(s[i])
    ensures Before(s, separator) == s && Trim(s) == s
  {
    if s != "" {
      PlainText(s[1..], separator);
    }
  }
}
