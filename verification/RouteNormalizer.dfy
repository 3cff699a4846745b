/**
 `normalizeRoutePath` of src/modules/api-activity/api-telemetry.interceptor.ts (lines
 64-74).

 The two replacements scan from the left: at each position the pattern either matches and
 its text is replaced, or one character is copied.
 */
module RouteNormalizer {
  import opened Decimal
  import opened Text
  import opened Wrappers

  // ----- the patterns

  predicate IsHex(c: char) {
    '0' <= c <= '9' || 'a' <= c <= 'f' || 'A' <= c <= 'F'
  }

  predicate DashAt(i: int) {
    i == 8 || i == 13 || i == 18 || i == 23
  }

  /** What may stand at place i of the shape 8-4-4-4-12. */
  predicate Fits(c: char, i: int) {
    if DashAt(i) then c == '-' else IsHex(c)
  }

  predicate UuidPrefix(s: string) {
    forall i :: 0 <= i < |s| ==> Fits(s[i], i)
  }

  /** `/[0-9a-f]{8}-[0-9a-f]{4}-[0-9a-f]{4}-[0-9a-f]{4}-[0-9a-f]{12}/i` */
  predicate IsUuid(s: string) {
    |s| == 36 && UuidPrefix(s)
  }

  predicate UuidHere(s: string) {
    |s| >= 36 && IsUuid(s[..36])
  }

  lemma UuidHereAt(s: string)
    ensures UuidHere(s) <==> |s| >= 36 && forall i :: 0 <= i < 36 ==> Fits(s[i], i)
  {
    if |s| >= 36 {
      var u := s[..36];
      assert forall i :: 0 <= i < 36 ==> u[i] == s[i];
    }
  }

  /** The digits a text begins with. */
  function DigitRun(s: string): (n: nat)
    ensures n <= |s|
    ensures forall i :: 0 <= i < n ==> IsDigit(s[i])
    ensures n < |s| ==> !IsDigit(s[n])
  {
    if s == "" || !IsDigit(s[0]) then 0 else 1 + DigitRun(s[1..])
  }

  /** `/\/\d+(?=\/|$)/`: a slash, digits, and then a slash or the end. */
  predicate NumberHere(s: string) {
    && s != "" && s[0] == '/'
    && var n := DigitRun(s[1..]);
       n > 0 && (1 + n == |s| || s[1 + n] == '/')
  }

  // ----- the code

  function ReplaceUuids(s: string): string
    decreases |s|
  {
    if s == "" then ""
    else if UuidHere(s) then ":id" + ReplaceUuids(s[36..])
    else [s[0]] + ReplaceUuids(s[1..])
  }

  function ReplaceNumbers(s: string): string
    decreases |s|
  {
    if s == "" then ""
    else if NumberHere(s) then "/:id" + ReplaceNumbers(s[1 + DigitRun(s[1..])..])
    else [s[0]] + ReplaceNumbers(s[1..])
  }

  /** The two replacements, one after the other. */
  function Masked(path: string): string {
    ReplaceNumbers(ReplaceUuids(path))
  }

  /** `split('?')[0]`, then the replacements. */
  function NormalizeRoutePath(rawUrl: string): string {
    var normalized := Masked(Before(rawUrl, '?'));
    if normalized == "" then "/" else normalized
  }

  // ----- what is left

  predicate NoUuid(s: string) {
    forall i :: 0 <= i <= |s| ==> !UuidHere(s[i..])
  }

  predicate NoNumber(s: string) {
    forall i :: 0 <= i <= |s| ==> !NumberHere(s[i..])
  }

  lemma {:induction false} QueryIsGone(s: string)
    ensures '?' !in Before(s, '?')
    ensures '?' !in s ==> Before(s, '?') == s
  {
    if s != "" {
      QueryIsGone(s[1..]);
    }
  }

  lemma {:induction false} PathGoesOn(a: string, b: string)
    requires '?' !in a
    ensures Before(a + b, '?') == a + Before(b, '?')
  {
    if a == "" {
      assert a + b == b;
    } else {
      PathGoesOn(a[1..], b);
      assert (a + b)[1..] == a[1..] + b;
      Assoc([a[0]], a[1..], Before(b, '?'));
      assert [a[0]] + a[1..] == a;
    }
  }

  lemma {:induction false} PathHasEnded(a: string, b: string)
    requires '?' in a
    ensures Before(a + b, '?') == Before(a, '?')
  {
    if a[0] != '?' {
      PathHasEnded(a[1..], b);
      assert (a + b)[1..] == a[1..] + b;
    }
  }

  predicate UuidChar(c: char) {
    IsHex(c) || c == '-'
  }

  predicate UuidChars(s: string) {
    forall i :: 0 <= i < |s| ==> UuidChar(s[i])
  }

  /** Where the output starts with characters of a UUID they were copied, and no match began
      among them. */
  lemma {:induction false} CopiedFromInput(s: string, n: nat)
    requires n <= |ReplaceUuids(s)| && UuidChars(ReplaceUuids(s)[..n])
    ensures n <= |s| && ReplaceUuids(s)[..n] == s[..n]
    ensures forall j :: 0 <= j < n ==> !UuidHere(s[j..])
  {
    var r := ReplaceUuids(s);
    if n > 0 {
      assert UuidChar(r[..n][0]);
      assert r == [s[0]] + ReplaceUuids(s[1..]);
      assert ReplaceUuids(s[1..])[..n - 1] == r[..n][1..];
      CopiedFromInput(s[1..], n - 1);
      forall j | 0 < j < n
        ensures !UuidHere(s[j..])
      {
        assert s[j..] == s[1..][j - 1..];
      }
      assert s[0..] == s;
    }
  }

  /** As long as no match begins the input is copied. */
  lemma {:induction false} CopiedToOutput(s: string, n: nat)
    requires n <= |s| && forall j :: 0 <= j < n ==> !UuidHere(s[j..])
    ensures n <= |ReplaceUuids(s)| && ReplaceUuids(s)[..n] == s[..n]
  {
    if n > 0 {
      assert s[0..] == s;
      forall j | 0 <= j < n - 1
        ensures !UuidHere(s[1..][j..])
      {
        assert s[1..][j..] == s[j + 1..];
      }
      CopiedToOutput(s[1..], n - 1);
    }
  }

  /** All of a UUID but its first character, and no match begins in it. */
  predicate UuidTailHere(s: string) {
    && |s| >= 35
    && (forall i :: 0 <= i < 35 ==> Fits(s[i], i + 1))
    && (forall j :: 0 <= j < 35 ==> !UuidHere(s[j..]))
  }

  /** Some matched UUID is directly followed by all of a UUID but its first character: the
      d of the `:id` put in its place completes it. */
  predicate MakesUuid(path: string)
    decreases |path|
  {
    if path == "" then false
    else if UuidHere(path) then UuidTailHere(path[36..]) || MakesUuid(path[36..])
    else MakesUuid(path[1..])
  }

  lemma NoUuidCons(c: char, rest: string)
    ensures NoUuid([c] + rest) <==> !UuidHere([c] + rest) && NoUuid(rest)
  {
    var s := [c] + rest;
    assert s[0..] == s;
    if NoUuid(s) {
      forall i | 0 <= i <= |rest|
        ensures !UuidHere(rest[i..])
      {
        assert rest[i..] == s[i + 1..];
      }
    }
    if !UuidHere(s) && NoUuid(rest) {
      forall i | 0 <= i <= |s|
        ensures !UuidHere(s[i..])
      {
        if i > 0 {
          assert s[i..] == rest[i - 1..];
        }
      }
    }
  }

  lemma NoUuidWith(s: string, i: nat)
    requires i < |s| && i < 36 && !Fits(s[i], i)
    ensures !UuidHere(s)
  {
    UuidHereAt(s);
  }

  /** `:id` in front of a text makes a UUID only out of its d. */
  lemma IdCons(r: string)
    ensures NoUuid(":id" + r) <==> !UuidHere(['d'] + r) && NoUuid(r)
  {
    var d := ['d'] + r;
    var id := ['i'] + d;
    assert ":id" + r == [':'] + id;
    NoUuidWith([':'] + id, 0);
    NoUuidWith(id, 0);
    NoUuidCons(':', id);
    NoUuidCons('i', d);
    NoUuidCons('d', r);
  }

  lemma TailFromUuid(rest: string)
    requires UuidHere(['d'] + ReplaceUuids(rest))
    ensures UuidTailHere(rest)
  {
    var r := ReplaceUuids(rest);
    var s := ['d'] + r;
    UuidHereAt(s);
    var head := r[..35];
    forall i | 0 <= i < 35
      ensures head[i] == r[i] && Fits(r[i], i + 1)
    {
      assert s[i + 1] == r[i];
    }
    CopiedFromInput(rest, 35);
    forall i | 0 <= i < 35
      ensures Fits(rest[i], i + 1)
    {
      assert rest[i] == rest[..35][i] == head[i];
    }
  }

  lemma UuidFromTail(rest: string)
    requires UuidTailHere(rest)
    ensures UuidHere(['d'] + ReplaceUuids(rest))
  {
    var r := ReplaceUuids(rest);
    var s := ['d'] + r;
    CopiedToOutput(rest, 35);
    UuidHereAt(s);
    forall i | 0 <= i < 36
      ensures Fits(s[i], i)
    {
      if i > 0 {
        assert s[i] == r[i - 1] == r[..35][i - 1] == rest[..35][i - 1] == rest[i - 1];
      }
    }
  }

  /** What follows a replaced UUID decides whether a new one comes about. */
  lemma AfterMatch(rest: string)
    ensures NoUuid(":id" + ReplaceUuids(rest)) <==> !UuidTailHere(rest) && NoUuid(ReplaceUuids(rest))
  {
    IdCons(ReplaceUuids(rest));
    if UuidHere(['d'] + ReplaceUuids(rest)) {
      TailFromUuid(rest);
    } else if UuidTailHere(rest) {
      UuidFromTail(rest);
    }
  }

  lemma UuidIsUuidChars(s: string)
    requires UuidPrefix(s)
    ensures UuidChars(s)
  {
  }

  /** The first replacement leaves no UUID exactly when it makes none. */
  lemma {:induction false} ReplaceUuidsExact(s: string)
    ensures NoUuid(ReplaceUuids(s)) <==> !MakesUuid(s)
    decreases |s|
  {
    if s == "" {
    } else if UuidHere(s) {
      ReplaceUuidsExact(s[36..]);
      AfterMatch(s[36..]);
    } else {
      var r := ReplaceUuids(s);
      ReplaceUuidsExact(s[1..]);
      NoUuidCons(s[0], ReplaceUuids(s[1..]));
      if UuidHere(r) {
        UuidIsUuidChars(r[..36]);
        CopiedFromInput(s, 36);
      }
    }
  }

  // ----- numbers

  /** Whether a text starts with digits up to a slash or the end is not changed by replacing
      numbers or UUIDs further on. */
  predicate DigitsEnd(s: string) {
    DigitRun(s) == |s| || s[DigitRun(s)] == '/'
  }

  lemma {:induction false} DigitsKept(s: string)
    ensures DigitRun(ReplaceNumbers(s)) == DigitRun(s)
    ensures DigitsEnd(ReplaceNumbers(s)) <==> DigitsEnd(s)
    decreases |s|
  {
    var r := ReplaceNumbers(s);
    if s != "" && IsDigit(s[0]) {
      DigitsKept(s[1..]);
      assert r == [s[0]] + ReplaceNumbers(s[1..]);
      assert r[1..] == ReplaceNumbers(s[1..]);
    }
  }

  lemma NoNumberCons(c: char, rest: string)
    ensures NoNumber([c] + rest) <==> !NumberHere([c] + rest) && NoNumber(rest)
  {
    var s := [c] + rest;
    assert s[0..] == s;
    if NoNumber(s) {
      forall i | 0 <= i <= |rest|
        ensures !NumberHere(rest[i..])
      {
        assert rest[i..] == s[i + 1..];
      }
    }
    if !NumberHere(s) && NoNumber(rest) {
      forall i | 0 <= i <= |s|
        ensures !NumberHere(s[i..])
      {
        if i > 0 {
          assert s[i..] == rest[i - 1..];
        }
      }
    }
  }

  lemma SlashId(rest: string)
    ensures NoNumber("/:id" + rest) <==> NoNumber(rest)
  {
    assert "/:id" + rest == ['/'] + ([':'] + (['i'] + (['d'] + rest)));
    NoNumberCons('/', [':'] + (['i'] + (['d'] + rest)));
    NoNumberCons(':', ['i'] + (['d'] + rest));
    NoNumberCons('i', ['d'] + rest);
    NoNumberCons('d', rest);
  }

  /** The second replacement leaves no number. */
  lemma {:induction false} NoNumberLeft(s: string)
    ensures NoNumber(ReplaceNumbers(s))
    decreases |s|
  {
    if s == "" {
    } else if NumberHere(s) {
      var rest := s[1 + DigitRun(s[1..])..];
      NoNumberLeft(rest);
      SlashId(ReplaceNumbers(rest));
    } else {
      NoNumberLeft(s[1..]);
      NoNumberCons(s[0], ReplaceNumbers(s[1..]));
      DigitsKept(s[1..]);
      var r := [s[0]] + ReplaceNumbers(s[1..]);
      assert r[1..] == ReplaceNumbers(s[1..]);
    }
  }

  /** Up to the first slash the second replacement copies. */
  lemma {:induction false} NumbersCopied(s: string, n: nat)
    requires n <= |s| && UuidChars(s[..n])
    ensures n <= |ReplaceNumbers(s)| && ReplaceNumbers(s)[..n] == s[..n]
    decreases n
  {
    if n > 0 {
      assert UuidChar(s[..n][0]);
      assert s[1..][..n - 1] == s[..n][1..];
      NumbersCopied(s[1..], n - 1);
    }
  }

  lemma {:induction false} NumbersWereCopied(s: string, n: nat)
    requires n <= |ReplaceNumbers(s)| && UuidChars(ReplaceNumbers(s)[..n])
    ensures n <= |s| && ReplaceNumbers(s)[..n] == s[..n]
    decreases n
  {
    if n > 0 {
      var r := ReplaceNumbers(s);
      assert UuidChar(r[..n][0]);
      assert r == [s[0]] + ReplaceNumbers(s[1..]);
      assert ReplaceNumbers(s[1..])[..n - 1] == r[..n][1..];
      NumbersWereCopied(s[1..], n - 1);
    }
  }

  lemma UuidHereKept(s: string)
    ensures UuidHere(ReplaceNumbers(s)) <==> UuidHere(s)
  {
    var r := ReplaceNumbers(s);
    if UuidHere(s) {
      UuidIsUuidChars(s[..36]);
      NumbersCopied(s, 36);
    } else if UuidHere(r) {
      UuidIsUuidChars(r[..36]);
      NumbersWereCopied(s, 36);
    }
  }

  /** Digits up to a slash or the end are in no UUID. */
  lemma {:induction false} NoUuidInDigits(digits: string, rest: string)
    requires forall i :: 0 <= i < |digits| ==> IsDigit(digits[i])
    requires rest == "" || rest[0] == '/'
    ensures NoUuid(digits + rest) <==> NoUuid(rest)
  {
    if digits == "" {
      assert digits + rest == rest;
    } else {
      var s, tail := digits + rest, digits[1..] + rest;
      NoUuidInDigits(digits[1..], rest);
      assert s == [digits[0]] + tail;
      NoUuidCons(digits[0], tail);
      if |digits| > 8 {
        NoUuidWith(s, 8);
      } else if rest != "" {
        NoUuidWith(s, |digits|);
      }
    }
  }

  lemma AfterNumber(rest: string)
    requires rest == "" || rest[0] == '/'
    ensures NoUuid("/:id" + ReplaceNumbers(rest)) <==> NoUuid(ReplaceNumbers(rest))
  {
    var r := ReplaceNumbers(rest);
    var d := ['d'] + r;
    var id := ":id" + r;
    assert "/:id" + r == ['/'] + id;
    NoUuidWith(['/'] + id, 0);
    NoUuidCons('/', id);
    IdCons(r);
    if r != "" {
      NoUuidWith(d, 1);
    }
  }

  lemma NumberSplit(s: string) returns (digits: string, rest: string)
    requires NumberHere(s)
    ensures s == ['/'] + (digits + rest) && rest == s[1 + DigitRun(s[1..])..]
    ensures digits != "" && forall i :: 0 <= i < |digits| ==> IsDigit(digits[i])
    ensures rest == "" || rest[0] == '/'
  {
    var n, tail := DigitRun(s[1..]), s[1..];
    digits, rest := tail[..n], tail[n..];
    assert forall i :: 0 <= i < n ==> digits[i] == tail[i];
    assert tail == digits + rest;
    assert s == ['/'] + tail;
    assert rest == s[1 + n..];
  }

  /** Replacing numbers neither makes nor removes a UUID. */
  lemma {:induction false} UuidsUnaffected(s: string)
    ensures NoUuid(ReplaceNumbers(s)) <==> NoUuid(s)
    decreases |s|
  {
    if s == "" {
    } else if NumberHere(s) {
      var digits, rest := NumberSplit(s);
      UuidsUnaffected(rest);
      UuidHereAt(s);
      NoUuidCons('/', digits + rest);
      NoUuidInDigits(digits, rest);
      AfterNumber(rest);
    } else {
      var r := ReplaceNumbers(s[1..]);
      UuidsUnaffected(s[1..]);
      UuidHereKept(s);
      assert s == [s[0]] + s[1..];
      NoUuidCons(s[0], s[1..]);
      NoUuidCons(s[0], r);
    }
  }

  // ----- fixed points

  lemma {:induction false} NoUuidIsKept(s: string)
    requires NoUuid(s)
    ensures ReplaceUuids(s) == s
  {
    if s != "" {
      assert s == [s[0]] + s[1..];
      NoUuidCons(s[0], s[1..]);
      NoUuidIsKept(s[1..]);
    }
  }

  lemma {:induction false} NoNumberIsKept(s: string)
    requires NoNumber(s)
    ensures ReplaceNumbers(s) == s
  {
    if s != "" {
      assert s == [s[0]] + s[1..];
      NoNumberCons(s[0], s[1..]);
      NoNumberIsKept(s[1..]);
    }
  }

  lemma {:induction false} UuidsShorten(s: string)
    ensures |ReplaceUuids(s)| <= |s|
    ensures !NoUuid(s) ==> |ReplaceUuids(s)| < |s|
    decreases |s|
  {
    if s == "" {
    } else if UuidHere(s) {
      UuidsShorten(s[36..]);
    } else {
      UuidsShorten(s[1..]);
      assert s == [s[0]] + s[1..];
      NoUuidCons(s[0], s[1..]);
    }
  }

  /** If the digits in front end in the output they end in the input. */
  lemma {:induction false} DigitsBefore(s: string)
    requires s != "" && IsDigit(s[0]) && !UuidHere(s) && DigitsEnd(ReplaceUuids(s))
    ensures DigitsEnd(s)
  {
    var t := s[1..];
    var r := ReplaceUuids(t);
    assert ReplaceUuids(s)[1..] == r;
    assert DigitsEnd(r);
    if t != "" && !UuidHere(t) {
      assert r[0] == t[0];
      if IsDigit(t[0]) {
        DigitsBefore(t);
      }
    }
  }

  /** Replacing UUIDs makes no number. */
  lemma {:induction false} NoNumberMade(s: string)
    requires NoNumber(s)
    ensures NoNumber(ReplaceUuids(s))
    decreases |s|
  {
    if s == "" {
    } else if UuidHere(s) {
      NoNumberSuffix(s, 36);
      NoNumberMade(s[36..]);
      var r := ReplaceUuids(s[36..]);
      assert ":id" + r == [':'] + (['i'] + (['d'] + r));
      NoNumberCons(':', ['i'] + (['d'] + r));
      NoNumberCons('i', ['d'] + r);
      NoNumberCons('d', r);
    } else {
      assert s == [s[0]] + s[1..];
      NoNumberCons(s[0], s[1..]);
      NoNumberMade(s[1..]);
      var r := ReplaceUuids(s[1..]);
      NoNumberCons(s[0], r);
      assert ([s[0]] + r)[1..] == r;
      if NumberHere([s[0]] + r) {
        assert IsDigit(r[0]);
        assert !UuidHere(s[1..]);
        DigitsBefore(s[1..]);
        assert NumberHere(s);
      }
    }
  }

  lemma NoNumberSuffix(s: string, k: nat)
    requires NoNumber(s) && k <= |s|
    ensures NoNumber(s[k..])
  {
    forall i | 0 <= i <= |s[k..]|
      ensures !NumberHere(s[k..][i..])
    {
      assert s[k..][i..] == s[k + i..];
    }
  }

  lemma {:induction false} NoQueryMade(s: string)
    requires '?' !in s
    ensures '?' !in ReplaceUuids(s) && '?' !in ReplaceNumbers(s)
    decreases |s|
  {
    if s != "" {
      NoQueryMade(s[1..]);
      if UuidHere(s) {
        NoQueryMade(s[36..]);
      }
      if NumberHere(s) {
        NoQueryMade(s[1 + DigitRun(s[1..])..]);
      }
    }
  }

  // ----- the theorems

  /** The result never has a query or a numeric segment, and it has a UUID exactly when the
      first replacement made one. */
  lemma ResultExact(rawUrl: string)
    ensures var r := NormalizeRoutePath(rawUrl);
            r != "" && '?' !in r && NoNumber(r) && (NoUuid(r) <==> !MakesUuid(Before(rawUrl, '?')))
  {
    var path := Before(rawUrl, '?');
    var first := ReplaceUuids(path);
    QueryIsGone(rawUrl);
    NoQueryMade(path);
    NoQueryMade(first);
    NoNumberLeft(first);
    ReplaceUuidsExact(path);
    UuidsUnaffected(first);
  }

  /** The texts the normaliser leaves alone are those without query, UUID and number. */
  lemma FixedPoints(s: string)
    requires s != "" && '?' !in s && NoNumber(s)
    ensures NormalizeRoutePath(s) == s <==> NoUuid(s)
  {
    QueryIsGone(s);
    NoNumberMade(s);
    NoNumberIsKept(ReplaceUuids(s));
    UuidsShorten(s);
    if NoUuid(s) {
      NoUuidIsKept(s);
    }
  }

  /** A short path without query and digits is left alone. */
  lemma ShortPathStays(s: string)
    requires s != "" && |s| < 36 && forall i :: 0 <= i < |s| ==> s[i] != '?' && !IsDigit(s[i])
    ensures NormalizeRoutePath(s) == s
  {
    forall i | 0 <= i <= |s|
      ensures !NumberHere(s[i..])
    {
      assert i + 1 < |s| ==> s[i..][1..][0] == s[i + 1];
    }
    FixedPoints(s);
  }

  /** Normalising twice is normalising once exactly for the paths in which no UUID is
      directly followed by the rest of another. */
  lemma IdempotentExact(rawUrl: string)
    ensures NormalizeRoutePath(NormalizeRoutePath(rawUrl)) == NormalizeRoutePath(rawUrl)
       <==> !MakesUuid(Before(rawUrl, '?'))
  {
    ResultExact(rawUrl);
    FixedPoints(NormalizeRoutePath(rawUrl));
  }

  function PlainUuid(c: char): (u: string)
    requires IsHex(c)
    ensures IsUuid(u) && u[35] == c
  {
    seq(36, i => if DashAt(i) then '-' else c)
  }

  /** Such a path: a UUID and then the same one without its first character. */
  lemma NotIdempotent()
    ensures var url := PlainUuid('0') + PlainUuid('0')[1..];
            MakesUuid(url) && NormalizeRoutePath(NormalizeRoutePath(url)) != NormalizeRoutePath(url)
  {
    var u := PlainUuid('0');
    var rest := u[1..];
    var url := u + rest;
    assert url[..36] == u && url[36..] == rest;
    assert UuidTailHere(rest);
    assert MakesUuid(url);
    IdempotentExact(url);
    QueryIsGone(url);
    forall i | 0 <= i < |url|
      ensures url[i] != '?'
    {
      assert url[i] == u[if i < 36 then i else i - 35];
    }
  }

  /** The query of a URL does not matter. */
  lemma QueryIsIgnored(path: string, query: string)
    ensures NormalizeRoutePath(path + "?" + query) == NormalizeRoutePath(path)
  {
    PathHasEnded(path + "?", query);
    if '?' in path {
      PathHasEnded(path, "?");
    } else {
      PathGoesOn(path, "?");
      QueryIsGone(path);
      assert path + "" == path;
    }
  }

  // ----- segments

  /** What follows text in a path: nothing, or another segment. */
  predicate AtSegment(t: string) {
    t == "" || t[0] == '/'
  }

  lemma NoUuidAcross(a: string, t: string)
    requires a != "" && AtSegment(t)
    ensures UuidHere(a + t) <==> UuidHere(a)
  {
    if |a| >= 36 {
      assert (a + t)[..36] == a[..36];
    } else if t != "" {
      NoUuidWith(a + t, |a|);
    }
  }

  lemma {:induction false} UuidsBySegment(a: string, t: string)
    requires AtSegment(t)
    ensures ReplaceUuids(a + t) == ReplaceUuids(a) + ReplaceUuids(t)
    decreases |a|
  {
    if a == "" {
      assert a + t == t;
    } else {
      NoUuidAcross(a, t);
      var k := if UuidHere(a) then 36 else 1;
      UuidsBySegment(a[k..], t);
      assert (a + t)[k..] == a[k..] + t;
      Assoc(if UuidHere(a) then ":id" else [a[0]], ReplaceUuids(a[k..]), ReplaceUuids(t));
    }
  }

  lemma {:induction false} RunAcross(y: string, t: string)
    requires AtSegment(t)
    ensures DigitRun(y + t) == DigitRun(y)
  {
    if y == "" {
      assert y + t == t;
    } else {
      assert (y + t)[1..] == y[1..] + t && (y + t)[0] == y[0];
      RunAcross(y[1..], t);
    }
  }

  lemma NumberAcross(a: string, t: string)
    requires a != "" && AtSegment(t)
    ensures NumberHere(a + t) <==> NumberHere(a)
    ensures (a + t)[1..] == a[1..] + t
    ensures DigitRun((a + t)[1..]) == DigitRun(a[1..])
    ensures (a + t)[1 + DigitRun(a[1..])..] == a[1 + DigitRun(a[1..])..] + t
  {
    var n := DigitRun(a[1..]);
    assert (a + t)[1..] == a[1..] + t;
    RunAcross(a[1..], t);
    if 1 + n < |a| {
      assert (a + t)[1 + n] == a[1 + n];
    }
  }

  lemma {:induction false} NumbersBySegment(a: string, t: string)
    requires AtSegment(t)
    ensures ReplaceNumbers(a + t) == ReplaceNumbers(a) + ReplaceNumbers(t)
    decreases |a|
  {
    if a == "" {
      assert a + t == t;
    } else {
      NumberAcross(a, t);
      var k := if NumberHere(a) then 1 + DigitRun(a[1..]) else 1;
      NumbersBySegment(a[k..], t);
      Assoc(if NumberHere(a) then "/:id" else [a[0]], ReplaceNumbers(a[k..]), ReplaceNumbers(t));
    }
  }

  lemma SegmentStays(t: string)
    requires AtSegment(t)
    ensures AtSegment(ReplaceUuids(t))
  {
    if t != "" {
      NoUuidWith(t, 0);
    }
  }

  /** A path is masked segment by segment. */
  lemma MaskedBySegment(a: string, t: string)
    requires AtSegment(t)
    ensures Masked(a + t) == Masked(a) + Masked(t)
  {
    UuidsBySegment(a, t);
    SegmentStays(t);
    NumbersBySegment(ReplaceUuids(a), ReplaceUuids(t));
  }

  lemma {:induction false} AllDigitsRun(d: string)
    requires forall i :: 0 <= i < |d| ==> IsDigit(d[i])
    ensures DigitRun(d) == |d|
  {
    if d != "" {
      AllDigitsRun(d[1..]);
    }
  }

  lemma NumberIsMasked(d: string)
    requires d != "" && forall i :: 0 <= i < |d| ==> IsDigit(d[i])
    ensures Masked("/" + d) == "/:id"
  {
    var s := "/" + d;
    NoUuidInDigits(d, "");
    assert d + "" == d && s == ['/'] + d;
    NoUuidWith(s, 0);
    NoUuidCons('/', d);
    NoUuidIsKept(s);
    AllDigitsRun(d);
    assert s[1..] == d && s[1 + |d|..] == "";
    assert ReplaceNumbers(s) == "/:id" + "";
  }

  /** A numeric segment is replaced wherever it stands, and does not influence the rest: URLs
      that differ only in it normalise alike. */
  lemma NumberSlotIsFree(a: string, d: string, b: string)
    requires '?' !in a && (b == "" || b[0] == '/' || b[0] == '?')
    requires d != "" && forall i :: 0 <= i < |d| ==> IsDigit(d[i])
    ensures NormalizeRoutePath(a + ("/" + d) + b) == Masked(a) + "/:id" + Masked(Before(b, '?'))
  {
    var n, t := "/" + d, Before(b, '?');
    assert '?' !in n;
    PathGoesOn(a + n, b);
    assert AtSegment(t);
    MaskedBySegment(a + n, t);
    MaskedBySegment(a, n);
    NumberIsMasked(d);
  }

  // ----- slots

  /** A UUID that lacks only hexadecimal characters at its end. */
  predicate AlmostUuid(a: string) {
    28 <= |a| < 36 && UuidPrefix(a)
  }

  /** The scan of a ends inside the last 8 to 1 places of a UUID: whatever UUID comes next
      has its first characters used to complete it. */
  predicate Dangling(a: string)
    decreases |a|
  {
    if a == "" then false
    else if UuidHere(a) then Dangling(a[36..])
    else AlmostUuid(a) || Dangling(a[1..])
  }

  /** Less than 28 characters cannot be completed by the beginning of a UUID: the dashes do
      not fall on the right places. */
  lemma NoOverlap(a: string, u: string, b: string)
    requires a != "" && IsUuid(u) && !UuidHere(a) && !AlmostUuid(a)
    ensures !UuidHere(a + u + b)
  {
    var s, k := a + u + b, |a|;
    UuidHereAt(s);
    UuidHereAt(a);
    assert forall i :: 0 <= i < k ==> a[i] == s[i];
    if k < 28 && |s| >= 36 {
      assert forall i :: 0 <= i < 36 - k ==> s[k + i] == u[i];
      DashesMisaligned(s, u, k);
    }
  }

  lemma DashesMisaligned(s: string, u: string, k: int)
    requires 0 < k < 28 && |s| >= 36 && IsUuid(u)
    requires forall i :: 0 <= i < 36 - k ==> s[k + i] == u[i]
    ensures exists i :: 0 <= i < 36 && !Fits(s[i], i)
  {
    assert Fits(u[8], 8) && Fits(u[3], 3);
    assert s[k + 8] == u[8];
    if Fits(s[k + 8], k + 8) {
      assert DashAt(k + 3);
      assert s[k + 3] == u[3];
      assert !Fits(s[k + 3], k + 3);
    }
  }

  lemma SliceFront(a: string, u: string, b: string, k: nat)
    requires k <= |a|
    ensures (a + u + b)[..k] == a[..k] && (a + u + b)[k..] == a[k..] + u + b
  {
  }

  lemma Prepend(x: string, y: string, z: string, w: string)
    ensures x + (y + z + w) == x + y + z + w
  {
  }

  /** A UUID after text that does not dangle is replaced. */
  lemma {:induction false} SlotIsReplaced(a: string, u: string, b: string)
    requires IsUuid(u) && !Dangling(a)
    ensures ReplaceUuids(a + u + b) == ReplaceUuids(a) + ":id" + ReplaceUuids(b)
    decreases |a|
  {
    var s := a + u + b;
    if a == "" {
      assert s == u + b && s[..36] == u && s[36..] == b;
    } else if UuidHere(a) {
      SliceFront(a, u, b, 36);
      SlotIsReplaced(a[36..], u, b);
      Prepend(":id", ReplaceUuids(a[36..]), ":id", ReplaceUuids(b));
    } else {
      NoOverlap(a, u, b);
      SliceFront(a, u, b, 1);
      SlotIsReplaced(a[1..], u, b);
      Prepend([a[0]], ReplaceUuids(a[1..]), ":id", ReplaceUuids(b));
    }
  }

  lemma ShortIsKept(s: string)
    requires |s| < 36
    ensures ReplaceUuids(s) == s
  {
    NoUuidIsKept(s);
  }

  lemma Completed(a: string, u: string)
    requires AlmostUuid(a) && IsUuid(u)
    ensures EndsTorn(a, u, ("", |a|))
  {
    var s, k := a + u, |a|;
    UuidHereAt(s);
    forall i | 0 <= i < 36
      ensures Fits(s[i], i)
    {
      assert if i < k then Fits(a[i], i) else Fits(u[i - k], i - k);
    }
    assert s[36..] == u[36 - k..];
    ShortIsKept(u[36 - k..]);
  }

  /** Where a dangling scan stops: the output so far, and how much of the last UUID is read. */
  function Torn(a: string): (t: (string, nat))
    requires Dangling(a)
    ensures 28 <= t.1 < 36
    decreases |a|
  {
    if UuidHere(a) then
      var t := Torn(a[36..]); (":id" + t.0, t.1)
    else if AlmostUuid(a) then
      ("", |a|)
    else
      var t := Torn(a[1..]); ([a[0]] + t.0, t.1)
  }

  /** The output for a and a UUID u: t.0, `:id` and the last t.1 characters of u. */
  ghost predicate EndsTorn(a: string, u: string, t: (string, nat)) {
    |u| == 36 && t.1 < 36 && ReplaceUuids(a + u) == t.0 + ":id" + u[36 - t.1..]
  }

  lemma Jump(a: string, u: string, t: (string, nat))
    requires UuidHere(a) && EndsTorn(a[36..], u, t)
    ensures EndsTorn(a, u, (":id" + t.0, t.1))
  {
    assert (a + u)[..36] == a[..36] && (a + u)[36..] == a[36..] + u;
    Prepend(":id", t.0, ":id", u[36 - t.1..]);
  }

  lemma NotHereYet(a: string, u: string)
    requires a != "" && !UuidHere(a) && !AlmostUuid(a) && IsUuid(u)
    ensures !UuidHere(a + u)
  {
    NoOverlap(a, u, "");
    assert a + u + "" == a + u;
  }

  lemma Step(a: string, u: string, t: (string, nat))
    requires a != "" && !UuidHere(a + u) && EndsTorn(a[1..], u, t)
    ensures EndsTorn(a, u, ([a[0]] + t.0, t.1))
  {
    assert (a + u)[1..] == a[1..] + u;
    Prepend([a[0]], t.0, ":id", u[36 - t.1..]);
  }

  /** After text that dangles the end of the UUID is left standing. */
  lemma {:induction false} SlotIsTorn(a: string, u: string)
    requires IsUuid(u) && Dangling(a)
    ensures EndsTorn(a, u, Torn(a))
    decreases |a|
  {
    if UuidHere(a) {
      SlotIsTorn(a[36..], u);
      Jump(a, u, Torn(a[36..]));
    } else if AlmostUuid(a) {
      Completed(a, u);
    } else {
      SlotIsTorn(a[1..], u);
      NotHereYet(a, u);
      Step(a, u, Torn(a[1..]));
    }
  }

  lemma {:induction false} RunAppend(y: string, w: string)
    requires y != "" && !IsDigit(y[|y| - 1])
    ensures DigitRun(y + w) == DigitRun(y) < |y|
  {
    if IsDigit(y[0]) {
      RunAppend(y[1..], w);
      assert (y + w)[1..] == y[1..] + w;
    }
  }

  lemma {:induction false} NoSlashIsKept(w: string)
    requires '/' !in w
    ensures ReplaceNumbers(w) == w
  {
    if w != "" {
      NoSlashIsKept(w[1..]);
    }
  }

  lemma NumberHereAppend(y: string, w: string)
    requires |y| > 1 && !IsDigit(y[|y| - 1])
    ensures NumberHere(y + w) <==> NumberHere(y)
    ensures DigitRun((y + w)[1..]) == DigitRun(y[1..]) < |y| - 1
    ensures (y + w)[1..] == y[1..] + w
    ensures (y + w)[1 + DigitRun(y[1..])..] == y[1 + DigitRun(y[1..])..] + w
  {
    var s := y + w;
    assert s[1..] == y[1..] + w;
    RunAppend(y[1..], w);
    assert s[1 + DigitRun(y[1..])] == y[1 + DigitRun(y[1..])];
  }

  lemma AppendFound(y: string, w: string, rest: string)
    requires |y| > 1 && !IsDigit(y[|y| - 1]) && NumberHere(y) && rest == y[1 + DigitRun(y[1..])..]
    requires ReplaceNumbers(rest + w) == ReplaceNumbers(rest) + w
    ensures ReplaceNumbers(y + w) == ReplaceNumbers(y) + w
  {
    NumberHereAppend(y, w);
    var tail := ReplaceNumbers(rest);
    assert ReplaceNumbers(y + w) == "/:id" + (tail + w);
    Assoc("/:id", tail, w);
  }

  lemma AppendCopied(y: string, w: string, rest: string)
    requires |y| > 1 && !IsDigit(y[|y| - 1]) && !NumberHere(y) && rest == y[1..]
    requires ReplaceNumbers(rest + w) == ReplaceNumbers(rest) + w
    ensures ReplaceNumbers(y + w) == ReplaceNumbers(y) + w
  {
    NumberHereAppend(y, w);
    var tail := ReplaceNumbers(rest);
    assert ReplaceNumbers(y + w) == [y[0]] + (tail + w);
    Assoc([y[0]], tail, w);
  }

  lemma AppendLast(w: string)
    requires '/' !in w
    ensures ReplaceNumbers("d" + w) == ReplaceNumbers("d") + w
  {
    assert ("d" + w)[1..] == w;
    NoSlashIsKept(w);
  }

  /** Text without a slash after a character that is neither a digit nor a slash is copied. */
  lemma {:induction false} NumbersAppend(y: string, w: string)
    requires y != "" && y[|y| - 1] == 'd' && '/' !in w
    ensures ReplaceNumbers(y + w) == ReplaceNumbers(y) + w
    decreases |y|
  {
    if |y| == 1 {
      assert y == "d";
      AppendLast(w);
    } else if NumberHere(y) {
      NumberHereAppend(y, w);
      NumbersAppend(y[1 + DigitRun(y[1..])..], w);
      AppendFound(y, w, y[1 + DigitRun(y[1..])..]);
    } else {
      NumbersAppend(y[1..], w);
      AppendCopied(y, w, y[1..]);
    }
  }

  lemma UuidIsClean(u: string)
    requires IsUuid(u)
    ensures '?' !in u && '/' !in u
  {
    forall i | 0 <= i < |u|
      ensures u[i] != '?' && u[i] != '/'
    {
      assert Fits(u[i], i);
    }
  }

  lemma PathWithSlot(a: string, u: string, b: string)
    requires IsUuid(u)
    ensures '?' in a ==> Before(a + u + b, '?') == Before(a, '?')
    ensures '?' !in a ==> Before(a + u + b, '?') == a + u + Before(b, '?')
  {
    UuidIsClean(u);
    if '?' in a {
      assert a + u + b == a + (u + b);
      PathHasEnded(a, u + b);
    } else {
      PathGoesOn(a + u, b);
    }
  }

  /** Whatever UUID fills the slot after a, the URL normalises the same. */
  ghost predicate SlotIsFree(a: string) {
    forall u, v, b | IsUuid(u) && IsUuid(v) ::
      NormalizeRoutePath(a + u + b) == NormalizeRoutePath(a + v + b)
  }

  lemma FreeIfNotDangling(a: string, u: string, v: string, b: string)
    requires IsUuid(u) && IsUuid(v)
    requires '?' in a || !Dangling(a)
    ensures NormalizeRoutePath(a + u + b) == NormalizeRoutePath(a + v + b)
  {
    PathWithSlot(a, u, b);
    PathWithSlot(a, v, b);
    if '?' !in a {
      SlotIsReplaced(a, u, Before(b, '?'));
      SlotIsReplaced(a, v, Before(b, '?'));
    }
  }

  lemma TailKept(head: string, u: string, k: nat)
    requires IsUuid(u) && 28 <= k < 36
    ensures var r := ReplaceNumbers(head + ":id" + u[36 - k..]);
            r != "" && r[|r| - 1] == u[35]
  {
    UuidIsClean(u);
    NumbersAppend(head + ":id", u[36 - k..]);
  }

  lemma PathOnly(path: string)
    requires '?' !in path && ReplaceNumbers(ReplaceUuids(path)) != ""
    ensures NormalizeRoutePath(path) == ReplaceNumbers(ReplaceUuids(path))
  {
    QueryIsGone(path);
  }

  /** The last character of a UUID after text that dangles is kept. */
  lemma TornEnd(a: string, u: string)
    requires IsUuid(u) && '?' !in a && Dangling(a)
    ensures var r := NormalizeRoutePath(a + u); r != "" && r[|r| - 1] == u[35]
  {
    UuidIsClean(u);
    SlotIsTorn(a, u);
    TailKept(Torn(a).0, u, Torn(a).1);
    PathOnly(a + u);
  }

  lemma FreeUnlessDangling(a: string)
    requires '?' in a || !Dangling(a)
    ensures SlotIsFree(a)
  {
    forall u, v, b | IsUuid(u) && IsUuid(v)
      ensures NormalizeRoutePath(a + u + b) == NormalizeRoutePath(a + v + b)
    {
      FreeIfNotDangling(a, u, v, b);
    }
  }

  lemma TornApart(a: string, u: string, v: string)
    requires IsUuid(u) && IsUuid(v) && u[35] != v[35]
    requires '?' !in a && Dangling(a)
    ensures NormalizeRoutePath(a + u + "") != NormalizeRoutePath(a + v + "")
  {
    assert a + u + "" == a + u;
    assert a + v + "" == a + v;
    TornEnd(a, u);
    TornEnd(a, v);
  }

  /** Such text: the first 28 characters of a UUID. */
  lemma SlotMatters()
    ensures Dangling(PlainUuid('0')[..28]) && !SlotIsFree(PlainUuid('0')[..28])
  {
    var u := PlainUuid('0');
    var a := u[..28];
    assert AlmostUuid(a) && Dangling(a);
    forall i | 0 <= i < |a|
      ensures a[i] != '?'
    {
      assert a[i] == u[i];
    }
    SlotExact(a);
  }

  /** URLs that differ only in which UUID fills a slot normalise alike exactly when the text
      before the slot does not dangle, or the slot is in the query. */
  lemma SlotExact(a: string)
    ensures SlotIsFree(a) <==> '?' in a || !Dangling(a)
  {
    if '?' in a || !Dangling(a) {
      FreeUnlessDangling(a);
    } else {
      TornApart(a, PlainUuid('0'), PlainUuid('1'));
    }
  }
}
