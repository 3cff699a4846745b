/** Decimal numerals: `String(n)`, `parseInt` on digits and `padStart`. */
module Decimal {

  function Digit(d: int): char
    requires 0 <= d < 10
  {
    ('0' as int + d) as char
  }

  predicate IsDigit(c: char) {
    '0' <= c <= '9'
  }

  predicate AllDigits(s: string) {
    forall i :: 0 <= i < |s| ==> IsDigit(s[i])
  }

  function Show(n: nat): (s: string)
    ensures |s| > 0 && AllDigits(s)
  {
    if n < 10 then [Digit(n)] else Show(n / 10) + [Digit(n % 10)]
  }

  function Parse(s: string): nat
    requires AllDigits(s)
  {
    if s == "" then 0
    else 10 * Parse(s[..|s| - 1]) + (s[|s| - 1] as int - '0' as int)
  }

  function PadStart(s: string, width: nat, pad: char): string
    decreases width - |s|
  {
    if |s| >= width then s else PadStart([pad] + s, width, pad)
  }

  lemma {:induction false} ParseShow(n: nat)
    ensures Parse(Show(n)) == n
  {
    if n >= 10 {
      ParseShow(n / 10);
      assert Show(n)[..|Show(n)| - 1] == Show(n / 10);
    } else {
      assert Parse("") == 0;
      assert Show(n)[..0] == "";
    }
  }

  lemma {:induction false} ParseLeadingZero(s: string)
    requires AllDigits(s)
    ensures AllDigits(['0'] + s) && Parse(['0'] + s) == Parse(s)
  {
    var t := ['0'] + s;
    if s != "" {
      ParseLeadingZero(s[..|s| - 1]);
      assert t[..|t| - 1] == ['0'] + s[..|s| - 1];
    } else {
      assert t[..0] == "";
    }
  }

  lemma {:induction false} PadKeepsValue(s: string, width: nat)
    requires AllDigits(s)
    ensures var t := PadStart(s, width, '0');
            AllDigits(t) && Parse(t) == Parse(s) && |t| == (if |s| < width then width else |s|)
    decreases width - |s|
  {
    if |s| < width {
      ParseLeadingZero(s);
      PadKeepsValue(['0'] + s, width);
    }
  }

  /** Digit strings of one length are told apart by their values. */
  lemma {:induction false} ParseInjective(s: string, t: string)
    requires AllDigits(s) && AllDigits(t) && |s| == |t|
    ensures Parse(s) == Parse(t) ==> s == t
  {
    if |s| > 0 {
      ParseInjective(s[..|s| - 1], t[..|t| - 1]);
      assert s == s[..|s| - 1] + [s[|s| - 1]] && t == t[..|t| - 1] + [t[|t| - 1]];
    }
  }

  function Pow10(k: nat): (p: nat)
    ensures p >= 1
  {
    if k == 0 then 1 else 10 * Pow10(k - 1)
  }

  lemma {:induction false} ParseBound(s: string)
    requires AllDigits(s)
    ensures Parse(s) < Pow10(|s|)
  {
    if s != "" {
      ParseBound(s[..|s| - 1]);
    }
  }

  lemma {:induction false} ShowLength(n: nat, k: nat)
    requires n < Pow10(k)
    ensures n > 0 ==> |Show(n)| <= k
  {
    if n >= 10 {
      assert Pow10(k) == 10 * Pow10(k - 1);
      ShowLength(n / 10, k - 1);
    }
  }

  /** The fixed-width numeral of n is the one digit string of that width denoting n. */
  lemma FixedWidth(n: nat, width: nat, s: string)
    requires width > 0 && n < Pow10(width)
    ensures PadStart(Show(n), width, '0') == s <==> |s| == width && AllDigits(s) && Parse(s) == n
  {
    ParseShow(n);
    ShowLength(n, width);
    PadKeepsValue(Show(n), width);
    if |s| == width && AllDigits(s) {
      ParseInjective(s, PadStart(Show(n), width, '0'));
    }
  }

  /** The last k digits of a numeral denote its remainder. */
  lemma {:induction false} LastDigits(s: string, k: nat)
    requires AllDigits(s) && k <= |s|
    ensures AllDigits(s[|s| - k..]) && Parse(s[|s| - k..]) == Parse(s) % Pow10(k)
    decreases k
  {
    var end := s[|s| - k..];
    if k > 0 {
      var front := s[..|s| - 1];
      LastDigits(front, k - 1);
      assert end[..k - 1] == front[|front| - (k - 1)..];
      LastDigit(Parse(front), s[|s| - 1] as int - '0' as int, Pow10(k - 1));
    }
  }

  lemma LastDigit(n: nat, d: nat, p: nat)
    requires d < 10 && p >= 1
    ensures (10 * n + d) % (10 * p) == 10 * (n % p) + d
  {
    var q, r := n / p, n % p;
    assert 10 * n + d == (10 * p) * q + (10 * r + d);
    ModUnique(10 * n + d, 10 * p, q, 10 * r + d);
  }

  lemma ModUnique(v: int, d: int, q: int, r: int)
    requires d > 0 && v == d * q + r && 0 <= r < d
    ensures v % d == r
  {
    var q', r' := v / d, v % d;
    assert v == d * q' + r' && 0 <= r' < d;
    QuotientUnique(d, q, r, q', r');
  }

  lemma QuotientUnique(d: int, q: int, r: int, q': int, r': int)
    requires 0 <= r < d && 0 <= r' < d && d * q + r == d * q' + r'
    ensures r == r'
  {
    assert d * (q - q') == r' - r;
    Multiple(d, q - q');
    Multiple(d, q' - q);
    assert d * (q' - q) == r - r';
  }

  lemma Multiple(d: int, k: int)
    requires d > 0
    ensures k >= 1 ==> d * k >= d
    ensures k == 0 ==> d * k == 0
  {
  }
}
