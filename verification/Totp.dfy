/**
 Time-based one-time codes of src/common/utils/security.utils.ts (lines 101-139).

 HMAC-SHA-1 is a parameter: any function with a 20-byte result.  Upper-casing of a
 character is a parameter too.
 */
module Totp {
  import opened Int32
  import opened Base32
  import opened Text
  import opened Wrappers
  import Decimal

  type Digest = d: seq<Byte> | |d| == 20 witness seq(20, _ => 0)
  type Hmac = (seq<Byte>, seq<Byte>) -> Digest

  // ----- specification

  /** The key a stored or typed secret stands for. */
  function KeyOf(secret: string, upper: CaseTable): seq<Byte> {
    DecodeSpec(MapCase(StripSpace(secret), upper))
  }

  function BigEndian(bytes: seq<Byte>): nat {
    if bytes == [] then 0 else 256 * BigEndian(bytes[..|bytes| - 1]) + bytes[|bytes| - 1]
  }

  /** The `n` last bytes of the two's complement form of `v`. */
  function BytesOf(v: int, n: nat): (bytes: seq<Byte>)
    ensures |bytes| == n
    decreases n, v
  {
    if n == 0 then [] else BytesOf(v / 256, n - 1) + [v % 256]
  }

  /** Dynamic truncation: 31 bits at the offset named by the last four (section 5.3 of
      RFC 4226). */
  function Truncate(digest: Digest): (code: nat)
    ensures code < 0x8000_0000
  {
    var offset := digest[19] % 16;
    BigEndian(digest[offset..offset + 4]) % 0x8000_0000
  }

  /** The HOTP value of a key and a counter. */
  function Hotp(hmac: Hmac, key: seq<Byte>, counter: int): nat {
    Truncate(hmac(key, BytesOf(counter, 8))) % 1000000
  }

  function TotpCode(hmac: Hmac, upper: CaseTable, secret: string, counter: int): string {
    Decimal.PadStart(Decimal.Show(Hotp(hmac, KeyOf(secret, upper), counter)), 6, '0')
  }

  /** `/^\d{6}$/` */
  predicate IsSixDigits(code: string) {
    |code| == 6 && Decimal.AllDigits(code)
  }

  const PERIOD := 30000

  /** The counter at a time in milliseconds. */
  function CounterAt(time: int): int {
    time / PERIOD
  }

  /** A counter is within the skew window at a time. */
  predicate InWindow(counter: int, now: int, skewWindow: int) {
    CounterAt(now) - skewWindow <= counter <= CounterAt(now) + skewWindow
  }

  /** The login check: a six-digit code that some counter in the skew window generates. */
  ghost predicate Accepts(hmac: Hmac, upper: CaseTable, secret: string, code: string, now: int, skewWindow: int) {
    && secret != ""
    && IsSixDigits(code)
    && exists counter :: InWindow(counter, now, skewWindow) && TotpCode(hmac, upper, secret, counter) == code
  }

  // ----- the code

  /** The secret that is stored and shown; the otpauth URI around it is not modelled. */
  method GenerateTotpSecret(randomBytes: seq<Byte>, upper: CaseTable) returns (secret: string)
    requires |randomBytes| == 20
    requires AsciiUpper(upper)
    ensures secret == EncodeSpec(randomBytes) && |secret| == 32
    ensures KeyOf(secret, upper) == randomBytes
  {
    var encoded := Base32.Encode(randomBytes);
    DecodeEncode(randomBytes);
    SymbolsInAlphabet(ByteBits(randomBytes));
    secret := MapCase(Slice(encoded, 32), upper);
    SecretIsPlain(encoded, upper);
  }

  lemma {:induction false} SecretIsPlain(s: string, upper: CaseTable)
    requires AsciiUpper(upper)
    requires forall c :: c in s ==> IndexOf(c) != -1
    ensures MapCase(s, upper) == s && StripSpace(s) == s
  {
    if s != "" {
      assert s[0] in s;
      SecretIsPlain(s[1..], upper);
    }
  }

  /** The counter loop (lines 114-119). */
  method CounterBuffer(counter: int) returns (bytes: seq<Byte>)
    ensures bytes == BytesOf(counter, 8)
  {
    var buffer := new Byte[8](_ => 0);
    var value := counter;
    var i := 7;
    while i >= 0
      invariant -1 <= i <= 7
      invariant BytesOf(value, i + 1) + buffer[i + 1..] == BytesOf(counter, 8)
    {
      LowByte(value);
      ghost var done := buffer[i + 1..];
      Assoc(BytesOf(value / 256, i), [value % 256], done);
      buffer[i] := And(value, 0xff);
      assert buffer[i..] == [value % 256] + done;
      value := value / 256;
      i := i - 1;
    }
    bytes := buffer[..];
  }

  /** The numeral of the truncated digest, in ten digits. */
  function TenDigits(hmac: Hmac, key: seq<Byte>, counter: int): (numeral: string)
    ensures |numeral| == 10
  {
    Decimal.ShowLength(Truncate(hmac(key, BytesOf(counter, 8))), 10);
    Decimal.PadKeepsValue(Decimal.Show(Truncate(hmac(key, BytesOf(counter, 8)))), 10);
    Decimal.PadStart(Decimal.Show(Truncate(hmac(key, BytesOf(counter, 8)))), 10, '0')
  }

  /** The code is the last six of these digits. */
  lemma CodeIsLastSix(hmac: Hmac, upper: CaseTable, secret: string, counter: int)
    ensures TotpCode(hmac, upper, secret, counter) == TenDigits(hmac, KeyOf(secret, upper), counter)[4..]
  {
    var numeral := TenDigits(hmac, KeyOf(secret, upper), counter);
    var number := Truncate(hmac(KeyOf(secret, upper), BytesOf(counter, 8)));
    assert Decimal.Pow10(10) == 10000000000 && Decimal.Pow10(6) == 1000000;
    Decimal.FixedWidth(number, 10, numeral);
    Decimal.LastDigits(numeral, 6);
    SixDigits(number % 1000000, numeral[4..]);
  }

  /** The code of a counter, or of the moment if none is given. */
  method GenerateTotpCode(hmac: Hmac, upper: CaseTable, secret: string, timeCounter: Option<int>, now: int)
    returns (code: string)
    ensures var counter := if timeCounter.Some? then timeCounter.value else now / 30000;
            && code == TotpCode(hmac, upper, secret, counter)
            && code == TenDigits(hmac, KeyOf(secret, upper), counter)[4..]
  {
    var counter := if timeCounter.Some? then timeCounter.value else CounterAt(now);
    CodeIsLastSix(hmac, upper, secret, counter);
    var base32 := MapCase(StripSpace(secret), upper);
    var key := Base32.Decode(base32);
    var buffer := CounterBuffer(counter);
    var digest := hmac(key, buffer);
    LowNibble(digest[|digest| - 1]);
    var offset := And(digest[|digest| - 1], 0xf);
    var number := TruncationCode(digest[offset], digest[offset + 1], digest[offset + 2], digest[offset + 3]);
    TruncationIsTruncate(digest);
    code := Decimal.PadStart(Decimal.Show(number % 1000000), 6, '0');
  }

  /** `((b0 & 0x7f) << 24) | ((b1 & 0xff) << 16) | ((b2 & 0xff) << 8) | (b3 & 0xff)` */
  function TruncationCode(b0: Byte, b1: Byte, b2: Byte, b3: Byte): int {
    Or(Or(Or(Shl(And(b0, 0x7f), 24), Shl(And(b1, 0xff), 16)), Shl(And(b2, 0xff), 8)), And(b3, 0xff))
  }

  lemma LowByte(v: int)
    ensures And(v, 0xff) == v % 256
  {
    Pow2Of32();
    Mask(v, 8, 0xff);
  }

  lemma WholeByte(b: Byte)
    ensures And(b, 0xff) == b
  {
    LowByte(b);
    BelowByte(b);
  }

  lemma BelowByte(b: Byte)
    ensures b % 256 == b
  {
  }

  lemma LowNibble(v: int)
    ensures And(v, 0xf) == v % 16
  {
    Pow2Of32();
    Mask(v, 4, 0xf);
  }

  lemma LowSeven(v: int)
    ensures And(v, 0x7f) == v % 128
  {
    Pow2Of32();
    Mask(v, 7, 0x7f);
  }

  /** The shift-and-or expression is the 31-bit number of RFC 4226. */
  lemma TruncationIsTruncate(digest: Digest)
    ensures var offset := digest[19] % 16;
            TruncationCode(digest[offset], digest[offset + 1], digest[offset + 2], digest[offset + 3])
            == Truncate(digest)
  {
    var offset := digest[19] % 16;
    var b0, b1, b2, b3 := digest[offset], digest[offset + 1], digest[offset + 2], digest[offset + 3];
    assert digest[offset..offset + 4] == [b0, b1, b2, b3];
    TruncationOfBytes(b0, b1, b2, b3);
  }

  lemma TruncationOfBytes(b0: Byte, b1: Byte, b2: Byte, b3: Byte)
    ensures TruncationCode(b0, b1, b2, b3) == BigEndian([b0, b1, b2, b3]) % 0x8000_0000
  {
    LowSeven(b0);
    WholeByte(b1);
    WholeByte(b2);
    WholeByte(b3);
    JoinBytes(b0 % 128, b1, b2, b3);
    FourBytes(b0, b1, b2, b3);
  }

  lemma JoinBytes(a: int, b: Byte, c: Byte, d: Byte)
    requires 0 <= a < 128
    ensures Or(Or(Or(Shl(a, 24), Shl(b, 16)), Shl(c, 8)), d) == a * 0x100_0000 + b * 0x1_0000 + c * 0x100 + d
  {
    Pow2Of32();
    ShlExact(a, 24);
    ShlExact(b, 16);
    ShlExact(c, 8);
    OrExact(a * 0x100_0000, a, b * 0x1_0000, 24);
    OrExact(a * 0x100_0000 + b * 0x1_0000, a * 0x100 + b, c * 0x100, 16);
    OrExact(a * 0x100_0000 + b * 0x1_0000 + c * 0x100, a * 0x1_0000 + b * 0x100 + c, d, 8);
  }

  lemma ShlExact(x: int, k: nat)
    requires k < 32 && 0 <= x < 0x8000_0000 && 0 <= x * Pow2(k) < 0x8000_0000
    ensures Shl(x, k) == x * Pow2(k)
  {
    assert k % 32 == k;
    WrapIsIdentity(x);
    WrapIsIdentity(x * Pow2(k));
  }

  lemma OrExact(m: int, x: int, y: int, k: nat)
    requires k <= 32 && m == x * Pow2(k) && 0 <= y < Pow2(k)
    requires 0 <= m && m + y < 0x8000_0000
    ensures Or(m, y) == m + y
  {
    OrAdds(x, y, k);
  }

  lemma FourBytes(a: Byte, b: Byte, c: Byte, d: Byte)
    ensures BigEndian([a, b, c, d]) == a * 0x100_0000 + b * 0x1_0000 + c * 0x100 + d
    ensures BigEndian([a, b, c, d]) % 0x8000_0000 == a % 128 * 0x100_0000 + b * 0x1_0000 + c * 0x100 + d
  {
    BigEndianAppend([], a);
    BigEndianAppend([a], b);
    BigEndianAppend([a, b], c);
    BigEndianAppend([a, b, c], d);
    assert [] + [a] == [a] && [a] + [b] == [a, b] && [a, b] + [c] == [a, b, c] && [a, b, c] + [d] == [a, b, c, d];
    assert a * 0x100_0000 == a / 128 * 0x8000_0000 + a % 128 * 0x100_0000;
  }

  lemma BigEndianAppend(bytes: seq<Byte>, b: Byte)
    ensures BigEndian(bytes + [b]) == 256 * BigEndian(bytes) + b
  {
    assert (bytes + [b])[..|bytes|] == bytes;
  }

  method VerifyTotpCode(hmac: Hmac, upper: CaseTable, secret: string, code: string, now: int, skewWindow: int := 1)
    returns (accepted: bool)
    ensures accepted <==> Accepts(hmac, upper, secret, code, now, skewWindow)
    ensures secret == "" || !IsSixDigits(code) ==> !accepted
  {
    if secret == "" || code == "" || !IsSixDigits(code) {
      return false;
    }
    var counter := CounterAt(now);
    var offset := -skewWindow;
    while offset <= skewWindow
      invariant -skewWindow <= offset
      invariant forall c :: InWindow(c, now, skewWindow) && c < counter + offset ==>
                  TotpCode(hmac, upper, secret, c) != code
      decreases skewWindow - offset
    {
      var generated := GenerateTotpCode(hmac, upper, secret, Some(counter + offset), now);
      if generated == code {
        return true;
      }
      offset := offset + 1;
    }
    return false;
  }

  // ----- what the codes mean

  /** The eight bytes are the counter itself up to 2^64, and so for every counter a clock
      can give; a negative counter appears in two's complement. */
  lemma {:induction false} CounterBytes(v: int, n: nat)
    ensures BigEndian(BytesOf(v, n)) == v % Pow2(8 * n)
    decreases n, v
  {
    if n > 0 {
      CounterBytes(v / 256, n - 1);
      var m := Pow2(8 * (n - 1));
      assert Pow2(8 * n) == 256 * m by {
        Pow2Of32();
        Pow2Add(8 * (n - 1), 8);
      }
      assert BigEndian(BytesOf(v, n)) == 256 * (v / 256 % m) + v % 256 by {
        assert BytesOf(v, n)[..n - 1] == BytesOf(v / 256, n - 1);
      }
      ModByByte(v, m);
    }
  }

  lemma ModByByte(v: int, m: int)
    requires m > 0
    ensures 256 * (v / 256 % m) + v % 256 == v % (256 * m)
  {
    var q, r := v / 256 / m, v / 256 % m;
    var s := 256 * r + v % 256;
    assert v == (256 * m) * q + s by {
      assert v / 256 == m * q + r;
    }
    Decimal.ModUnique(v, 256 * m, q, s);
  }

  /** The hash of the counter is taken over the 8-byte form RFC 4226 asks for. */
  lemma CounterIsExact(counter: int)
    requires 0 <= counter < 0x20_0000_0000_0000
    ensures BigEndian(BytesOf(counter, 8)) == counter
  {
    CounterBytes(counter, 8);
    assert Pow2(64) == 0x1_0000_0000_0000_0000 by {
      Pow2Of32();
      Pow2Add(32, 32);
    }
  }

  /** Enrolment to login: with a freshly generated secret, a code is accepted exactly when
      it is the six-digit numeral of the HOTP value of the random key itself at a counter
      within the skew window. */
  lemma EnrolledCodes(hmac: Hmac, upper: CaseTable, randomBytes: seq<Byte>, code: string, now: int, skewWindow: int)
    requires |randomBytes| == 20 && AsciiUpper(upper)
    ensures Accepts(hmac, upper, EncodeSpec(randomBytes), code, now, skewWindow)
      <==> (&& IsSixDigits(code)
            && exists counter :: InWindow(counter, now, skewWindow)
                                 && Hotp(hmac, randomBytes, counter) == Decimal.Parse(code))
  {
    var secret := EncodeSpec(randomBytes);
    DecodeEncode(randomBytes);
    SymbolsInAlphabet(ByteBits(randomBytes));
    SecretIsPlain(secret, upper);
    forall counter: int
      ensures TotpCode(hmac, upper, secret, counter) == code
         <==> IsSixDigits(code) && Hotp(hmac, randomBytes, counter) == Decimal.Parse(code)
    {
      SixDigits(Hotp(hmac, randomBytes, counter), code);
    }
  }

  lemma SixDigits(n: nat, code: string)
    requires n < 1000000
    ensures Decimal.PadStart(Decimal.Show(n), 6, '0') == code <==> IsSixDigits(code) && Decimal.Parse(code) == n
  {
    assert Decimal.Pow10(6) == 1000000;
    Decimal.FixedWidth(n, 6, code);
  }

  /** At some moment at most so many milliseconds away this is the code. */
  ghost predicate IsCodeWithin(hmac: Hmac, upper: CaseTable, secret: string, code: string, now: int, tolerance: int) {
    exists time :: -tolerance <= time - now <= tolerance && TotpCode(hmac, upper, secret, time / 30000) == code
  }

  /** A code is accepted exactly if it is that of some moment at most half a minute, or so many
      of them as the window has steps, away: a code just shown is accepted that long. */
  lemma AcceptsExact(hmac: Hmac, upper: CaseTable, secret: string, code: string, now: int, skewWindow: nat)
    ensures Accepts(hmac, upper, secret, code, now, skewWindow)
       <==> secret != "" && IsCodeWithin(hmac, upper, secret, code, now, 30000 * skewWindow)
  {
    if IsCodeWithin(hmac, upper, secret, code, now, 30000 * skewWindow) {
      var time :| -30000 * skewWindow <= time - now <= 30000 * skewWindow
               && TotpCode(hmac, upper, secret, time / 30000) == code;
      assert InWindow(time / 30000, now, skewWindow);
      SixDigits(Hotp(hmac, KeyOf(secret, upper), time / 30000), code);
    }
    if counter :| InWindow(counter, now, skewWindow) && TotpCode(hmac, upper, secret, counter) == code {
      var time := MomentOf(counter, now, skewWindow);
      assert TotpCode(hmac, upper, secret, time / 30000) == code;
    }
  }

  /** The moment of a counter that is nearest to now. */
  lemma MomentOf(counter: int, now: int, skewWindow: nat) returns (time: int)
    requires InWindow(counter, now, skewWindow)
    ensures time / 30000 == counter && -30000 * skewWindow <= time - now <= 30000 * skewWindow
  {
    time := if counter == CounterAt(now) then now
            else if counter < CounterAt(now) then 30000 * counter + 29999 else 30000 * counter;
  }

  /** A secret with white space put in and letters in lower case. */
  ghost predicate Typed(typed: string, secret: string) {
    var plain := StripSpace(typed);
    && |plain| == |secret|
    && forall i :: 0 <= i < |secret| ==>
         plain[i] == secret[i] || ('A' <= secret[i] <= 'Z' && plain[i] == secret[i] + ' ')
  }

  lemma {:induction false} TypedInUpper(plain: string, secret: string, upper: CaseTable)
    requires AsciiUpper(upper) && |plain| == |secret|
    requires forall i :: 0 <= i < |secret| ==> IndexOf(secret[i]) != -1
    requires forall i :: 0 <= i < |secret| ==>
               plain[i] == secret[i] || ('A' <= secret[i] <= 'Z' && plain[i] == secret[i] + ' ')
    ensures MapCase(plain, upper) == secret
  {
    if secret != "" {
      TypedInUpper(plain[1..], secret[1..], upper);
      assert secret == [secret[0]] + secret[1..];
    }
  }

  /** Typed like this, a generated secret still stands for the random bytes. */
  lemma TypedSecret(randomBytes: seq<Byte>, typed: string, upper: CaseTable)
    requires AsciiUpper(upper) && Typed(typed, EncodeSpec(randomBytes))
    ensures KeyOf(typed, upper) == randomBytes
  {
    DecodeEncode(randomBytes);
    SymbolsInAlphabet(ByteBits(randomBytes));
    TypedInUpper(StripSpace(typed), EncodeSpec(randomBytes), upper);
  }
}
