/**
 Bit strings and the 32-bit integer operators of ECMAScript, written out on
 unbounded integers.

 A JavaScript number that goes through `<<`, `|` or `&` comes out as a signed
 32-bit word, and `>>>` reads its operand as an unsigned one (ToInt32 and ToUint32,
 sections 7.1.6 and 7.1.7 of ECMA-262).  The lemmas describe every operator by what
 it does to the bit string of its operands.
 */
module Int32 {

  const TWO_TO_THE_32 := 0x1_0000_0000

  function Pow2(n: nat): (p: int)
    ensures p >= 1
  {
    if n == 0 then 1 else 2 * Pow2(n - 1)
  }

  // ----- the operators

  function ToUint32(x: int): int {
    x % TWO_TO_THE_32
  }

  function ToInt32(x: int): int {
    var u := ToUint32(x);
    if u < 0x8000_0000 then u else u - TWO_TO_THE_32
  }

  /** The low `n` bits of the bitwise or. */
  function OrBits(x: int, y: int, n: nat): int
    decreases n, x
  {
    if n == 0 then 0
    else 2 * OrBits(x / 2, y / 2, n - 1) + (if x % 2 == 1 || y % 2 == 1 then 1 else 0)
  }

  /** The low `n` bits of the bitwise and. */
  function AndBits(x: int, y: int, n: nat): int
    decreases n, x
  {
    if n == 0 then 0
    else 2 * AndBits(x / 2, y / 2, n - 1) + (if x % 2 == 1 && y % 2 == 1 then 1 else 0)
  }

  /** `x << count` */
  function Shl(x: int, count: nat): int {
    ToInt32(ToInt32(x) * Pow2(count % 32))
  }

  /** `x >>> count` */
  function UShr(x: int, count: nat): int {
    ToUint32(x) / Pow2(count % 32)
  }

  /** `x | y` */
  function Or(x: int, y: int): int {
    ToInt32(OrBits(x, y, 32))
  }

  /** `x & y` */
  function And(x: int, y: int): int {
    ToInt32(AndBits(x, y, 32))
  }

  // ----- bit strings, most significant bit first

  /** The low `n` bits of `v` in two's complement. */
  function BitsOf(v: int, n: nat): (bits: seq<bool>)
    ensures |bits| == n
    decreases n, v
  {
    if n == 0 then [] else BitsOf(v / 2, n - 1) + [v % 2 == 1]
  }

  /** The number a bit string denotes. */
  function Value(bits: seq<bool>): (v: int)
    ensures 0 <= v < Pow2(|bits|)
  {
    if |bits| == 0 then 0
    else 2 * Value(bits[..|bits| - 1]) + (if bits[|bits| - 1] then 1 else 0)
  }

  lemma {:induction false} BitsOfValue(bits: seq<bool>)
    ensures BitsOf(Value(bits), |bits|) == bits
  {
    if |bits| > 0 {
      BitsOfValue(bits[..|bits| - 1]);
      assert bits == bits[..|bits| - 1] + [bits[|bits| - 1]];
    }
  }

  lemma {:induction false} ValueOfBits(v: int, n: nat)
    requires 0 <= v < Pow2(n)
    ensures Value(BitsOf(v, n)) == v
    decreases n, v
  {
    if n > 0 {
      ValueOfBits(v / 2, n - 1);
      assert BitsOf(v, n)[..n - 1] == BitsOf(v / 2, n - 1);
    }
  }

  lemma {:induction false} Pow2Add(a: nat, b: nat)
    ensures Pow2(a + b) == Pow2(a) * Pow2(b)
  {
    if b > 0 {
      Pow2Add(a, b - 1);
      assert a + b - 1 == a + (b - 1);
    }
  }

  lemma Pow2Of32()
    ensures Pow2(32) == TWO_TO_THE_32
    ensures Pow2(31) == 0x8000_0000 && Pow2(24) == 0x100_0000 && Pow2(16) == 0x1_0000
    ensures Pow2(8) == 256 && Pow2(7) == 128 && Pow2(5) == 32 && Pow2(4) == 16
  {
    assert Pow2(8) == 256 && Pow2(7) == 128 && Pow2(5) == 32 && Pow2(4) == 16;
    Pow2Add(8, 8);
    Pow2Add(16, 8);
    Pow2Add(24, 8);
    assert Pow2(32) == 2 * Pow2(31);
  }

  /** A multiple of 2^n is invisible in the low n bits. */
  lemma {:induction false} BitsShift(v: int, k: int, n: nat)
    ensures BitsOf(v + k * Pow2(n), n) == BitsOf(v, n)
    decreases n, v
  {
    if n > 0 {
      var m := k * Pow2(n - 1);
      assert k * Pow2(n) == 2 * m;
      assert (v + 2 * m) / 2 == v / 2 + m && (v + 2 * m) % 2 == v % 2;
      BitsShift(v / 2, k, n - 1);
    }
  }

  lemma {:induction false} BitsSuffix(v: int, m: nat, n: nat)
    requires m <= n
    ensures BitsOf(v, n)[n - m..] == BitsOf(v, m)
    decreases n, v
  {
    if m > 0 {
      BitsSuffix(v / 2, m - 1, n - 1);
    }
  }

  lemma {:induction false} BitsAppend(a: int, b: int, n: nat, k: nat)
    requires 0 <= b < Pow2(k)
    ensures BitsOf(a * Pow2(k) + b, n + k) == BitsOf(a, n) + BitsOf(b, k)
    decreases k
  {
    if k > 0 {
      var m := a * Pow2(k - 1);
      assert a * Pow2(k) == 2 * m;
      assert (2 * m + b) / 2 == m + b / 2 && (2 * m + b) % 2 == b % 2;
      BitsAppend(a, b / 2, n, k - 1);
      assert n + k - 1 == n + (k - 1);
    }
  }

  /** Dividing by 2^k drops the last k bits. */
  lemma BitsSplit(v: int, n: nat, k: nat)
    ensures BitsOf(v, n + k) == BitsOf(v / Pow2(k), n) + BitsOf(v, k)
    ensures BitsOf(v % Pow2(k), k) == BitsOf(v, k)
  {
    var q, r := v / Pow2(k), v % Pow2(k);
    assert v == q * Pow2(k) + r;
    BitsAppend(q, r, n, k);
    BitsShift(r, q, k);
  }

  lemma {:induction false} OrBitsDisjoint(x: int, y: int, k: nat, n: nat)
    requires k <= n && 0 <= y < Pow2(k)
    ensures BitsOf(OrBits(x * Pow2(k), y, n), n) == BitsOf(x * Pow2(k) + y, n)
    decreases n, x
  {
    if n > 0 && k > 0 {
      var m := x * Pow2(k - 1);
      assert x * Pow2(k) == 2 * m;
      assert (2 * m) / 2 == m && (2 * m) % 2 == 0;
      assert (2 * m + y) / 2 == m + y / 2 && (2 * m + y) % 2 == y % 2;
      OrBitsDisjoint(x, y / 2, k - 1, n - 1);
      assert (2 * OrBits(m, y / 2, n - 1) + y % 2) / 2 == OrBits(m, y / 2, n - 1);
    } else if n > 0 {
      assert x * Pow2(0) == x && y == 0;
      OrBitsZero(x, n);
    }
  }

  lemma {:induction false} OrBitsZero(x: int, n: nat)
    ensures BitsOf(OrBits(x, 0, n), n) == BitsOf(x, n)
    decreases n, x
  {
    if n > 0 {
      OrBitsZero(x / 2, n - 1);
      assert (2 * OrBits(x / 2, 0, n - 1) + x % 2) / 2 == OrBits(x / 2, 0, n - 1);
    }
  }

  lemma {:induction false} AndBitsMask(x: int, k: nat, n: nat)
    requires k <= n
    ensures 0 <= AndBits(x, Pow2(k) - 1, n) < Pow2(k)
    ensures BitsOf(AndBits(x, Pow2(k) - 1, n), k) == BitsOf(x, k)
    decreases n, x
  {
    if k > 0 {
      AndBitsMask(x / 2, k - 1, n - 1);
      var p, a := Pow2(k - 1), AndBits(x / 2, Pow2(k - 1) - 1, n - 1);
      assert Pow2(k) == 2 * p && (2 * p - 1) / 2 == p - 1 && (2 * p - 1) % 2 == 1;
      assert AndBits(x, 2 * p - 1, n) == 2 * a + x % 2;
      assert (2 * a + x % 2) / 2 == a && (2 * a + x % 2) % 2 == x % 2;
    } else {
      AndBitsZero(x, n);
    }
  }

  lemma {:induction false} AndBitsZero(x: int, n: nat)
    ensures AndBits(x, 0, n) == 0
    decreases n, x
  {
    if n > 0 {
      AndBitsZero(x / 2, n - 1);
    }
  }

  // ----- what the operators do to 32-bit words

  lemma WrapsSigned(x: int) returns (k: int)
    ensures ToInt32(x) == x + k * TWO_TO_THE_32
  {
    k := if ToUint32(x) < 0x8000_0000 then -(x / TWO_TO_THE_32) else -(x / TWO_TO_THE_32) - 1;
  }

  /** Wrapping to 32 bits, signed or not, keeps the word. */
  lemma WrapKeepsWord(x: int)
    ensures BitsOf(ToInt32(x), 32) == BitsOf(x, 32)
    ensures BitsOf(ToUint32(x), 32) == BitsOf(x, 32)
  {
    Pow2Of32();
    var k := WrapsSigned(x);
    BitsShift(x, k, 32);
    BitsShift(x, -(x / TWO_TO_THE_32), 32);
  }

  /** The arithmetic of a wrapped product: what the wrap adds is a multiple of both. */
  lemma WrappedProduct(x: int, q: int, c: int, p: int)
    ensures (x + q * c) * p == x * p + q * (c * p)
    ensures (x + q * c) * p == x * p + (q * p) * c
  {
  }

  /** A left shift by k is a multiple of 2^k ... */
  lemma ShlFactor(acc: int, k: nat) returns (a: int)
    requires k < 32
    ensures Shl(acc, k) == a * Pow2(k)
  {
    var p, x, c := Pow2(k), ToInt32(acc), Pow2(32 - k);
    assert k % 32 == k;
    var q := WrapsSigned(x * p);
    assert c * p == TWO_TO_THE_32 by {
      Pow2Of32();
      Pow2Add(32 - k, k);
    }
    WrappedProduct(x, q, c, p);
    a := x + q * c;
  }

  lemma ShiftedProduct(acc: int, q: int, p: int, x: int)
    requires x == acc + q * TWO_TO_THE_32
    ensures x * p == acc * p + (q * p) * Pow2(32)
  {
    Pow2Of32();
    WrappedProduct(acc, q, TWO_TO_THE_32, p);
  }

  /** ... and agrees with the unwrapped product on the word. */
  lemma ShlWord(acc: int, k: nat)
    requires k < 32
    ensures BitsOf(Shl(acc, k), 32) == BitsOf(acc * Pow2(k), 32)
  {
    var p, x := Pow2(k), ToInt32(acc);
    assert k % 32 == k;
    WrapKeepsWord(x * p);
    var q := WrapsSigned(acc);
    ShiftedProduct(acc, q, p, x);
    BitsShift(acc * p, q * p, 32);
  }

  /** `(acc << k) | piece`: the piece is appended to whatever low bits the accumulator
      holds, although the accumulator is never masked. */
  lemma AppendBits(acc: int, piece: int, k: nat, n: nat)
    requires n + k <= 32 && k < 32 && 0 <= piece < Pow2(k)
    ensures BitsOf(Or(Shl(acc, k), piece), n + k) == BitsOf(acc, n) + BitsOf(piece, k)
  {
    var a := ShlFactor(acc, k);
    ShlWord(acc, k);
    var w := Or(Shl(acc, k), piece);
    assert BitsOf(w, 32) == BitsOf(a, 32 - k) + BitsOf(piece, k) by {
      OrBitsDisjoint(a, piece, k, 32);
      WrapKeepsWord(OrBits(a * Pow2(k), piece, 32));
      BitsAppend(a, piece, 32 - k, k);
    }
    assert BitsOf(a, 32 - k) == BitsOf(acc, 32 - k) by {
      BitsAppend(a, 0, 32 - k, k);
      BitsAppend(acc, 0, 32 - k, k);
      assert BitsOf(a, 32 - k) == BitsOf(a * Pow2(k), 32)[..32 - k];
      assert BitsOf(acc, 32 - k) == BitsOf(acc * Pow2(k), 32)[..32 - k];
    }
    BitsSuffix(w, n + k, 32);
    BitsSuffix(acc, n, 32 - k);
  }

  /** `(acc >>> (n - k)) & (2^k - 1)` reads the first k of the low n bits; the other
      n - k stay behind. */
  lemma TakeBits(acc: int, k: nat, n: nat)
    requires k <= n < 32
    ensures var piece := And(UShr(acc, n - k), Pow2(k) - 1);
            0 <= piece < Pow2(k) && BitsOf(acc, n) == BitsOf(piece, k) + BitsOf(acc, n - k)
  {
    var u, q := ToUint32(acc), UShr(acc, n - k);
    assert BitsOf(u, n) == BitsOf(q, k) + BitsOf(u, n - k) by {
      assert (n - k) % 32 == n - k;
      BitsSplit(u, k, n - k);
    }
    MaskBits(q, k);
    SameLowBits(u, acc, n);
    SameLowBits(u, acc, n - k);
  }

  lemma SameLowBits(u: int, acc: int, n: nat)
    requires n <= 32 && u == ToUint32(acc)
    ensures BitsOf(u, n) == BitsOf(acc, n)
  {
    WrapKeepsWord(acc);
    BitsSuffix(u, n, 32);
    BitsSuffix(acc, n, 32);
  }

  /** `x & (2^k - 1)` for k < 32 keeps the low k bits ... */
  lemma MaskBits(x: int, k: nat)
    requires k < 32
    ensures 0 <= And(x, Pow2(k) - 1) < Pow2(k)
    ensures BitsOf(And(x, Pow2(k) - 1), k) == BitsOf(x, k)
  {
    var a := AndBits(x, Pow2(k) - 1, 32);
    assert a < 0x8000_0000 && BitsOf(a, k) == BitsOf(x, k) && 0 <= a < Pow2(k) by {
      AndBitsMask(x, k, 32);
      Pow2Below31(k);
    }
    WrapIsIdentity(a);
  }

  lemma Mask(x: int, k: nat, mask: int)
    requires k < 32 && mask == Pow2(k) - 1
    ensures And(x, mask) == x % (mask + 1)
  {
    MaskIsMod(x, k);
  }

  lemma WrapIsIdentity(a: int)
    requires 0 <= a < 0x8000_0000
    ensures ToInt32(a) == a
  {
  }

  lemma Pow2Below31(k: nat)
    requires k < 32
    ensures Pow2(k) <= 0x8000_0000
  {
    Pow2Grows(k, 31);
    Pow2Of32();
  }

  /** ... and so is the remainder modulo 2^k. */
  lemma MaskIsMod(x: int, k: nat)
    requires k < 32
    ensures And(x, Pow2(k) - 1) == x % Pow2(k)
  {
    MaskBits(x, k);
    BitsSplit(x, 0, k);
    ValueOfBits(And(x, Pow2(k) - 1), k);
    ValueOfBits(x % Pow2(k), k);
  }

  lemma {:induction false} Pow2Grows(a: nat, b: nat)
    requires a <= b
    ensures Pow2(a) <= Pow2(b)
  {
    if a < b {
      Pow2Grows(a, b - 1);
    }
  }

  /** On words that do not overlap and stay below 2^31, `|` is addition. */
  lemma OrAdds(x: int, y: int, k: nat)
    requires k <= 32 && 0 <= y < Pow2(k)
    requires 0 <= x * Pow2(k) && x * Pow2(k) + y < 0x8000_0000
    ensures Or(x * Pow2(k), y) == x * Pow2(k) + y
  {
    var m := x * Pow2(k);
    OrBitsDisjoint(x, y, k, 32);
    OrBitsRange(m, y, 32);
    SameWord(OrBits(m, y, 32), m + y);
  }

  lemma SameWord(a: int, b: int)
    requires 0 <= a < Pow2(32) && 0 <= b < 0x8000_0000
    requires BitsOf(a, 32) == BitsOf(b, 32)
    ensures a == b
  {
    Pow2Of32();
    ValueOfBits(a, 32);
    ValueOfBits(b, 32);
  }

  lemma {:induction false} OrBitsRange(x: int, y: int, n: nat)
    ensures 0 <= OrBits(x, y, n) < Pow2(n)
    decreases n, x
  {
    if n > 0 {
      OrBitsRange(x / 2, y / 2, n - 1);
    }
  }
}
