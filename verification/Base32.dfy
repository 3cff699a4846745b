/**
 The base32 codec of src/common/utils/security.utils.ts (lines 59-99).

 The specification is the bit-string definition of section 6 of RFC 4648 without
 padding characters; the two methods are the accumulator loops, whose 32-bit
 accumulator is never masked and therefore overflows from the fifth byte on.
 */
module Base32 {
  import opened Int32
  import opened Wrappers

  type Byte = x: int | 0 <= x < 256

  const ALPHABET := "ABCDEFGHIJKLMNOPQRSTUVWXYZ234567"

  /** `alphabet[index]` */
  function SymbolAt(index: int): char
    requires 0 <= index < 32
  {
    (if index < 26 then 'A' as int + index else '2' as int + index - 26) as char
  }

  /** `alphabet.indexOf(c)` */
  function IndexOf(c: char): (index: int)
    ensures -1 <= index < 32
    ensures index != -1 ==> SymbolAt(index) == c
  {
    if 'A' <= c <= 'Z' then c as int - 'A' as int
    else if '2' <= c <= '7' then c as int - '2' as int + 26
    else -1
  }

  /** The two functions read the literal alphabet of the source. */
  lemma AlphabetTable(c: char)
    ensures |ALPHABET| == 32
    ensures forall index :: 0 <= index < 32 ==> ALPHABET[index] == SymbolAt(index) && IndexOf(SymbolAt(index)) == index
    ensures IndexOf(c) == -1 <==> c !in ALPHABET
  {
    assert forall index :: 0 <= index < 32 ==> ALPHABET[index] == SymbolAt(index);
    if IndexOf(c) != -1 {
      assert ALPHABET[IndexOf(c)] == c;
    }
  }

  // ----- specification

  /** The bit string of a byte string. */
  function ByteBits(bytes: seq<Byte>): (bits: seq<bool>)
    ensures |bits| == 8 * |bytes|
  {
    if bytes == [] then [] else BitsOf(bytes[0], 8) + ByteBits(bytes[1..])
  }

  /** The bit string of a base32 text; characters outside the alphabet stand for nothing. */
  function SymbolBits(text: string): seq<bool> {
    if text == "" then []
    else
      var index := IndexOf(text[0]);
      (if index == -1 then [] else BitsOf(index, 5)) + SymbolBits(text[1..])
  }

  function Zeros(n: nat): (bits: seq<bool>)
    ensures |bits| == n
  {
    seq(n, _ => false)
  }

  function Symbol(bits: seq<bool>): char
    requires |bits| == 5
  {
    assert Pow2(5) == 32;
    SymbolAt(Value(bits))
  }

  /** Five bits a symbol; zero bits complete the last one (section 6 of RFC 4648). */
  function Symbols(bits: seq<bool>): string {
    if |bits| == 0 then ""
    else if |bits| < 5 then [Symbol(bits + Zeros(5 - |bits|))]
    else [Symbol(bits[..5])] + Symbols(bits[5..])
  }

  /** Eight bits a byte; an incomplete last byte is dropped. */
  function Bytes(bits: seq<bool>): seq<Byte> {
    if |bits| < 8 then []
    else
      assert Pow2(8) == 256;
      [Value(bits[..8])] + Bytes(bits[8..])
  }

  function EncodeSpec(bytes: seq<Byte>): string {
    Symbols(ByteBits(bytes))
  }

  function DecodeSpec(text: string): seq<Byte> {
    Bytes(SymbolBits(text))
  }

  // ----- the accumulator loops

  method Encode(buffer: seq<Byte>) returns (output: string)
    ensures output == EncodeSpec(buffer)
  {
    var bits, value := 0, 0;
    output := "";
    assert buffer[0..] == buffer && BitsOf(0, 0) + ByteBits(buffer) == ByteBits(buffer);
    for i := 0 to |buffer|
      invariant 0 <= bits < 5
      invariant output + Symbols(BitsOf(value, bits) + ByteBits(buffer[i..])) == EncodeSpec(buffer)
    {
      ghost var rest := ByteBits(buffer[i + 1..]);
      assert ByteBits(buffer[i..]) == BitsOf(buffer[i], 8) + rest;
      Accumulate(value, bits, buffer[i], 8, rest);
      value := Or(Shl(value, 8), buffer[i]);
      bits := bits + 8;
      while bits >= 5
        invariant 0 <= bits < 13
        invariant output + Symbols(BitsOf(value, bits) + rest) == EncodeSpec(buffer)
      {
        EncodeStep(value, bits, rest);
        Assoc(output, [SymbolAt(And(UShr(value, bits - 5), 31))], Symbols(BitsOf(value, bits - 5) + rest));
        output := output + [SymbolAt(And(UShr(value, bits - 5), 31))];
        bits := bits - 5;
      }
    }
    assert BitsOf(value, bits) + ByteBits(buffer[|buffer|..]) == BitsOf(value, bits);
    if bits > 0 {
      EncodeLast(value, bits);
      output := output + [SymbolAt(And(Shl(value, 5 - bits), 31))];
    }
  }

  /** One turn of an accumulator moves the next piece of input behind the pending bits. */
  lemma Accumulate(value: int, bits: nat, piece: int, k: nat, rest: seq<bool>)
    requires (k == 5 || k == 8) && bits < 8
    requires 0 <= piece < (if k == 5 then 32 else 256)
    ensures BitsOf(Or(Shl(value, k), piece), bits + k) + rest
         == BitsOf(value, bits) + (BitsOf(piece, k) + rest)
  {
    assert Pow2(5) == 32 && Pow2(8) == 256;
    AppendBits(value, piece, k, bits);
  }

  lemma EncodeStep(value: int, bits: nat, rest: seq<bool>)
    requires 5 <= bits < 32
    ensures var index := And(UShr(value, bits - 5), 31);
            && 0 <= index < 32
            && Symbols(BitsOf(value, bits) + rest)
               == [SymbolAt(index)] + Symbols(BitsOf(value, bits - 5) + rest)
  {
    assert Pow2(5) == 32;
    TakeBits(value, 5, bits);
    var index := And(UShr(value, bits - 5), 31);
    ValueOfBits(index, 5);
    Assoc(BitsOf(index, 5), BitsOf(value, bits - 5), rest);
  }

  lemma EncodeLast(value: int, bits: nat)
    requires 0 < bits < 5
    ensures var index := And(Shl(value, 5 - bits), 31);
            0 <= index < 32 && Symbols(BitsOf(value, bits)) == [SymbolAt(index)]
  {
    assert Pow2(5) == 32;
    var k := 5 - bits;
    var w := Shl(value, k);
    MaskBits(w, 5);
    ShlWord(value, k);
    BitsSuffix(w, 5, 32);
    BitsSuffix(value * Pow2(k), 5, 32);
    BitsAppend(value, 0, bits, k);
    ZeroBits(k);
    assert value * Pow2(k) + 0 == value * Pow2(k);
    assert BitsOf(w, 5) == BitsOf(value, bits) + Zeros(k);
    ValueOfBits(And(w, 31), 5);
  }

  lemma {:induction false} ZeroBits(n: nat)
    ensures BitsOf(0, n) == Zeros(n)
  {
    if n > 0 {
      ZeroBits(n - 1);
    }
  }

  method Decode(base32: string) returns (bytes: seq<Byte>)
    ensures bytes == DecodeSpec(base32)
  {
    var bits, value := 0, 0;
    bytes := [];
    NothingRead(base32);
    for i := 0 to |base32|
      invariant 0 <= bits < 8
      invariant bytes + Bytes(BitsOf(value, bits) + SymbolBits(base32[i..])) == DecodeSpec(base32)
    {
      var index := IndexOf(base32[i]);
      ReadSymbol(base32, i);
      if index == -1 {
        continue;
      }
      DecodeTurn(value, bits, bytes, index, SymbolBits(base32[i + 1..]));
      value := Or(Shl(value, 5), index);
      bits := bits + 5;
      if bits >= 8 {
        bytes := bytes + [And(UShr(value, bits - 8), 255)];
        bits := bits - 8;
      }
    }
    AllRead(base32, value, bits);
  }

  lemma NothingRead(text: string)
    ensures BitsOf(0, 0) + SymbolBits(text[0..]) == SymbolBits(text)
  {
    assert text[0..] == text;
  }

  lemma AllRead(text: string, value: int, bits: nat)
    requires bits < 8
    ensures Bytes(BitsOf(value, bits) + SymbolBits(text[|text|..])) == []
  {
  }

  lemma ReadSymbol(text: string, i: nat)
    requires i < |text|
    ensures SymbolBits(text[i..])
         == if IndexOf(text[i]) == -1 then SymbolBits(text[i + 1..])
            else BitsOf(IndexOf(text[i]), 5) + SymbolBits(text[i + 1..])
  {
    SymbolBitsCons(text[i], text[i + 1..]);
    assert text[i..] == [text[i]] + text[i + 1..];
  }

  /** A turn of the loop leaves the bytes done and to come the same. */
  lemma DecodeTurn(value: int, bits: nat, bytes: seq<Byte>, index: int, rest: seq<bool>)
    requires bits < 8 && 0 <= index < 32
    ensures var value', bits', all := Or(Shl(value, 5), index), bits + 5,
                                      bytes + Bytes(BitsOf(value, bits) + (BitsOf(index, 5) + rest));
            if bits' < 8 then bytes + Bytes(BitsOf(value', bits') + rest) == all
            else
              && 0 <= And(UShr(value', bits' - 8), 255) < 256
              && bytes + [And(UShr(value', bits' - 8), 255)] + Bytes(BitsOf(value', bits' - 8) + rest) == all
  {
    var value', bits' := Or(Shl(value, 5), index), bits + 5;
    Accumulate(value, bits, index, 5, rest);
    if bits' >= 8 {
      DecodeStep(value', bits', rest);
      Assoc(bytes, [And(UShr(value', bits' - 8), 255)], Bytes(BitsOf(value', bits' - 8) + rest));
    }
  }

  lemma DecodeStep(value: int, bits: nat, rest: seq<bool>)
    requires 8 <= bits < 32
    ensures var byte := And(UShr(value, bits - 8), 255);
            && 0 <= byte < 256
            && Bytes(BitsOf(value, bits) + rest) == [byte] + Bytes(BitsOf(value, bits - 8) + rest)
  {
    assert Pow2(8) == 256;
    TakeBits(value, 8, bits);
    var byte := And(UShr(value, bits - 8), 255);
    ValueOfBits(byte, 8);
    Assoc(BitsOf(byte, 8), BitsOf(value, bits - 8), rest);
  }

  // ----- round trips

  /** The number of zero bits that complete the last symbol. */
  function PadLength(n: nat): (r: nat)
    ensures r < 5 && (n + r) % 5 == 0
    ensures n >= 5 ==> r == PadLength(n - 5)
  {
    if n >= 5 then PadLength(n - 5) else if n == 0 then 0 else 5 - n
  }

  lemma SymbolBitsOfSymbol(bits: seq<bool>)
    requires |bits| == 5
    ensures IndexOf(Symbol(bits)) == Value(bits)
    ensures BitsOf(IndexOf(Symbol(bits)), 5) == bits
  {
    assert Pow2(5) == 32;
    BitsOfValue(bits);
  }

  lemma SplitAppend(a: seq<bool>, b: seq<bool>, k: nat)
    requires k <= |a|
    ensures a[..k] + (a[k..] + b) == a + b
  {
  }

  lemma SymbolBitsCons(c: char, text: string)
    ensures IndexOf(c) == -1 ==> SymbolBits([c] + text) == SymbolBits(text)
    ensures IndexOf(c) != -1 ==> SymbolBits([c] + text) == BitsOf(IndexOf(c), 5) + SymbolBits(text)
  {
    assert ([c] + text)[1..] == text;
  }

  lemma {:induction false} SymbolBitsOfSymbols(bits: seq<bool>)
    ensures SymbolBits(Symbols(bits)) == bits + Zeros(PadLength(|bits|))
    decreases |bits|
  {
    if |bits| == 0 {
    } else if |bits| < 5 {
      var last := bits + Zeros(5 - |bits|);
      SymbolBitsOfSymbol(last);
      SymbolBitsCons(Symbol(last), "");
      assert [Symbol(last)] + "" == Symbols(bits);
    } else {
      SymbolBitsOfSymbol(bits[..5]);
      SymbolBitsOfSymbols(bits[5..]);
      SymbolBitsCons(Symbol(bits[..5]), Symbols(bits[5..]));
      SplitAppend(bits, Zeros(PadLength(|bits|)), 5);
    }
  }

  lemma {:induction false} SymbolsLength(bits: seq<bool>)
    ensures |Symbols(bits)| == (|bits| + 4) / 5
    decreases |bits|
  {
    if |bits| >= 5 {
      SymbolsLength(bits[5..]);
    }
  }

  lemma {:induction false} BytesOfByteBits(bytes: seq<Byte>, tail: seq<bool>)
    requires |tail| < 8
    ensures Bytes(ByteBits(bytes) + tail) == bytes
  {
    if bytes != [] {
      BytesOfByteBits(bytes[1..], tail);
      assert Pow2(8) == 256;
      ValueOfBits(bytes[0], 8);
      Assoc(BitsOf(bytes[0], 8), ByteBits(bytes[1..]), tail);
    }
  }

  /** Every byte string survives encoding and decoding, in ceil(8n/5) symbols. */
  lemma DecodeEncode(bytes: seq<Byte>)
    ensures DecodeSpec(EncodeSpec(bytes)) == bytes
    ensures |EncodeSpec(bytes)| == (8 * |bytes| + 4) / 5
  {
    var bits := ByteBits(bytes);
    SymbolBitsOfSymbols(bits);
    SymbolsLength(bits);
    BytesOfByteBits(bytes, Zeros(PadLength(|bits|)));
  }

  /** A text the encoder may have written: alphabet characters only, and the bits that
      follow the last whole byte are too few for a symbol and all zero. */
  predicate Canonical(text: string) {
    && (forall c :: c in text ==> IndexOf(c) != -1)
    && ZeroTail(SymbolBits(text))
  }

  predicate ZeroTail(bits: seq<bool>) {
    |bits| % 8 < 5 && forall i :: |bits| - |bits| % 8 <= i < |bits| ==> !bits[i]
  }

  lemma WholeBytes(n: nat)
    ensures 8 * n % 8 == 0
  {
  }

  lemma WholeSymbols(n: nat)
    ensures 5 * n % 5 == 0
  {
  }

  lemma ZeroTailIntro(whole: seq<bool>, n: nat)
    requires |whole| % 8 == 0 && n < 5
    ensures ZeroTail(whole + Zeros(n))
  {
    var bits := whole + Zeros(n);
    assert |bits| % 8 == n;
    assert forall i :: |whole| <= i < |bits| ==> bits[i] == Zeros(n)[i - |whole|];
  }

  lemma ZeroTailElim(bits: seq<bool>)
    requires ZeroTail(bits) && |bits| % 5 == 0
    ensures var whole := bits[..|bits| - |bits| % 8]; bits == whole + Zeros(PadLength(|whole|))
  {
    var whole, rest := bits[..|bits| - |bits| % 8], bits[|bits| - |bits| % 8..];
    PadLengthUnique(|whole|, |rest|);
    assert forall i :: 0 <= i < |rest| ==> rest[i] == bits[|whole| + i];
    assert rest == Zeros(|rest|);
    assert bits == whole + rest;
  }

  lemma {:induction false} SymbolsOfSymbolBits(text: string)
    requires forall c :: c in text ==> IndexOf(c) != -1
    ensures Symbols(SymbolBits(text)) == text
    ensures |SymbolBits(text)| == 5 * |text|
  {
    if text != "" {
      SymbolsOfSymbolBits(text[1..]);
      var index := IndexOf(text[0]);
      assert text[0] in text && index != -1;
      var bits := SymbolBits(text);
      assert bits[..5] == BitsOf(index, 5) && bits[5..] == SymbolBits(text[1..]);
      assert Pow2(5) == 32;
      ValueOfBits(index, 5);
    }
  }

  lemma LessOneByte(n: nat)
    requires n >= 8
    ensures n % 8 == (n - 8) % 8
  {
  }

  lemma {:induction false} ByteBitsOfBytes(bits: seq<bool>)
    ensures ByteBits(Bytes(bits)) == bits[..|bits| - |bits| % 8]
    decreases |bits|
  {
    if |bits| >= 8 {
      ByteBitsOfBytes(bits[8..]);
      BitsOfValue(bits[..8]);
      var k := |bits| - |bits| % 8;
      LessOneByte(|bits|);
      assert bits[..k] == bits[..8] + bits[8..][..k - 8];
    }
  }

  lemma {:induction false} SymbolsPadded(bits: seq<bool>)
    ensures Symbols(bits + Zeros(PadLength(|bits|))) == Symbols(bits)
    decreases |bits|
  {
    var padded := bits + Zeros(PadLength(|bits|));
    if |bits| == 0 {
    } else if |bits| < 5 {
      assert padded[..5] == padded && padded[5..] == [];
    } else {
      SymbolsPadded(bits[5..]);
      assert padded[..5] == bits[..5] && padded[5..] == bits[5..] + Zeros(PadLength(|bits[5..]|));
    }
  }

  /** The other direction holds exactly on the texts the encoder writes: the decoder also
      accepts stray characters, truncated symbols and non-zero trailing bits. */
  lemma EncodeDecode(text: string)
    ensures EncodeSpec(DecodeSpec(text)) == text <==> Canonical(text)
  {
    if Canonical(text) {
      CanonicalDecodes(text);
    }
    if EncodeSpec(DecodeSpec(text)) == text {
      EncodedIsCanonical(DecodeSpec(text));
    }
  }

  lemma EncodedIsCanonical(bytes: seq<Byte>)
    ensures Canonical(EncodeSpec(bytes))
  {
    var bits := ByteBits(bytes);
    assert ZeroTail(SymbolBits(EncodeSpec(bytes))) by {
      SymbolBitsOfSymbols(bits);
      WholeBytes(|bytes|);
      ZeroTailIntro(bits, PadLength(|bits|));
    }
    SymbolsInAlphabet(bits);
  }

  lemma PadLengthUnique(n: nat, r: nat)
    requires r < 5 && (n + r) % 5 == 0
    ensures r == PadLength(n)
  {
  }

  lemma CanonicalDecodes(text: string)
    requires Canonical(text)
    ensures EncodeSpec(DecodeSpec(text)) == text
  {
    var bits := SymbolBits(text);
    SymbolsOfSymbolBits(text);
    WholeSymbols(|text|);
    ByteBitsOfBytes(bits);
    ZeroTailElim(bits);
    SymbolsPadded(ByteBits(Bytes(bits)));
  }

  lemma {:induction false} SymbolsInAlphabet(bits: seq<bool>)
    ensures forall c :: c in Symbols(bits) ==> IndexOf(c) != -1
    decreases |bits|
  {
    if |bits| >= 5 {
      SymbolsInAlphabet(bits[5..]);
    }
  }
}
