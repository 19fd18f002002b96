/** Values that the program's tests and the Bitcoin Improvement Proposals publish, and the tables as they print them. */
module Vectors {
  import opened Options
  import opened Arith
  import opened Limbs
  import opened Radix
  import Base58
  import opened Bech32Checksum
  import Bech32
  import Compact

  // ---------------------------------------------------------------- Base58

  const BASE58_ALPHABET: string := "123456789ABCDEFGHJKLMN" + "PQRSTUVWXYZabcdefghijk" + "mnopqrstuvwxyz"

  lemma Base58Alphabet(d: nat)
    requires d < 58
    ensures |BASE58_ALPHABET| == 58 && Base58.DigitChar(d) == BASE58_ALPHABET[d]
  {
    if d < 22 { Base58Upper(d); } else if d < 44 { Base58Middle(d); } else { Base58Lower(d); }
  }

  lemma Base58Upper(d: nat)
    requires d < 22
    ensures Base58.DigitChar(d) == BASE58_ALPHABET[d]
  {
    assert d == 0 || d == 1 || d == 2 || d == 3 || d == 4 || d == 5 || d == 6 || d == 7 || d == 8 || d == 9 || d == 10
        || d == 11 || d == 12 || d == 13 || d == 14 || d == 15 || d == 16 || d == 17 || d == 18 || d == 19 || d == 20
          || d == 21;
  }

  lemma Base58Middle(d: nat)
    requires 22 <= d < 44
    ensures Base58.DigitChar(d) == BASE58_ALPHABET[d]
  {
    assert d == 22 || d == 23 || d == 24 || d == 25 || d == 26 || d == 27 || d == 28 || d == 29 || d == 30 || d == 31
      || d == 32
        || d == 33 || d == 34 || d == 35 || d == 36 || d == 37 || d == 38 || d == 39 || d == 40 || d == 41 || d == 42
          || d == 43;
  }

  lemma Base58Lower(d: nat)
    requires 44 <= d < 58
    ensures Base58.DigitChar(d) == BASE58_ALPHABET[d]
  {
    assert d == 44 || d == 45 || d == 46 || d == 47 || d == 48 || d == 49 || d == 50
        || d == 51 || d == 52 || d == 53 || d == 54 || d == 55 || d == 56 || d == 57;
  }

  /** "61" is written "2g", and zero bytes as ones. */
  lemma Base58Vectors()
    ensures Base58.Encode([0x61]) == "2g" && Base58.Encode([0, 0, 0x61]) == "112g" && Base58.Encode([]) == ""
  {
    Digits61();
    Base58Alphabet(1);
    Base58Alphabet(39);
    assert Base58.LeadingZeros([0x61]) == 0 && [0x61][0..] == [0x61];
    assert [0, 0x61][1..] == [0x61] && [0, 0, 0x61][1..] == [0, 0x61] && [0, 0, 0x61][2..] == [0x61];
    assert Base58.LeadingZeros([0, 0x61]) == 1 && Base58.LeadingZeros([0, 0, 0x61]) == 2;
    assert seq(0, _ => '1') == "" && seq(2, _ => '1') == "11";
    assert Base58.Chars([1, 39]) == "2g";
  }

  lemma Digits61()
    ensures Num([0x61], 256) == 97 && ToDigits(97, 58) == [1, 39] && ToDigits(0, 58) == [] && Num([], 256) == 0
  {
    assert Pow(256, 0) == 1 && [0x61][1..] == [];
    assert 97 / 58 == 1 && 97 % 58 == 39;
    assert ToDigits(1, 58) == [1];
  }

  // ---------------------------------------------------------------- Bech32 and Bech32m

  const BECH32_CHARSET: string := "qpzry9x8gf2tvdw0s3jn54khce6mua7l"

  function Ascii(c: bv8): char { c as int as char }

  lemma Bech32Charset(v: bv8)
    requires v < 32
    ensures |BECH32_CHARSET| == 32 && Ascii(Bech32.SymbolChar(v)) == BECH32_CHARSET[v as int]
  {
    if v < 8 {
      assert v == 0 || v == 1 || v == 2 || v == 3 || v == 4 || v == 5 || v == 6 || v == 7;
    } else if v < 16 {
      assert v == 8 || v == 9 || v == 10 || v == 11 || v == 12 || v == 13 || v == 14 || v == 15;
    } else if v < 24 {
      assert v == 16 || v == 17 || v == 18 || v == 19 || v == 20 || v == 21 || v == 22 || v == 23;
    } else {
      assert v == 24 || v == 25 || v == 26 || v == 27 || v == 28 || v == 29 || v == 30 || v == 31;
    }
  }

  lemma PrefixSteps()
    ensures PolyStep(1, 3) == 0x23 && PolyStep(0x23, 0) == 0x460 && PolyStep(0x460, 1) == 0x8c01
  {}

  lemma Bech32Steps()
    ensures PolyStep(0x8c01, 10) == 0x11802a && PolyStep(0x11802a, 28) == 0x230055c
    ensures PolyStep(0x230055c, 25) == 0x3d6afc2b && PolyStep(0x3d6afc2b, 31) == 0x2f84386
    ensures PolyStep(0x2f84386, 20) == 0x24622766 && PolyStep(0x24622766, 31) == 1
  {}

  lemma Bech32mSteps()
    ensures PolyStep(0x8c01, 31) == 0x11803f && PolyStep(0x11803f, 0) == 0x23007e0
    ensures PolyStep(0x23007e0, 9) == 0x3d6aabbb && PolyStep(0x3d6aabbb, 19) == 0x2f2b18a
    ensures PolyStep(0x2f2b18a, 17) == 0x253c66e3 && PolyStep(0x253c66e3, 29) == 0x2bc830a3
  {}

  lemma VectorFolds()
    ensures Fold(1, [3, 0, 1, 10, 28, 25, 31, 20, 31]) == 1 && Fold(1, [3, 0, 1, 31, 0, 9, 19, 17, 29]) == 0x2bc830a3
  {
    PrefixSteps();
    Bech32Steps();
    Bech32mSteps();
    hide PolyStep, Fold;
    FoldNine(3, 0, 1, 10, 28, 25, 31, 20, 31);
    FoldNine(3, 0, 1, 31, 0, 9, 19, 17, 29);
  }

  lemma FoldNine(a: bv8, b: bv8, c: bv8, d: bv8, e: bv8, f: bv8, g: bv8, h: bv8, i: bv8)
    ensures Fold(1, [a, b, c, d, e, f, g, h, i]) ==
      PolyStep(PolyStep(PolyStep(PolyStep(PolyStep(PolyStep(PolyStep(PolyStep(PolyStep(1, a), b), c), d), e), f), g),
        h), i)
  {
    hide PolyStep;
    FoldNone(1);
    assert [a, b, c, d, e, f, g, h, i] == [] + [a] + [b] + [c] + [d] + [e] + [f] + [g] + [h] + [i];
    hide Fold;
    FoldSnoc(1, [], a);
    FoldSnoc(1, [] + [a], b);
    FoldSnoc(1, [] + [a] + [b], c);
    FoldSnoc(1, [] + [a] + [b] + [c], d);
    FoldSnoc(1, [] + [a] + [b] + [c] + [d], e);
    FoldSnoc(1, [] + [a] + [b] + [c] + [d] + [e], f);
    FoldSnoc(1, [] + [a] + [b] + [c] + [d] + [e] + [f], g);
    FoldSnoc(1, [] + [a] + [b] + [c] + [d] + [e] + [f] + [g], h);
    FoldSnoc(1, [] + [a] + [b] + [c] + [d] + [e] + [f] + [g] + [h], i);
  }

  lemma ExpandA()
    ensures Expand([0x61]) == [3, 0, 1]
  {
    assert High(0x61) == 3 && Low(0x61) == 1;
  }

  /** The shortest valid strings of both proposals: "a12uel5l" of BIP 173 and "a1lqfn3a" of BIP 350. */
  lemma Bech32Vectors()
    ensures Bech32.Encoded(BECH32, [0x61], []) == [0x61, 0x31, 0x32, 0x75, 0x65, 0x6c, 0x35, 0x6c]
    ensures Bech32.Encoded(BECH32M, [0x61], []) == [0x61, 0x31, 0x6c, 0x71, 0x66, 0x6e, 0x33, 0x61]
  {
    VectorFolds();
    ExpandA();
    hide Fold, Expand;
    var p: Bytes, x: Bytes, y: Bytes := [3, 0, 1], [10, 28, 25, 31, 20, 31], [31, 0, 9, 19, 17, 29];
    assert p + x == [3, 0, 1, 10, 28, 25, 31, 20, 31] && p + y == [3, 0, 1, 31, 0, 9, 19, 17, 29];
    VectorChecksum(BECH32, x, [0x32, 0x75, 0x65, 0x6c, 0x35, 0x6c]);
    VectorChecksum(BECH32M, y, [0x6c, 0x71, 0x66, 0x6e, 0x33, 0x61]);
  }

  lemma VectorChecksum(e: Encoding, tail: Bytes, chars: Bytes)
    requires |tail| == 6 && Symbols(tail) && Check([0x61], tail) == EncodingConstant(e) && Bech32.Chars(tail) == chars
    ensures Bech32.Encoded(e, [0x61], []) == [0x61, 0x31] + chars
  {
    hide Check, EncodingConstant, ChecksumOf, Bech32.Chars;
    assert [] + tail == tail;
    ChecksumUnique(e, [0x61], [], tail);
  }

  // ---------------------------------------------------------------- compact words

  lemma CompactWord(v: nat, size: nat, n: nat)
    requires v > 0 && size > 0 && Pow2(8 * (size - 1)) <= v < Pow2(8 * size)
    requires n < 0x80_0000 && n == Compact.Leading(v, size)
    ensures Compact.CompactOf(v) == n + size * 0x100_0000
  {
    hide Pow2, Compact.Leading;
    Compact.ByteLenUnique(v, size);
  }

  /** Small numbers: two leading bytes, a mantissa that would touch the sign bit, and one whose low byte is kept. */
  lemma CompactVectors()
    ensures Compact.CompactOf(0) == 0 && Compact.CompactOf(0x12) == 0x0112_0000
    ensures Compact.CompactOf(0x80) == 0x0200_8000 && Compact.CompactOf(0x1234_5600) == 0x0412_3456
    ensures Compact.CompactValue(0x0112_3456) == 0x12 && Compact.CompactValue(0x0500_9234) == 0x9234_0000
  {
    Compact.CompactZero();
    Compact.SmallPowers();
    Pow2Add(16, 16);
    hide Pow2;
    CompactWord(0x12, 1, 0x12_0000);
    Compact.ByteLenUnique(0x80, 1);
    CompactWord(0x1234_5600, 4, 0x12_3456);
  }

  /** The proof-of-work limit of the regression test network, 2^255 - 1. */
  lemma RegtestLimit()
    ensures Compact.CompactOf(Pow2(255) - 1) == 0x207f_ffff
  {
    hide Pow2;
    Compact.SmallPowers();
    Pow2Add(255, 1);
    Pow2Add(248, 7);
    Pow2Add(232, 23);
    Compact.PowOne();
    var p := Pow2(232);
    DivIs(Pow2(255) - 1, p, 0x7f_ffff, p - 1);
    Pow2Mono(0, 248);
    CompactWord(Pow2(255) - 1, 32, 0x7f_ffff);
  }
}
