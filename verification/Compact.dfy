/** The compact difficulty format and the work a difficulty stands for. */
module Compact {
  import opened Arith
  import opened Limbs
  import opened Shifts
  import opened ArithUint

  /** `arith_uint256` has eight limbs. */
  const WIDTH: nat := 8

  // ---------------------------------------------------------------- what a compact word means

  function Exponent(c: nat): nat { c / 0x100_0000 }

  function Mantissa(c: nat): nat { c % 0x80_0000 }

  predicate SignBit(c: nat) { (c / 0x80_0000) % 2 == 1 }

  /** The mantissa times 256 to the exponent less three, rounded down: the number before it is cut
      to 256 bits. */
  function CompactValue(c: nat): nat {
    if Exponent(c) <= 3 then Div(Mantissa(c), Pow2(8 * (3 - Exponent(c))))
    else Mantissa(c) * Pow2(8 * (Exponent(c) - 3))
  }

  predicate Overflows(word: nat, size: nat) {
    word != 0 && (size > 34 || (word > 0xff && size > 33) || (word > 0xffff && size > 32))
  }

  lemma ScaledBound(w: nat, a: nat, b: nat)
    ensures w * Pow2(a) >= Pow2(a + b) <==> w >= Pow2(b)
  {
    Pow2Add(a, b);
    if w >= Pow2(b) { MulLe(Pow2(b), w, Pow2(a)); } else { MulLt(w, Pow2(b), Pow2(a)); }
  }

  lemma SmallPowers()
    ensures Pow2(8) == 0x100 && Pow2(16) == 0x1_0000 && Pow2(15) == 0x8000
    ensures Pow2(23) == 0x80_0000 && Pow2(24) == 0x100_0000 && Pow2(7) == 0x80
  {
    assert Pow2(7) == 0x80 && Pow2(8) == 0x100;
    Pow2Add(8, 7);
    Pow2Add(8, 8);
    Pow2Add(16, 7);
    Pow2Add(16, 8);
  }

  /** The overflow flag is set exactly when the number does not fit. */
  lemma OverflowIs(word: nat, size: nat)
    requires word < 0x80_0000 && size > 3
    ensures Overflows(word, size) <==> word * Pow2(8 * (size - 3)) >= Pow2(256)
  {
    SmallPowers();
    hide Pow2;
    if size > 34 {
      BigExponent(word, 8 * (size - 3));
    } else {
      ScaledBound(word, 8 * (size - 3), 256 - 8 * (size - 3));
      Thresholds(size);
    }
  }

  lemma Thresholds(size: nat)
    requires 3 < size <= 34
    ensures var b := 256 - 8 * (size - 3);
      if size == 34 then Pow2(b) == 0x100 else if size == 33 then Pow2(b) == 0x1_0000 else Pow2(b) >= 0x80_0000
  {
    SmallPowers();
    if size <= 32 { Pow2Mono(23, 256 - 8 * (size - 3)); }
  }

  lemma BigExponent(word: nat, a: nat)
    requires a >= 256
    ensures word > 0 ==> word * Pow2(a) >= Pow2(256)
    ensures word == 0 ==> word * Pow2(a) == 0 < Pow2(256)
  {
    hide Pow2;
    Pow2Mono(256, a);
    if word > 0 { MulLe(1, word, Pow2(a)); }
  }

  lemma Modulus256()
    ensures P(WIDTH) == Pow2(256)
  {
    PIs(WIDTH);
  }

  lemma ShiftedWordFits(word: nat, size: nat)
    requires word < 0x80_0000 && size <= 3
    ensures Div(word, Pow2(8 * (3 - size))) < 0x80_0000
  {}

  lemma SmallFits(x: nat)
    requires x < 0x80_0000
    ensures x < Pow2(256)
  {
    SmallPowers();
    Pow2Mono(23, 256);
  }

  /** SetCompact. */
  method SetCompact(c: nat) returns (r: array<Limb>, negative: bool, overflow: bool)
    requires c < BASE
    ensures fresh(r) && r.Length == WIDTH && Val(r) == Mod(CompactValue(c), Pow2(256))
    ensures negative <==> SignBit(c) && CompactValue(c) != 0
    ensures overflow <==> CompactValue(c) >= Pow2(256)
  {
    hide Pow2, P, Value, Mod, Div;
    Modulus256();
    var size := c / 0x100_0000;
    var word := c % 0x80_0000;
    if size <= 3 {
      ShiftedWordFits(word, size);
      word := Div(word, Pow2(8 * (3 - size)));
      SmallFits(word);
      ModSmall(word, Pow2(256));
      r := FromU64(WIDTH, word);
    } else {
      r := FromU64(WIDTH, word);
      ShiftLeft(r, 8 * (size - 3));
      OverflowIs(word, size);
      ZeroOnly(word, Pow2(8 * (size - 3)));
    }
    negative := word != 0 && SignBit(c);
    overflow := Overflows(word, size);
  }

  lemma ZeroOnly(word: nat, p: nat)
    requires p > 0
    ensures word * p == 0 <==> word == 0
  {
    if word > 0 { MulLe(1, word, p); }
  }

  // ---------------------------------------------------------------- work

  predicate NoWork(c: nat) {
    (SignBit(c) && CompactValue(c) != 0) || CompactValue(c) >= Pow2(256) || CompactValue(c) == 0
  }

  /** A target is never all ones, so adding one to it does not wrap. */
  lemma TargetNotMax(c: nat)
    requires CompactValue(c) < Pow2(256)
    ensures CompactValue(c) + 1 < Pow2(256)
  {
    if Exponent(c) <= 3 {
      ShiftedWordFits(Mantissa(c), Exponent(c));
      SmallPowers();
      Pow2Mono(24, 256);
    } else {
      var e := 8 * (Exponent(c) - 3);
      Pow2Add(1, e - 1);
      assert Pow2(e) == 2 * Pow2(e - 1) && Pow2(256) == 2 * Pow2(255);
      hide Pow2;
      EvenProduct(Mantissa(c), Pow2(e - 1));
    }
  }

  lemma EvenProduct(m: nat, p: nat)
    ensures (m * (2 * p)) % 2 == 0
  {
    assert m * (2 * p) == 2 * (m * p);
  }

  /** `~t / (t + 1) + 1` is `2^256 / (t + 1)`. */
  lemma WorkIs(m: nat, t: nat)
    requires t + 1 < m
    ensures Div(m - 1 - t, t + 1) + 1 == Div(m, t + 1)
    ensures t > 0 ==> Div(m, t + 1) < m
  {
    var d := t + 1;
    var q, r := (m - d) / d, (m - d) % d;
    DivModIs(m - d, d);
    DivIs(m - d, d, q, r);
    Distribute(q, 1, d);
    DivIs(m, d, q + 1, r);
    if t > 0 { QuotientHalf(m, q + 1, d, r); }
  }

  lemma QuotientHalf(m: nat, q: nat, d: nat, r: nat)
    requires m == q * d + r && d >= 2 && q >= 1
    ensures q < m
  {
    MulLe(2, d, q);
  }

  /** Whether the number is the given 64-bit one. */
  method EqualTo(pn: array<Limb>, b: nat) returns (r: bool)
    requires pn.Length >= 2 && b < BASE * BASE
    ensures r <==> Val(pn) == b
  {
    EqualLimbs(pn[..], b);
    hide Value;
    var i := pn.Length;
    while i > 2
      invariant 2 <= i <= pn.Length && forall j | i <= j < pn.Length :: pn[j] == 0
    {
      i := i - 1;
      if pn[i] != 0 {
        assert pn[..][2..][i - 2] != 0;
        return false;
      }
    }
    assert forall j | 0 <= j < pn.Length - 2 :: pn[..][2..][j] == pn[j + 2] == 0;
    if pn[1] != b / BASE { return false; }
    if pn[0] != b % BASE { return false; }
    r := true;
  }

  lemma EqualLimbs(s: seq<Limb>, b: nat)
    requires |s| >= 2 && b < BASE * BASE
    ensures Value(s) == b <==>
            (forall j | 0 <= j < |s| - 2 :: s[2..][j] == 0) && s[1] == b / BASE && s[0] == b % BASE
  {
    LowLimbs(s);
    ValueZero(s[2..]);
    DivModUnique(s[0] + s[1] * BASE, BASE, s[1], s[0]);
    hide Value, Mod;
    if Value(s[2..]) > 0 { MulLe(1, Value(s[2..]), BASE * BASE); }
  }

  /** GetBitsProof: zero for a negative, overflowing or zero target, and otherwise exactly the
      quotient of `2^256` by the target plus one. The division error cannot occur. */
  method GetBitsProof(c: nat) returns (r: array<Limb>)
    requires c < BASE
    ensures r.Length == WIDTH
    ensures Val(r) == if NoWork(c) then 0 else Div(Pow2(256), CompactValue(c) + 1)
  {
    hide Pow2, P, Value, Mod, Div, CompactValue, SignBit;
    Modulus256();
    ghost var t := CompactValue(c);
    var target, negative, overflow := SetCompact(c);
    if t < Pow2(256) { ModSmall(t, Pow2(256)); }
    var zero := EqualTo(target, 0);
    if negative || overflow || zero {
      r := Zero(WIDTH);
      return;
    }
    TargetNotMax(c);
    WorkIs(Pow2(256), t);
    r := Complement(target);
    var one := FromU64(WIDTH, 1);
    var next := Copy(target);
    AddAssign(next, one);
    ModSmall(t + 1, Pow2(256));
    var ok := DivAssign(r, next);
    assert ok;
    AddAssign(r, one);
    ModSmall(Div(Pow2(256), t + 1), Pow2(256));
  }

  // ---------------------------------------------------------------- encoding

  function ByteLen(v: nat): nat {
    if v == 0 then 0 else 1 + ByteLen(v / 256)
  }

  lemma {:induction false} ByteLenIs(v: nat)
    ensures v > 0 ==> ByteLen(v) > 0 && Pow2(8 * (ByteLen(v) - 1)) <= v
    ensures v < Pow2(8 * ByteLen(v))
  {
    if v > 0 {
      var q, n := v / 256, ByteLen(v / 256);
      ByteLenIs(q);
      SmallPowers();
      Pow2Add(8, 8 * n);
      if q > 0 { Pow2Add(8, 8 * (n - 1)); }
    }
  }

  lemma ByteLenUnique(v: nat, n: nat)
    requires n > 0 && Pow2(8 * (n - 1)) <= v < Pow2(8 * n)
    ensures ByteLen(v) == n
  {
    hide Pow2;
    ByteLenIs(v);
    var m := ByteLen(v);
    if m < n { Pow2Mono(8 * m, 8 * (n - 1)); }
    if n < m { Pow2Mono(8 * n, 8 * (m - 1)); }
  }

  /** The three leading bytes. */
  function Leading(v: nat, size: nat): nat {
    if size <= 3 then v * Pow2(8 * (3 - size)) else Div(v, Pow2(8 * (size - 3)))
  }

  /** GetCompact without a sign: the leading bytes, one fewer when they would touch the sign bit. */
  function CompactOf(v: nat): nat {
    var size := ByteLen(v);
    var n := Leading(v, size);
    if n >= 0x80_0000 then Div(n, 256) + (size + 1) * 0x100_0000 else n + size * 0x100_0000
  }

  /** The exponent of the compact form. */
  function CompactSize(v: nat): nat {
    var size := ByteLen(v);
    if Leading(v, size) >= 0x80_0000 then size + 1 else size
  }

  lemma LeadingBounds(v: nat)
    requires v > 0
    ensures 0x1_0000 <= Leading(v, ByteLen(v)) < 0x100_0000
  {
    hide Pow2;
    SmallPowers();
    var size := ByteLen(v);
    ByteLenIs(v);
    if size <= 3 {
      var e := 8 * (3 - size);
      Pow2Add(8 * size, e);
      Pow2Add(8 * (size - 1), e);
      MulLt(v, Pow2(8 * size), Pow2(e));
      MulLe(Pow2(8 * (size - 1)), v, Pow2(e));
    } else {
      var e := 8 * (size - 3);
      Pow2Add(24, e);
      Pow2Add(16, e);
      QuotientBounds(v, Pow2(e), 0x1_0000, 0x100_0000);
    }
  }

  lemma QuotientBounds(v: nat, p: nat, lo: nat, hi: nat)
    requires p > 0 && lo * p <= v < hi * p
    ensures lo <= Div(v, p) < hi
  {
    var q, r := v / p, v % p;
    DivModIs(v, p);
    if q < lo { MulLt(q, lo, p); }
    if q >= hi { MulLe(hi, q, p); }
  }

  /** Reading back a word that was put together from a mantissa and an exponent. */
  lemma Unpack(n: nat, size: nat)
    requires n < 0x80_0000
    ensures var c := n + size * 0x100_0000; Exponent(c) == size && Mantissa(c) == n && !SignBit(c)
  {
    var c := n + size * 0x100_0000;
    DivModUnique(c, 0x100_0000, size, n);
    DivModUnique(c, 0x80_0000, 2 * size, n);
  }

  lemma DivDiv(v: nat, a: nat, b: nat)
    requires a > 0 && b > 0
    ensures a * b > 0 && Div(Div(v, a), b) == Div(v, a * b)
  {
    var q, r := v / a, v % a;
    DivModIs(v, a);
    var q', r' := q / b, q % b;
    DivModIs(q, b);
    Nested(v, q, r, q', r', a, b);
    MulLt(r', b, a);
    DivIs(v, a * b, q', r' * a + r);
  }

  lemma Nested(v: int, q: int, r: int, q': int, r': int, a: int, b: int)
    requires v == q * a + r && q == q' * b + r'
    ensures v == q' * (a * b) + (r' * a + r)
  {}

  lemma DivExact(q: nat, p: nat)
    requires p > 0
    ensures Div(q * p, p) == q
  {
    DivIs(q * p, p, q, 0);
  }

  /** What the compact form of `v` stands for: `v` with its low bytes beyond the mantissa cleared. */
  lemma CompactReads(v: nat)
    ensures var c, size := CompactOf(v), CompactSize(v);
      && Exponent(c) == size && !SignBit(c)
      && CompactValue(c) == if size <= 3 then v else Div(v, Pow2(8 * (size - 3))) * Pow2(8 * (size - 3))
  {
    hide Pow2, Div;
    var size := ByteLen(v);
    var n := Leading(v, size);
    if v > 0 { LeadingBounds(v); } else { ZeroTimes(Pow2(24)); DivZero(Pow2(24)); }
    if n < 0x80_0000 {
      Unpack(n, size);
      if size <= 3 { DivExact(v, Pow2(8 * (3 - size))); }
    } else {
      DivLess(n);
      Unpack(Div(n, 256), size + 1);
      SmallPowers();
      if size < 3 {
        var e := 8 * (3 - (size + 1));
        Pow2Add(e, 8);
        Assoc(v, Pow2(e), 256);
        DivExact(v * Pow2(e), 256);
        DivExact(v, Pow2(e));
      } else if size == 3 {
        TimesOne(v);
      } else {
        var e := 8 * (size - 3);
        Pow2Add(e, 8);
        DivDiv(v, Pow2(e), 256);
      }
    }
  }

  lemma TimesOne(v: nat)
    ensures v * Pow2(0) == v && Pow2(8) == 256
  {
    SmallPowers();
  }

  lemma DivZero(p: nat)
    requires p > 0
    ensures Div(0, p) == 0
  {
    ZeroTimes(p);
    DivIs(0, p, 0, 0);
  }

  lemma DivLess(n: nat)
    requires 0x80_0000 <= n < 0x100_0000
    ensures 0x8000 <= Div(n, 256) < 0x1_0000
  {}

  lemma DivTimes(v: nat, p: nat)
    requires p > 0
    ensures Div(v, p) * p <= v
  {
    DivModIs(v, p);
  }

  /** A number with the leading part `n` (of two or three bytes) above `size - k` zero bytes. */
  lemma ByteLenScaled(n: nat, k: nat, size: nat)
    requires 0 < k <= size && Pow2(8 * (k - 1)) <= n < Pow2(8 * k)
    ensures ByteLen(n * Pow2(8 * (size - k))) == size
  {
    hide Pow2;
    var e := 8 * (size - k);
    Pow2Add(8 * (k - 1), e);
    Pow2Add(8 * k, e);
    MulLe(Pow2(8 * (k - 1)), n, Pow2(e));
    MulLt(n, Pow2(8 * k), Pow2(e));
    ByteLenUnique(n * Pow2(e), size);
  }

  /** Compacting, reading back and compacting again gives the same word. */
  lemma Recompact(v: nat)
    ensures CompactOf(CompactValue(CompactOf(v))) == CompactOf(v)
  {
    CompactReads(v);
    hide Pow2, Div;
    if CompactSize(v) > 3 {
      SmallPowers();
      var size := ByteLen(v);
      var n := Leading(v, size);
      if v > 0 { LeadingBounds(v); } else { EmptyLeading(); }
      if n < 0x80_0000 {
        ByteLenScaled(n, 3, size);
        DivExact(n, Pow2(8 * (size - 3)));
      } else {
        RecompactShort(v, size, n);
      }
    }
  }

  lemma EmptyLeading()
    ensures ByteLen(0) == 0 && Leading(0, 0) == 0
  {}

  lemma RecompactShort(v: nat, size: nat, n: nat)
    requires size == ByteLen(v) >= 3 && n == Leading(v, size) && 0x80_0000 <= n < 0x100_0000
    ensures var m, p := Div(v, Pow2(8 * (size - 2))), Pow2(8 * (size - 2));
      m == Div(n, 256) && CompactOf(m * p) == m + (size + 1) * 0x100_0000
  {
    SmallPowers();
    var e := 8 * (size - 3);
    Pow2Add(e, 8);
    assert 8 * (size - 2) == e + 8;
    if size == 3 { TimesOne(v); } else { DivDiv(v, Pow2(e), 256); }
    var m := Div(n, 256);
    DivLess(n);
    hide Pow2, Div;
    ByteLenScaled(m, 2, size);
    Assoc(m, Pow2(e), 256);
    if size == 3 { TimesOne(m * 256); } else { DivExact(m * 256, Pow2(e)); }
    DivExact(m, 256);
  }

  /** For every 256-bit number the compact form raises no flag when read back, gives the number with
      its low bytes cleared, and is a fixed point. */
  lemma CompactRoundTrip(v: nat)
    requires v < Pow2(256)
    ensures var c, e := CompactOf(v), if CompactSize(v) > 3 then 8 * (CompactSize(v) - 3) else 0;
      && CompactValue(c) == Div(v, Pow2(e)) * Pow2(e) <= v < Pow2(256) && !SignBit(c)
      && CompactOf(CompactValue(c)) == c
  {
    CompactReads(v);
    Recompact(v);
    hide Pow2, Div, CompactOf, CompactValue, CompactSize;
    var e := if CompactSize(v) > 3 then 8 * (CompactSize(v) - 3) else 0;
    DivTimes(v, Pow2(e));
    DivByOne(v);
  }

  /** The leading bytes touch the sign bit exactly if the number has as many bits as its bytes. */
  lemma TopBit(v: nat)
    requires v > 0
    ensures ByteLen(v) > 0
    ensures Leading(v, ByteLen(v)) >= 0x80_0000 <==> v >= Pow2(8 * ByteLen(v) - 1)
  {
    hide Pow2;
    SmallPowers();
    var size := ByteLen(v);
    ByteLenIs(v);
    if size <= 3 {
      ScaledBound(v, 8 * (3 - size), 8 * size - 1);
      assert 8 * (3 - size) + (8 * size - 1) == 23;
    } else {
      var p := Pow2(8 * (size - 3));
      Pow2Add(23, 8 * (size - 3));
      DivAtLeast(v, p, 0x80_0000);
    }
  }

  lemma DivAtLeast(v: nat, p: nat, n: nat)
    requires p > 0
    ensures Div(v, p) >= n <==> v >= n * p
  {
    DivModIs(v, p);
    var q := v / p;
    if q >= n { MulLe(n, q, p); } else { MulLe(q + 1, n, p); Distribute(q, 1, p); }
  }

  lemma PowOne()
    ensures Pow2(1) == 2
  {
    assert Pow2(0) == 1;
  }

  lemma CompactParts(v: nat)
    requires v > 0
    ensures 0x8000 <= Mantissa(CompactOf(v)) < 0x80_0000 && Exponent(CompactOf(v)) == CompactSize(v)
  {
    hide Pow2, Div, Leading, ByteLen, Exponent, Mantissa, SignBit;
    LeadingBounds(v);
    var n, size := Leading(v, ByteLen(v)), ByteLen(v);
    if n >= 0x80_0000 {
      DivLess(n);
      Unpack(Div(n, 256), size + 1);
    } else {
      Unpack(n, size);
    }
  }

  lemma CompactZero()
    ensures CompactOf(0) == 0 && CompactSize(0) == 0
  {
    EmptyLeading();
  }

  /** The exponent of the compact form is the number of bytes, and one more exactly if the top byte is at least
      0x80. */
  lemma CompactExponent(v: nat)
    ensures v == 0 ==> CompactOf(v) == 0
    ensures v > 0 ==> Exponent(CompactOf(v)) == ByteLen(v) + if 2 * v >= Pow2(8 * ByteLen(v)) then 1 else 0
    ensures v > 0 <==> Mantissa(CompactOf(v)) > 0
  {
    CompactZero();
    hide Pow2, Div, CompactOf, Exponent, Leading, ByteLen;
    if v > 0 {
      CompactParts(v);
      hide Mantissa;
      TopBit(v);
      Pow2Add(8 * ByteLen(v) - 1, 1);
      PowOne();
    }
  }

  /** The compact form above three bytes is worth at least 2^15 units. */
  lemma CompactLarge(v: nat)
    requires CompactSize(v) > 3
    ensures CompactValue(CompactOf(v)) >= Pow2(8 * (CompactSize(v) - 4) + 23)
  {
    hide Pow2, Div, CompactOf, Exponent, Mantissa, CompactSize;
    CompactZero();
    CompactParts(v);
    SmallPowers();
    var e := 8 * (CompactSize(v) - 3);
    Pow2Add(15, e);
    assert 15 + e == 8 * (CompactSize(v) - 4) + 23;
    MulLe(0x8000, Mantissa(CompactOf(v)), Pow2(e));
  }

  lemma MantissaSmall(c: nat)
    ensures Mantissa(c) < 0x80_0000
  {}

  /** A word with a small exponent is worth little. */
  lemma ValueSmall(c: nat, size: nat)
    requires size > 3 && Exponent(c) < size
    ensures CompactValue(c) < Pow2(8 * (size - 4) + 23)
  {
    hide Pow2, Div;
    SmallPowers();
    MantissaSmall(c);
    if Exponent(c) <= 3 {
      ShiftedWordFits(Mantissa(c), Exponent(c));
      Pow2Mono(23, 8 * (size - 4) + 23);
    } else {
      var e := 8 * (Exponent(c) - 3);
      MulLt(Mantissa(c), 0x80_0000, Pow2(e));
      Pow2Add(23, e);
      Pow2Mono(23 + e, 8 * (size - 4) + 23);
    }
  }

  /** A multiple of p that is at most v is at most v with its part below p cleared. */
  lemma MultipleBelow(m: nat, p: nat, q: nat, v: nat)
    requires p > 0 && m * (p * q) <= v
    ensures m * (p * q) <= Div(v, p) * p
  {
    Assoc(m, q, p);
    assert m * (p * q) == (m * q) * p;
    DivAtLeast(v, p, m * q);
    MulLe(m * q, Div(v, p), p);
  }

  /** The compact form stands for the largest number up to `v` that a word without a sign can stand for. */
  lemma CompactBest(v: nat, c: nat)
    requires !SignBit(c) && CompactValue(c) <= v
    ensures CompactValue(c) <= CompactValue(CompactOf(v)) <= v
  {
    hide Pow2, Div;
    CompactReads(v);
    var size := CompactSize(v);
    if size > 3 {
      var p := Pow2(8 * (size - 3));
      DivTimes(v, p);
      if Exponent(c) < size {
        CompactLarge(v);
        ValueSmall(c, size);
      } else {
        Pow2Add(8 * (size - 3), 8 * (Exponent(c) - size));
        MultipleBelow(Mantissa(c), p, Pow2(8 * (Exponent(c) - size)), v);
      }
    }
  }

  lemma DivByOne(v: nat)
    ensures Div(v, Pow2(0)) * Pow2(0) == v
  {}

  /** The low 64 bits. */
  method GetLow64(pn: array<Limb>) returns (r: nat)
    requires pn.Length >= 2
    ensures r == Mod(Val(pn), BASE * BASE)
  {
    LowLimbs(pn[..]);
    OrLimbs(pn[1], pn[0]);
    r := Or(pn[0], pn[1] * BASE);
  }

  lemma OrLimbs(hi: Limb, lo: Limb)
    ensures Or(lo, hi * BASE) == lo + hi * BASE
  {
    Pow2Of32();
    hide Pow2, Or;
    DivModUnique(hi * BASE, BASE, hi, 0);
    OrComm(lo, hi * BASE);
    OrDisjoint(hi * BASE, lo, 32);
  }

  lemma LowLimbs(s: seq<Limb>)
    requires |s| >= 2
    ensures s[0] + s[1] * BASE == Mod(Value(s), BASE * BASE)
    ensures Value(s) == s[0] + s[1] * BASE + BASE * BASE * Value(s[2..])
  {
    assert P(2) == BASE * BASE && P(1) == BASE && P(0) == 1;
    hide Value, P, Mod;
    ValueSplit(s, 2);
    ValueBound(s[..2]);
    TwoLimbs(s[..2]);
    ModIs(Value(s), BASE * BASE, Value(s[2..]), Value(s[..2]));
  }

  lemma TwoLimbs(s: seq<Limb>)
    requires |s| == 2
    ensures Value(s) == s[0] + s[1] * BASE
  {
    assert P(1) == BASE && P(0) == 1;
    hide Value, P;
    assert s == ([] + [s[0]]) + [s[1]];
    ValueSnoc([], s[0]);
    ValueSnoc([] + [s[0]], s[1]);
    NoLimbs(s);
    assert s[..0] == [];
  }

  lemma BytesFromBits(v: nat, bits: nat)
    requires bits == 0 <==> v == 0
    requires bits > 0 ==> Pow2(bits - 1) <= v < Pow2(bits)
    ensures (bits + 7) / 8 == ByteLen(v)
  {
    hide Pow2;
    if bits > 0 {
      var n := (bits + 7) / 8;
      Pow2Mono(8 * (n - 1), bits - 1);
      Pow2Mono(bits, 8 * n);
      ByteLenUnique(v, n);
    }
  }

  lemma ByteLenFits(v: nat)
    requires v < Pow2(256)
    ensures ByteLen(v) <= 32
  {
    hide Pow2;
    ByteLenIs(v);
    if ByteLen(v) > 32 { Pow2Mono(256, 8 * (ByteLen(v) - 1)); }
  }

  /** The three leading bytes, where a shorter number is filled up with zeros. */
  method LeadingBytes(pn: array<Limb>, size: nat) returns (n: nat)
    requires size == ByteLen(Val(pn)) && pn.Length == WIDTH
    ensures n == Leading(Val(pn), size)
  {
    hide Pow2, Div, Value, P, Mod;
    ghost var v := Val(pn);
    if v > 0 { LeadingBounds(v); } else { EmptyLeading(); }
    if size <= 3 {
      SmallNumber(v, size);
      ModSmall(v, BASE * BASE);
      var low := GetLow64(pn);
      n := low * Pow2(8 * (3 - size));
    } else {
      var bn := Copy(pn);
      ShiftRight(bn, 8 * (size - 3));
      ModSmall(Leading(v, size), BASE * BASE);
      n := GetLow64(bn);
    }
  }

  /** GetCompact; neither of its assertions can fail. */
  method GetCompact(pn: array<Limb>, negative: bool) returns (c: nat)
    requires pn.Length == WIDTH
    ensures c == CompactOf(Val(pn)) + if negative && Mantissa(CompactOf(Val(pn))) != 0 then 0x80_0000 else 0
    ensures c < BASE && (SignBit(c) <==> negative && Val(pn) > 0)
    ensures BestBelow(c, Val(pn))
    ensures Val(pn) > 0 ==>
        Exponent(c) == ByteLen(Val(pn)) + if 2 * Val(pn) >= Pow2(8 * ByteLen(Val(pn))) then 1 else 0
  {
    hide Pow2, Div, Value, P, CompactValue, SignBit, Exponent, Mantissa, CompactOf;
    ghost var v := Val(pn);
    c := Compacted(pn, negative);
    CompactExponent(v);
    ZeroBelow(v);
    SignedWord(CompactOf(v));
    CompactBest(v, 0);
    forall d: nat | d < BASE && !SignBit(d) && CompactValue(d) <= v ensures CompactValue(d) <= CompactValue(c) {
      CompactBest(v, d);
    }
  }

  /** Of all words without a sign that stand for a number up to `v`, this one stands for the largest. */
  ghost predicate BestBelow(c: nat, v: nat) {
    CompactValue(c) <= v
    && forall d: nat | d < BASE && !SignBit(d) && CompactValue(d) <= v :: CompactValue(d) <= CompactValue(c)
  }

  lemma SignedWord(c: nat)
    requires !SignBit(c)
    ensures SignBit(c + 0x80_0000) && CompactValue(c + 0x80_0000) == CompactValue(c)
         && Exponent(c + 0x80_0000) == Exponent(c)
  {
    SignedParts(c);
    hide CompactValue, Exponent, Mantissa, SignBit;
    SameValue(c, c + 0x80_0000);
  }

  lemma SignedParts(c: nat)
    requires !SignBit(c)
    ensures SignBit(c + 0x80_0000) && Mantissa(c + 0x80_0000) == Mantissa(c) && Exponent(c + 0x80_0000) == Exponent(c)
  {
    var k, m := c / 0x80_0000 / 2, c % 0x80_0000;
    assert c == k * 0x100_0000 + m;
    DivModUnique(c, 0x100_0000, k, m);
    DivModUnique(c + 0x80_0000, 0x100_0000, k, m + 0x80_0000);
    DivModUnique(c + 0x80_0000, 0x80_0000, 2 * k + 1, m);
  }

  lemma SameValue(c: nat, d: nat)
    requires Exponent(c) == Exponent(d) && Mantissa(c) == Mantissa(d)
    ensures CompactValue(c) == CompactValue(d)
  {}

  lemma ZeroBelow(v: nat)
    ensures !SignBit(CompactOf(v)) && !SignBit(0) && CompactValue(0) <= v
  {
    CompactReads(v);
    DivZero(Pow2(24));
  }

  method Compacted(pn: array<Limb>, negative: bool) returns (c: nat)
    requires pn.Length == WIDTH
    ensures c == CompactOf(Val(pn)) + if negative && Mantissa(CompactOf(Val(pn))) != 0 then 0x80_0000 else 0
    ensures c < BASE
  {
    hide Pow2, Div, Value, P;
    ghost var v := Val(pn);
    Modulus256();
    ValueBound(pn[..]);
    ByteLenFits(v);
    var bits := Bits(pn);
    BytesFromBits(v, bits);
    if v > 0 { LeadingBounds(v); } else { EmptyLeading(); }
    var size := (bits + 7) / 8;
    var n := LeadingBytes(pn, size);
    if n >= 0x80_0000 {
      DivLess(n);
      n := n / 256;
      size := size + 1;
      DivIsQuotient(Leading(v, size - 1), 256);
    }
    assert n < 0x80_0000 && size < 256;
    Unpack(n, size);
    c := n + size * 0x100_0000;
    if negative && n != 0 {
      c := c + 0x80_0000;
    }
  }

  lemma SmallNumber(v: nat, size: nat)
    requires size == ByteLen(v) <= 3
    ensures v < BASE * BASE
  {
    ByteLenIs(v);
    SmallPowers();
    Pow2Mono(8 * size, 24);
  }

  lemma DivIsQuotient(x: nat, m: nat)
    requires m > 0
    ensures Div(x, m) == x / m
  {}
}
