/** Bech32 and Bech32m: the checksum of section "Bech32" of BIP 173 and section "Bech32m" of BIP 350.
    Characters and 5-bit symbols are bytes. */
module Bech32Checksum {
  import opened Options
  import GaloisFields

  type Bytes = seq<bv8>

  const CHECKSUM_SIZE: nat := 6

  datatype Encoding = BECH32 | BECH32M

  function EncodingConstant(e: Encoding): bv32 {
    if e == BECH32 then 1 else 0x2bc830a3
  }

  // ---------------------------------------------------------------- the checksum step

  function Xor(a: bv32, b: bv32): bv32 { a ^ b }

  predicate HasBit(c: bv32, bit: bv32) { c & bit != 0 }

  /** Conditionally adds one multiple of the generator. */
  function Stage(c: bv32, c0: bv32, bit: bv32, g: bv32): bv32 {
    if HasBit(c0, bit) then Xor(c, g) else c
  }

  /** Adds the multiples of the generator that the leading coefficient selects. */
  function Reduce(c1: bv32, c0: bv32): bv32 {
    var c2 := Stage(c1, c0, 1, 0x3b6a57b2);
    var c3 := Stage(c2, c0, 2, 0x26508e6d);
    var c4 := Stage(c3, c0, 4, 0x1ea119fa);
    var c5 := Stage(c4, c0, 8, 0x3d4233dd);
    Stage(c5, c0, 16, 0x2a1462b3)
  }

  function Lead(c: bv32): bv32 { c >> 25 }

  function Append(c: bv32, v: bv8): bv32 { ((c & 0x1ffffff) << 5) ^ (v as bv32) }

  /** One step of PolyMod: multiply by x, add the next coefficient, reduce. */
  function PolyStep(c: bv32, v: bv8): bv32 {
    Reduce(Append(c, v), Lead(c))
  }

  /** PolyMod from a given state. */
  function Fold(c: bv32, v: Bytes): bv32
    decreases v
  {
    if v == [] then c else Fold(PolyStep(c, v[0]), v[1..])
  }

  predicate OneBit(bit: bv32) { bit == 1 || bit == 2 || bit == 4 || bit == 8 || bit == 16 }

  lemma BitLinear(a: bv32, b: bv32, bit: bv32)
    requires OneBit(bit)
    ensures HasBit(Xor(a, b), bit) <==> (HasBit(a, bit) != HasBit(b, bit))
  {}

  lemma XorAssoc(x: bv32, y: bv32, z: bv32)
    ensures Xor(Xor(x, y), z) == Xor(x, Xor(y, z))
  {}

  lemma XorFacts(x: bv32, y: bv32)
    ensures Xor(x, y) == Xor(y, x) && Xor(x, x) == 0 && Xor(0, x) == x
  {}

  lemma XorOnce(x: bv32, y: bv32, g: bv32)
    ensures Xor(Xor(x, y), g) == Xor(Xor(x, g), y) == Xor(x, Xor(y, g))
    ensures Xor(Xor(x, g), Xor(y, g)) == Xor(x, y)
  {
    hide Xor;
    XorAssoc(x, y, g);
    XorAssoc(x, g, y);
    XorAssoc(x, g, Xor(g, y));
    XorAssoc(g, g, y);
    XorFacts(y, g);
    XorFacts(g, y);
  }

  lemma StageLinear(x: bv32, y: bv32, a: bv32, b: bv32, bit: bv32, g: bv32)
    requires OneBit(bit)
    ensures Stage(Xor(x, y), Xor(a, b), bit, g) == Xor(Stage(x, a, bit, g), Stage(y, b, bit, g))
  {
    hide Xor, HasBit, OneBit;
    BitLinear(a, b, bit);
    XorOnce(x, y, g);
  }

  lemma ReduceLinear(x: bv32, y: bv32, a: bv32, b: bv32)
    ensures Reduce(Xor(x, y), Xor(a, b)) == Xor(Reduce(x, a), Reduce(y, b))
  {
    hide Stage, Xor;
    assert OneBit(1) && OneBit(2) && OneBit(4) && OneBit(8) && OneBit(16);
    StageLinear(x, y, a, b, 1, 0x3b6a57b2);
    var x2, y2 := Stage(x, a, 1, 0x3b6a57b2), Stage(y, b, 1, 0x3b6a57b2);
    StageLinear(x2, y2, a, b, 2, 0x26508e6d);
    var x3, y3 := Stage(x2, a, 2, 0x26508e6d), Stage(y2, b, 2, 0x26508e6d);
    StageLinear(x3, y3, a, b, 4, 0x1ea119fa);
    var x4, y4 := Stage(x3, a, 4, 0x1ea119fa), Stage(y3, b, 4, 0x1ea119fa);
    StageLinear(x4, y4, a, b, 8, 0x3d4233dd);
    StageLinear(Stage(x4, a, 8, 0x3d4233dd), Stage(y4, b, 8, 0x3d4233dd), a, b, 16, 0x2a1462b3);
  }

  lemma AppendLinear(a: bv32, b: bv32, v: bv8, w: bv8)
    ensures Append(Xor(a, b), v ^ w) == Xor(Append(a, v), Append(b, w))
    ensures Lead(Xor(a, b)) == Xor(Lead(a), Lead(b))
  {}

  /** The step is linear over exclusive or. */
  lemma PolyStepLinear(a: bv32, b: bv32, v: bv8, w: bv8)
    ensures PolyStep(Xor(a, b), v ^ w) == Xor(PolyStep(a, v), PolyStep(b, w))
  {
    AppendLinear(a, b, v, w);
    hide Append, Lead, Reduce, Xor;
    ReduceLinear(Append(a, v), Append(b, w), Lead(a), Lead(b));
  }

  /** A zero coefficient never makes a nonzero state zero: the step is injective. */
  lemma PolyStepInjective(c: bv32)
    requires c < 0x40000000 && PolyStep(c, 0) == 0
    ensures c == 0
  {}

  lemma PolyStepRange(c: bv32, v: bv8)
    ensures PolyStep(c, v) < 0x40000000
  {}

  /** A short state is only shifted. */
  lemma PolyStepShort(c: bv32, v: bv8)
    requires c < 0x2000000 && v < 32
    ensures PolyStep(c, v) == (c << 5) | (v as bv32)
    ensures PolyStep(c, v) == 0 ==> c == 0 && v == 0
  {}

  // ---------------------------------------------------------------- the generator polynomial

  /** Six coefficients side by side. */
  function Pack(a: bv5, b: bv5, c: bv5, d: bv5, e: bv5, f: bv5): bv32 {
    ((a as bv32) << 25) | ((b as bv32) << 20) | ((c as bv32) << 15) | ((d as bv32) << 10) | ((e as bv32) << 5)
    | (f as bv32)
  }

  /** The multiple {a}k(x) of k(x) = {29}x^5 + {22}x^4 + {20}x^3 + {21}x^2 + {29}x + {18}, which is
      x^6 modulo the generator polynomial. */
  function Scaled(a: bv5): bv32 {
    Pack(GaloisFields.GfMul(29, a), GaloisFields.GfMul(22, a), GaloisFields.GfMul(20, a),
         GaloisFields.GfMul(21, a), GaloisFields.GfMul(29, a), GaloisFields.GfMul(18, a))
  }

  /** The constants of the step are multiples of k(x). */
  lemma GeneratorMultiples()
    ensures Scaled(1) == 0x3b6a57b2 && Scaled(2) == 0x26508e6d && Scaled(4) == 0x1ea119fa
    ensures Scaled(8) == 0x3d4233dd && Scaled(16) == 0x2a1462b3
  {}

  // ---------------------------------------------------------------- whole words

  ghost predicate Symbols(v: Bytes) {
    forall i | 0 <= i < |v| :: v[i] < 32
  }

  function XorAll(a: Bytes, b: Bytes): (r: Bytes)
    requires |a| == |b|
    ensures |r| == |a|
  {
    seq(|a|, i requires 0 <= i < |a| => a[i] ^ b[i])
  }

  lemma {:induction false} FoldLinear(c: bv32, d: bv32, a: Bytes, b: Bytes)
    requires |a| == |b|
    ensures Fold(Xor(c, d), XorAll(a, b)) == Xor(Fold(c, a), Fold(d, b))
    decreases a
  {
    hide Xor, PolyStep;
    if a != [] {
      PolyStepLinear(c, d, a[0], b[0]);
      assert XorAll(a, b)[1..] == XorAll(a[1..], b[1..]);
      FoldLinear(PolyStep(c, a[0]), PolyStep(d, b[0]), a[1..], b[1..]);
    }
  }

  lemma {:induction false} FoldConcat(c: bv32, a: Bytes, b: Bytes)
    ensures Fold(c, a + b) == Fold(Fold(c, a), b)
    decreases a
  {
    hide PolyStep;
    if a == [] {
      assert a + b == b;
    } else {
      FoldConcat(PolyStep(c, a[0]), a[1..], b);
      assert (a + b)[1..] == a[1..] + b;
    }
  }

  lemma {:induction false} FoldRange(c: bv32, a: Bytes)
    requires c < 0x40000000
    ensures Fold(c, a) < 0x40000000
    decreases a
  {
    hide PolyStep;
    if a != [] {
      PolyStepRange(c, a[0]);
      FoldRange(PolyStep(c, a[0]), a[1..]);
    }
  }

  ghost predicate AllZero(a: Bytes) {
    forall i | 0 <= i < |a| :: a[i] == 0
  }

  /** Zeros never hide an error. */
  lemma {:induction false} FoldZeros(c: bv32, a: Bytes)
    requires c < 0x40000000 && AllZero(a) && Fold(c, a) == 0
    ensures c == 0
    decreases a
  {
    hide PolyStep;
    if a != [] {
      PolyStepRange(c, 0);
      FoldZeros(PolyStep(c, a[0]), a[1..]);
      PolyStepInjective(c);
    }
  }

  function Limit(n: nat): bv32 {
    if n == 0 then 1 else if n == 1 then 0x20 else if n == 2 then 0x400
    else if n == 3 then 0x8000 else if n == 4 then 0x100000 else if n == 5 then 0x2000000 else 0x40000000
  }

  lemma LimitStep(c: bv32, v: bv8, n: nat)
    requires n <= 5 && c < Limit(n) && v < 32
    ensures PolyStep(c, v) < Limit(n + 1) && (PolyStep(c, v) == 0 ==> c == 0 && v == 0)
  {
    PolyStepShort(c, v);
    hide PolyStep;
  }

  /** Up to six symbols are packed side by side, so they cannot cancel out. */
  lemma {:induction false} ShortFold(c: bv32, z: Bytes, n: nat)
    requires n + |z| <= 6 && c < Limit(n) && Symbols(z) && Fold(c, z) == 0
    ensures c == 0 && AllZero(z)
    decreases z
  {
    hide PolyStep, Limit;
    if z != [] {
      LimitStep(c, z[0], n);
      ShortFold(PolyStep(c, z[0]), z[1..], n + 1);
      assert forall i | 0 < i < |z| :: z[i] == z[1..][i - 1];
    }
  }

  lemma XorByte(a: bv8, b: bv8)
    ensures (a ^ b == 0) <==> a == b
    ensures a < 32 && b < 32 ==> a ^ b < 32
  {}

  lemma XorAllFacts(x: Bytes, y: Bytes)
    requires |x| == |y|
    ensures AllZero(XorAll(x, y)) ==> x == y
    ensures x == y ==> AllZero(XorAll(x, y))
    ensures Symbols(x) && Symbols(y) ==> Symbols(XorAll(x, y))
  {
    forall i | 0 <= i < |x|
      ensures (XorAll(x, y)[i] == 0) <==> x[i] == y[i]
      ensures x[i] < 32 && y[i] < 32 ==> XorAll(x, y)[i] < 32
    {
      XorByte(x[i], y[i]);
    }
  }

  /** Words with one remainder differ by a word with remainder zero. */
  lemma DifferenceFold(c: bv32, u: Bytes, w: Bytes)
    requires |u| == |w| && Fold(c, u) == Fold(c, w)
    ensures Fold(0, XorAll(u, w)) == 0
  {
    hide Fold, Xor, XorAll;
    FoldLinear(c, c, u, w);
    XorFacts(c, c);
    XorFacts(Fold(c, u), Fold(c, u));
  }

  lemma NoShortDifference(z: Bytes, zeros: Bytes)
    requires |z| <= 6 && Symbols(z) && AllZero(zeros) && Fold(0, z + zeros) == 0
    ensures AllZero(z)
  {
    FoldConcat(0, z, zeros);
    FoldRange(0, z);
    FoldZeros(Fold(0, z), zeros);
    hide Fold, AllZero, Symbols;
    ShortFold(0, z, 0);
  }

  /** Two words that agree outside a window of six symbols and leave the same remainder are equal. */
  lemma BurstDetected(c: bv32, p: Bytes, x: Bytes, y: Bytes, s: Bytes)
    requires Symbols(x) && Symbols(y)
    requires |x| == |y| <= 6 && Fold(c, p + x + s) == Fold(c, p + y + s)
    ensures x == y
  {
    hide Fold, Symbols, AllZero;
    assert p + x + s == p + (x + s) && p + y + s == p + (y + s);
    FoldConcat(c, p, x + s);
    FoldConcat(c, p, y + s);
    DifferenceFold(Fold(c, p), x + s, y + s);
    assert XorAll(x + s, y + s) == XorAll(x, y) + XorAll(s, s);
    XorAllFacts(x, y);
    XorAllFacts(s, s);
    NoShortDifference(XorAll(x, y), XorAll(s, s));
  }

  // ---------------------------------------------------------------- checksums

  function High(c: bv8): bv8 { c >> 5 }

  function Low(c: bv8): bv8 { c & 0x1f }

  /** The human-readable part as it enters the checksum. */
  function Expand(hrp: Bytes): Bytes {
    seq(|hrp|, i requires 0 <= i < |hrp| => High(hrp[i])) + [0]
    + seq(|hrp|, i requires 0 <= i < |hrp| => Low(hrp[i]))
  }

  /** The remainder that decides whether values are a codeword. */
  function Check(hrp: Bytes, values: Bytes): bv32 {
    Fold(1, Expand(hrp) + values)
  }

  lemma Recut(a: Bytes, from: nat, to: nat)
    requires from <= to <= |a|
    ensures a == a[..from] + a[from..to] + a[to..]
  {}

  /** Under one encoding and prefix, no two codewords of one length agree outside a window of six symbols. */
  lemma BurstsChangeChecksum(hrp: Bytes, a: Bytes, b: Bytes, from: nat, to: nat)
    requires |a| == |b| && from <= to <= |a| && to - from <= CHECKSUM_SIZE && Symbols(a) && Symbols(b)
    requires a[..from] == b[..from] && a[to..] == b[to..] && Check(hrp, a) == Check(hrp, b)
    ensures a == b
  {
    hide Fold, Expand;
    var p, x, y, s := Expand(hrp) + a[..from], a[from..to], b[from..to], a[to..];
    assert Expand(hrp) + a == p + x + s;
    assert Expand(hrp) + b == p + y + s;
    BurstDetected(1, p, x, y, s);
    Recut(a, from, to);
    Recut(b, from, to);
  }

  /** In particular every error in exactly one symbol changes the remainder. */
  lemma SingleErrorsDetected(hrp: Bytes, a: Bytes, k: nat, v: bv8)
    requires Symbols(a) && k < |a| && v < 32 && Check(hrp, a[k := v]) == Check(hrp, a)
    ensures v == a[k]
  {
    hide Check;
    BurstsChangeChecksum(hrp, a, a[k := v], k, k + 1);
    assert a[k := v][k] == v;
  }

  function Group(m: bv32): bv8 { (m & 31) as bv8 }

  /** The six 5-bit groups of a 30-bit number, most significant first. */
  function Groups(m: bv32): (g: Bytes)
    ensures |g| == CHECKSUM_SIZE
  {
    [Group(m >> 25), Group(m >> 20), Group(m >> 15), Group(m >> 10), Group(m >> 5), Group(m)]
  }

  lemma GroupStep(hi: bv32, lo: bv32)
    requires hi == lo >> 5 && hi < 0x2000000
    ensures Group(lo) < 32 && PolyStep(hi, Group(lo)) == lo
  {
    PolyStepShort(hi, Group(lo));
    hide PolyStep;
  }

  /** The same groups, split off from the low end. */
  function Fives(m: bv32, n: nat): Bytes {
    if n == 0 then [] else Fives(Above(m), n - 1) + [Group(m)]
  }

  function Above(m: bv32): bv32 { m >> 5 }

  lemma AboveStep(m: bv32, n: nat)
    requires 0 < n <= 6 && m < Limit(n)
    ensures Above(m) < Limit(n - 1) && Group(m) < 32 && PolyStep(Above(m), Group(m)) == m
  {
    GroupStep(Above(m), m);
    hide PolyStep, Group;
  }

  lemma FoldSnoc(c: bv32, a: Bytes, v: bv8)
    ensures Fold(c, a + [v]) == PolyStep(Fold(c, a), v)
  {
    FoldConcat(c, a, [v]);
    hide PolyStep;
    assert [v][1..] == [];
  }

  lemma EmptyFives(m: bv32)
    requires m < Limit(0)
    ensures Fold(0, Fives(m, 0)) == m
  {}

  lemma {:induction false} FivesFold(m: bv32, n: nat)
    requires n <= 6 && m < Limit(n)
    ensures Fold(0, Fives(m, n)) == m && Symbols(Fives(m, n))
    decreases n
  {
    hide PolyStep, Group, Above, Limit, Fold;
    if n == 0 {
      EmptyFives(m);
    } else {
      AboveStep(m, n);
      FivesFold(Above(m), n - 1);
      FoldSnoc(0, Fives(Above(m), n - 1), Group(m));
    }
  }

  lemma AboveShifts(m: bv32)
    ensures Above(m >> 5) == m >> 10 && Above(m >> 10) == m >> 15 && Above(m >> 15) == m >> 20
        && Above(m >> 20) == m >> 25
  {}

  lemma GroupsAreFives(m: bv32)
    ensures Groups(m) == Fives(m, 6)
  {
    AboveShifts(m);
    assert Above(m) == m >> 5;
    hide Above, Group;
    var a, b, c, d, e := m >> 25, m >> 20, m >> 15, m >> 10, m >> 5;
    assert Fives(a, 1) == [Group(a)];
    assert Fives(b, 2) == [Group(a), Group(b)];
    assert Fives(c, 3) == [Group(a), Group(b), Group(c)];
    assert Fives(d, 4) == [Group(a), Group(b), Group(c), Group(d)];
    assert Fives(e, 5) == [Group(a), Group(b), Group(c), Group(d), Group(e)];
  }

  /** Folding the groups of a number into an empty state gives the number back. */
  lemma GroupsFold(m: bv32)
    requires m < 0x40000000
    ensures Fold(0, Groups(m)) == m && Symbols(Groups(m))
  {
    GroupsAreFives(m);
    FivesFold(m, 6);
  }

  const SIX_ZEROS: Bytes := [0, 0, 0, 0, 0, 0]

  function ChecksumOf(e: Encoding, hrp: Bytes, values: Bytes): (r: Bytes)
    ensures |r| == CHECKSUM_SIZE
  {
    Groups(Xor(Check(hrp, values + SIX_ZEROS), EncodingConstant(e)))
  }

  lemma ConstantRange(c: bv32, e: Encoding)
    requires c < 0x40000000
    ensures Xor(c, EncodingConstant(e)) < 0x40000000
  {}

  lemma Zeroed(a: Bytes)
    requires |a| == CHECKSUM_SIZE
    ensures XorAll(SIX_ZEROS, a) == a
  {}

  /** Appending the checksum gives exactly the encoding's constant. */
  lemma ChecksumChecks(e: Encoding, hrp: Bytes, values: Bytes)
    requires Symbols(values)
    ensures Check(hrp, values + ChecksumOf(e, hrp, values)) == EncodingConstant(e)
    ensures Symbols(ChecksumOf(e, hrp, values))
  {
    var k, g := EncodingConstant(e), ChecksumOf(e, hrp, values);
    var p := Check(hrp, values + SIX_ZEROS);
    var word := Expand(hrp) + values;
    assert Expand(hrp) + (values + SIX_ZEROS) == word + SIX_ZEROS && Expand(hrp) + (values + g) == word + g;
    hide Fold, Xor, XorAll, Groups, Expand, EncodingConstant;
    FoldConcat(1, word, SIX_ZEROS);
    FoldConcat(1, word, g);
    var c := Fold(1, word);
    FoldRange(1, word + SIX_ZEROS);
    ConstantRange(p, e);
    GroupsFold(Xor(p, k));
    FoldLinear(c, 0, SIX_ZEROS, g);
    Zeroed(g);
    XorFacts(0, c);
    XorAssoc(p, p, k);
    XorFacts(p, p);
    XorFacts(k, k);
  }

  /** ... and no other six symbols do. */
  lemma ChecksumUnique(e: Encoding, hrp: Bytes, values: Bytes, tail: Bytes)
    requires Symbols(values) && Symbols(tail) && |tail| == CHECKSUM_SIZE
    requires Check(hrp, values + tail) == EncodingConstant(e)
    ensures tail == ChecksumOf(e, hrp, values)
  {
    hide Check, ChecksumOf, EncodingConstant;
    var g := ChecksumOf(e, hrp, values);
    ChecksumChecks(e, hrp, values);
    var a, b := values + tail, values + g;
    assert a[..|values|] == b[..|values|] && a[|a|..] == b[|a|..];
    BurstsChangeChecksum(hrp, a, b, |values|, |a|);
    assert tail == a[|values|..] && g == b[|values|..];
  }

  // ---------------------------------------------------------------- the loops

  method PolyMod(v: Bytes) returns (c: bv32)
    ensures c == Fold(1, v)
  {
    hide Xor, HasBit, Lead, Append, Fold;
    c := 1;
    FoldNone(1);
    for i := 0 to |v|
      invariant c == Fold(1, v[..i])
    {
      ghost var was := c;
      var c0 := Lead(c);
      c := Append(c, v[i]);
      if HasBit(c0, 1) { c := Xor(c, 0x3b6a57b2); }
      if HasBit(c0, 2) { c := Xor(c, 0x26508e6d); }
      if HasBit(c0, 4) { c := Xor(c, 0x1ea119fa); }
      if HasBit(c0, 8) { c := Xor(c, 0x3d4233dd); }
      if HasBit(c0, 16) { c := Xor(c, 0x2a1462b3); }
      assert c == PolyStep(was, v[i]);
      FoldSnoc(1, v[..i], v[i]);
      assert v[..i + 1] == v[..i] + [v[i]];
    }
    assert v[..|v|] == v;
  }

  lemma FoldNone(c: bv32)
    ensures Fold(c, []) == c
  {}

  method PreparePolynomialCoefficients(hrp: Bytes, values: Bytes) returns (ret: Bytes)
    ensures ret == Expand(hrp) + values
  {
    hide High, Low;
    ret := [];
    for i := 0 to |hrp|
      invariant ret == Expand(hrp)[..i]
    {
      ret := ret + [High(hrp[i])];
    }
    ret := ret + [0];
    for i := 0 to |hrp|
      invariant ret == Expand(hrp)[..|hrp| + 1 + i]
    {
      ret := ret + [Low(hrp[i])];
    }
    ret := ret + values;
  }

  method VerifyChecksum(hrp: Bytes, values: Bytes) returns (r: Option<Encoding>)
    ensures forall e :: r == Some(e) <==> Check(hrp, values) == EncodingConstant(e)
  {
    hide Fold, Expand;
    var enc := PreparePolynomialCoefficients(hrp, values);
    var check := PolyMod(enc);
    if check == EncodingConstant(BECH32) { return Some(BECH32); }
    if check == EncodingConstant(BECH32M) { return Some(BECH32M); }
    return None;
  }

  /** A shift by five times the number of groups still to come. */
  function Shifted(m: bv32, i: nat): bv32 {
    if i == 0 then m >> 25 else if i == 1 then m >> 20 else if i == 2 then m >> 15
    else if i == 3 then m >> 10 else if i == 4 then m >> 5 else m
  }

  method CreateChecksum(e: Encoding, hrp: Bytes, values: Bytes) returns (ret: Bytes)
    ensures ret == ChecksumOf(e, hrp, values)
  {
    hide Fold, Expand, Group, Xor, EncodingConstant;
    var enc := PreparePolynomialCoefficients(hrp, values);
    enc := enc + SIX_ZEROS;
    assert enc == Expand(hrp) + (values + SIX_ZEROS);
    var poly := PolyMod(enc);
    var mod := Xor(poly, EncodingConstant(e));
    ret := [];
    for i := 0 to CHECKSUM_SIZE
      invariant ret == Groups(mod)[..i]
    {
      ret := ret + [Group(Shifted(mod, i))];
    }
  }
}
