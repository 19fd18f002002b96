/** The distance of the Bech32 code: its generator polynomial has three consecutive powers of a primitive element of
    GF(1024) as roots, so no three errors within 1023 symbols go unnoticed. */
module Bech32Errors {
  import opened GaloisFields
  import opened Bech32Checksum

  // ---------------------------------------------------------------- remainders as polynomials

  /** A polynomial over GF(32) of degree at most five, the highest coefficient first. */
  datatype Poly = Poly(a: bv5, b: bv5, c: bv5, d: bv5, e: bv5, f: bv5)

  const NONE: Poly := Poly(0, 0, 0, 0, 0, 0)
  const X5: Poly := Poly(1, 0, 0, 0, 0, 0)

  /** The sixth power of x modulo the generator polynomial. */
  const K: Poly := Poly(29, 22, 20, 21, 29, 18)

  function Packed(m: Poly): bv32 {
    Pack(m.a, m.b, m.c, m.d, m.e, m.f)
  }

  function Add(m: Poly, n: Poly): Poly {
    Poly(Plus(m.a, n.a), Plus(m.b, n.b), Plus(m.c, n.c), Plus(m.d, n.d), Plus(m.e, n.e), Plus(m.f, n.f))
  }

  function Multiple(m: Poly, s: bv5): Poly {
    Poly(GfMul(m.a, s), GfMul(m.b, s), GfMul(m.c, s), GfMul(m.d, s), GfMul(m.e, s), GfMul(m.f, s))
  }

  /** m times x plus v, modulo the generator polynomial. */
  function ShiftIn(m: Poly, v: bv5): Poly {
    Add(Poly(m.b, m.c, m.d, m.e, m.f, v), Multiple(K, m.a))
  }

  lemma AppendIs(m: Poly, v: bv5)
    ensures Append(Packed(m), v as bv8) == Pack(m.b, m.c, m.d, m.e, m.f, v)
  {}

  lemma LeadIs(m: Poly)
    ensures Lead(Packed(m)) == m.a as bv32
  {}

  lemma PackedAdd(m: Poly, n: Poly)
    ensures Packed(Add(m, n)) == Xor(Packed(m), Packed(n))
  {}

  lemma ReduceBits()
    ensures Reduce(0, 0) == 0 && Reduce(0, 1) == 0x3b6a57b2 && Reduce(0, 2) == 0x26508e6d
    ensures Reduce(0, 4) == 0x1ea119fa && Reduce(0, 8) == 0x3d4233dd && Reduce(0, 16) == 0x2a1462b3
  {}

  lemma MultipleIs(s: bv5)
    ensures Packed(Multiple(K, s)) == Scaled(s)
  {
    hide GfMul, Pack;
  }

  lemma ScaledNone()
    ensures Scaled(0) == 0
  {
    hide GfMul, Pack;
    MulOne(29);
    MulOne(22);
    MulOne(20);
    MulOne(21);
    MulOne(18);
    PackedNone();
  }

  lemma PackedNone()
    ensures Packed(NONE) == 0
  {}

  lemma OneBitOf(s: bv5, bit: bv5)
    requires bit == 1 || bit == 2 || bit == 4 || bit == 8 || bit == 16
    ensures s & bit == 0 || s & bit == bit
  {}

  lemma ReduceBit(s: bv5, bit: bv5)
    requires bit == 1 || bit == 2 || bit == 4 || bit == 8 || bit == 16
    ensures Reduce(0, (s & bit) as bv32) == Packed(Multiple(K, s & bit))
  {
    hide Reduce, Packed, Multiple, Scaled;
    OneBitOf(s, bit);
    ReduceBits();
    MultipleIs(s & bit);
    GeneratorMultiples();
    ScaledNone();
  }

  lemma MultipleAdd(m: Poly, s: bv5, t: bv5)
    ensures Multiple(m, Plus(s, t)) == Add(Multiple(m, s), Multiple(m, t))
  {
    hide GfMul, Plus;
    MulRight(m.a, s, t);
    MulRight(m.b, s, t);
    MulRight(m.c, s, t);
    MulRight(m.d, s, t);
    MulRight(m.e, s, t);
    MulRight(m.f, s, t);
  }

  lemma XorPlus(s: bv5, t: bv5)
    ensures Plus(s, t) as bv32 == Xor(s as bv32, t as bv32) && Xor(0, 0) == 0
  {}

  lemma ReducePlus(s: bv5, t: bv5)
    requires Reduce(0, s as bv32) == Packed(Multiple(K, s)) && Reduce(0, t as bv32) == Packed(Multiple(K, t))
    ensures Reduce(0, Plus(s, t) as bv32) == Packed(Multiple(K, Plus(s, t)))
  {
    hide Reduce, Xor, Packed, Plus, Multiple, Add;
    XorPlus(s, t);
    ReduceLinear(0, 0, s as bv32, t as bv32);
    MultipleAdd(K, s, t);
    PackedAdd(Multiple(K, s), Multiple(K, t));
  }

  /** The constants that the bits of the leading coefficient select add up to its multiple of K. */
  lemma ReduceIs(s: bv5)
    ensures Reduce(0, s as bv32) == Packed(Multiple(K, s))
  {
    hide Reduce, Packed, Multiple, Plus;
    ReduceBit(s, 1);
    ReduceBit(s, 2);
    ReduceBit(s, 4);
    ReduceBit(s, 8);
    ReduceBit(s, 16);
    ReducePlus(s & 2, s & 1);
    ReducePlus(s & 4, Plus(s & 2, s & 1));
    ReducePlus(s & 8, Plus(s & 4, Plus(s & 2, s & 1)));
    ReducePlus(s & 16, Plus(s & 8, Plus(s & 4, Plus(s & 2, s & 1))));
    BitsOf(s);
  }

  lemma ReduceFrom(c: bv32, s: bv32)
    ensures Reduce(c, s) == Xor(c, Reduce(0, s))
  {
    assert Xor(c, 0) == c && Xor(0, s) == s && Reduce(c, 0) == c;
    hide Reduce, Xor;
    ReduceLinear(c, 0, 0, s);
  }

  /** One step of the checksum is polynomial arithmetic over GF(32). */
  lemma StepIs(m: Poly, v: bv5)
    ensures PolyStep(Packed(m), v as bv8) == Packed(ShiftIn(m, v))
  {
    hide Reduce, Xor, Append, Lead, Add, Multiple, Pack;
    AppendIs(m, v);
    LeadIs(m);
    ReduceFrom(Packed(Poly(m.b, m.c, m.d, m.e, m.f, v)), m.a as bv32);
    ReduceIs(m.a);
    PackedAdd(Poly(m.b, m.c, m.d, m.e, m.f, v), Multiple(K, m.a));
  }

  function Symbol(v: bv8): bv5 { (v & 31) as bv5 }

  lemma SymbolBack(v: bv8)
    requires v < 32
    ensures Symbol(v) as bv8 == v && (Symbol(v) == 0 ==> v == 0)
  {}

  lemma SymbolNone()
    ensures Symbol(0) == 0
  {}

  /** What symbols, the coefficients of a polynomial, leave modulo the generator polynomial. */
  function Remainder(z: Bytes): Poly {
    if z == [] then NONE else ShiftIn(Remainder(z[..|z| - 1]), Symbol(z[|z| - 1]))
  }

  lemma {:induction false} RemainderIs(z: Bytes)
    requires Symbols(z)
    ensures Fold(0, z) == Packed(Remainder(z))
    decreases |z|
  {
    hide PolyStep, ShiftIn, Packed, Symbol;
    if z == [] {
      assert Packed(NONE) == 0 by { PackedNone(); }
    } else {
      var y, v := z[..|z| - 1], z[|z| - 1];
      RemainderIs(y);
      SymbolBack(v);
      StepIs(Remainder(y), Symbol(v));
      FoldSnoc(0, y, v);
      assert z == y + [v];
    }
  }

  lemma PackedZero(m: Poly)
    requires Packed(m) == 0
    ensures m == NONE
  {}

  // ---------------------------------------------------------------- evaluation

  function Embed(v: bv5): Gf { Gf(0, v) }

  /** One step of the Horner scheme at the r-th power of e. */
  function At(r: nat, h: Gf, v: bv5): Gf {
    Sum(Raise(r, h), Embed(v))
  }

  /** A polynomial evaluated at the r-th power of e. */
  function Eval(r: nat, m: Poly): Gf {
    At(r, At(r, At(r, At(r, At(r, Embed(m.a), m.b), m.c), m.d), m.e), m.f)
  }

  lemma AtSum(r: nat, g: Gf, h: Gf, a: bv5, b: bv5)
    ensures At(r, Sum(g, h), Plus(a, b)) == Sum(At(r, g, a), At(r, h, b))
  {
    hide Plus, Raise;
    RaiseSum(r, g, h);
    var x, y := Raise(r, g), Raise(r, h);
    PlusSwap(x.hi, y.hi, 0, 0);
    PlusSwap(x.lo, y.lo, a, b);
    PlusFacts(0);
  }

  lemma EvalAdd(r: nat, m: Poly, n: Poly)
    ensures Eval(r, Add(m, n)) == Sum(Eval(r, m), Eval(r, n))
  {
    hide At, Plus;
    PlusFacts(0);
    var g, h := Embed(m.a), Embed(n.a);
    assert Embed(Plus(m.a, n.a)) == Sum(g, h);
    hide Sum, Embed;
    AtSum(r, g, h, m.b, n.b);
    g, h := At(r, g, m.b), At(r, h, n.b);
    AtSum(r, g, h, m.c, n.c);
    g, h := At(r, g, m.c), At(r, h, n.c);
    AtSum(r, g, h, m.d, n.d);
    g, h := At(r, g, m.d), At(r, h, n.d);
    AtSum(r, g, h, m.e, n.e);
    g, h := At(r, g, m.e), At(r, h, n.e);
    AtSum(r, g, h, m.f, n.f);
  }

  function Scale(x: Gf, s: bv5): Gf {
    Gf(GfMul(x.hi, s), GfMul(x.lo, s))
  }

  lemma NextScale(x: Gf, s: bv5)
    ensures Next(Scale(x, s)) == Scale(Next(x), s)
  {
    hide GfMul, Plus;
    MulAssoc(9, x.hi, s);
    MulAssoc(23, x.hi, s);
    MulLeft(GfMul(9, x.hi), x.lo, s);
  }

  lemma {:induction false} RaiseScale(k: nat, x: Gf, s: bv5)
    ensures Raise(k, Scale(x, s)) == Scale(Raise(k, x), s)
    decreases k
  {
    hide Next, Scale;
    if k > 0 {
      RaiseScale(k - 1, x, s);
      NextScale(Raise(k - 1, x), s);
    }
  }

  lemma AtScale(r: nat, h: Gf, v: bv5, s: bv5)
    ensures At(r, Scale(h, s), GfMul(v, s)) == Scale(At(r, h, v), s)
  {
    hide GfMul, Plus, Raise;
    RaiseScale(r, h, s);
    MulLeft(Raise(r, h).hi, 0, s);
    MulLeft(Raise(r, h).lo, v, s);
    MulZero(s);
  }

  lemma EvalMultiple(r: nat, m: Poly, s: bv5)
    ensures Eval(r, Multiple(m, s)) == Scale(Eval(r, m), s)
  {
    hide GfMul, At;
    MulZero(s);
    var h := Embed(m.a);
    assert Embed(GfMul(m.a, s)) == Scale(h, s);
    hide Embed, Scale;
    AtScale(r, h, m.b, s);
    h := At(r, h, m.b);
    AtScale(r, h, m.c, s);
    h := At(r, h, m.c);
    AtScale(r, h, m.d, s);
    h := At(r, h, m.d);
    AtScale(r, h, m.e, s);
    h := At(r, h, m.e);
    AtScale(r, h, m.f, s);
  }

  // ---------------------------------------------------------------- the roots of the generator polynomial

  predicate Root(r: nat) { r == 997 || r == 998 || r == 999 }

  /** The r-th power of e, for the three roots. */
  function RootOf(r: nat): Gf {
    if r == 997 then Gf(13, 29) else if r == 998 then Gf(3, 5) else Gf(30, 16)
  }

  lemma RaiseRoot(r: nat, x: Gf, y: Gf)
    requires Root(r) && Product(RootOf(r), x) == y
    ensures Raise(r, x) == y
  {
    hide Raise, Exp, Product;
    RootPowers();
    RaiseIs(r, x);
  }

  lemma Third997()
    ensures Raise(997, Raise(997, Raise(997, ONE))) == Gf(26, 15)
  {
    hide Raise;
    RaiseRoot(997, Gf(0, 1), Gf(13, 29));
    RaiseRoot(997, Gf(13, 29), Gf(27, 9));
    RaiseRoot(997, Gf(27, 9), Gf(26, 15));
  }

  lemma Sixth997()
    ensures Raise(997, Raise(997, Raise(997, Gf(26, 15)))) == Gf(23, 21)
  {
    hide Raise;
    RaiseRoot(997, Gf(26, 15), Gf(30, 22));
    RaiseRoot(997, Gf(30, 22), Gf(3, 20));
    RaiseRoot(997, Gf(3, 20), Gf(23, 21));
  }

  lemma K997()
    ensures Eval(997, K) == Gf(23, 21)
  {
    hide Raise;
    RaiseRoot(997, Gf(0, 29), Gf(12, 25));
    RaiseRoot(997, Gf(12, 15), Gf(13, 10));
    RaiseRoot(997, Gf(13, 30), Gf(12, 7));
    RaiseRoot(997, Gf(12, 18), Gf(1, 19));
    RaiseRoot(997, Gf(1, 14), Gf(23, 7));
  }

  lemma Third998()
    ensures Raise(998, Raise(998, Raise(998, ONE))) == Gf(27, 19)
  {
    hide Raise;
    RaiseRoot(998, Gf(0, 1), Gf(3, 5));
    RaiseRoot(998, Gf(3, 5), Gf(4, 8));
    RaiseRoot(998, Gf(4, 8), Gf(27, 19));
  }

  lemma Sixth998()
    ensures Raise(998, Raise(998, Raise(998, Gf(27, 19)))) == Gf(30, 26)
  {
    hide Raise;
    RaiseRoot(998, Gf(27, 19), Gf(29, 3));
    RaiseRoot(998, Gf(29, 3), Gf(18, 26));
    RaiseRoot(998, Gf(18, 26), Gf(30, 26));
  }

  lemma K998()
    ensures Eval(998, K) == Gf(30, 26)
  {
    hide Raise;
    RaiseRoot(998, Gf(0, 29), Gf(14, 18));
    RaiseRoot(998, Gf(14, 4), Gf(28, 2));
    RaiseRoot(998, Gf(28, 22), Gf(26, 25));
    RaiseRoot(998, Gf(26, 12), Gf(11, 11));
    RaiseRoot(998, Gf(11, 22), Gf(30, 8));
  }

  lemma Third999()
    ensures Raise(999, Raise(999, Raise(999, ONE))) == Gf(22, 6)
  {
    hide Raise;
    RaiseRoot(999, Gf(0, 1), Gf(30, 16));
    RaiseRoot(999, Gf(30, 16), Gf(10, 25));
    RaiseRoot(999, Gf(10, 25), Gf(22, 6));
  }

  lemma Sixth999()
    ensures Raise(999, Raise(999, Raise(999, Gf(22, 6)))) == Gf(5, 1)
  {
    hide Raise;
    RaiseRoot(999, Gf(22, 6), Gf(2, 17));
    RaiseRoot(999, Gf(2, 17), Gf(2, 2));
    RaiseRoot(999, Gf(2, 2), Gf(5, 1));
  }

  lemma K999()
    ensures Eval(999, K) == Gf(5, 1)
  {
    hide Raise;
    RaiseRoot(999, Gf(0, 29), Gf(23, 21));
    RaiseRoot(999, Gf(23, 3), Gf(23, 23));
    RaiseRoot(999, Gf(23, 2), Gf(9, 7));
    RaiseRoot(999, Gf(9, 26), Gf(5, 19));
  }

  lemma EvalX5(r: nat)
    ensures Eval(r, X5) == Raise(r, Raise(r, Raise(r, Raise(r, Raise(r, ONE)))))
  {
    hide Raise;
    var x := ONE;
    AtZero(r, x);
    x := Raise(r, x);
    AtZero(r, x);
    x := Raise(r, x);
    AtZero(r, x);
    x := Raise(r, x);
    AtZero(r, x);
    x := Raise(r, x);
    AtZero(r, x);
    hide At;
  }

  lemma AtZero(r: nat, h: Gf)
    ensures At(r, h, 0) == Raise(r, h)
  {
    hide Raise;
    SumFacts(Raise(r, h), ZERO);
  }

  lemma Sixths(r: nat)
    requires Root(r)
    ensures Eval(r, K) == Raise(r, Eval(r, X5))
  {
    hide Eval, Raise;
    EvalX5(r);
    if r == 997 {
      Third997();
      Sixth997();
      K997();
    } else if r == 998 {
      Third998();
      Sixth998();
      K998();
    } else {
      Third999();
      Sixth999();
      K999();
    }
  }

  lemma MultipleX5(s: bv5)
    ensures Multiple(X5, s) == Poly(s, 0, 0, 0, 0, 0)
  {}

  lemma Leads(r: nat, s: bv5)
    requires Root(r)
    ensures Eval(r, Multiple(K, s)) == Raise(r, Eval(r, Poly(s, 0, 0, 0, 0, 0)))
  {
    hide Eval, Raise, Multiple;
    Sixths(r);
    EvalMultiple(r, K, s);
    EvalMultiple(r, X5, s);
    MultipleX5(s);
    RaiseScale(r, Eval(r, X5), s);
  }

  lemma EvalTail(r: nat, m: Poly, v: bv5)
    ensures Eval(r, Poly(m.b, m.c, m.d, m.e, m.f, v)) == At(r, Eval(r, m.(a := 0)), v)
  {
    hide Raise;
    RaiseZero(r, ZERO);
    SumFacts(Embed(m.b), ZERO);
    assert At(r, Embed(0), m.b) == Embed(m.b);
    hide At;
  }

  lemma AddLead(m: Poly)
    ensures m == Add(Poly(m.a, 0, 0, 0, 0, 0), m.(a := 0))
  {}

  /** At its three roots the generator polynomial does not matter. */
  lemma EvalShiftIn(r: nat, m: Poly, v: bv5)
    requires Root(r)
    ensures Eval(r, ShiftIn(m, v)) == At(r, Eval(r, m), v)
  {
    hide Eval, Raise, Multiple, Add, Plus, Sum;
    var lead, rest := Poly(m.a, 0, 0, 0, 0, 0), m.(a := 0);
    EvalAdd(r, Poly(m.b, m.c, m.d, m.e, m.f, v), Multiple(K, m.a));
    Leads(r, m.a);
    EvalTail(r, m, v);
    AddLead(m);
    EvalAdd(r, lead, rest);
    AtSum(r, Eval(r, lead), Eval(r, rest), 0, v);
    PlusFacts(v);
    SumFacts(Raise(r, Eval(r, lead)), ZERO);
    SumFacts(Raise(r, Eval(r, lead)), At(r, Eval(r, rest), v));
  }

  /** Symbols as the coefficients of a polynomial, evaluated at the r-th power of e. */
  function Evaluate(r: nat, z: Bytes): Gf {
    if z == [] then ZERO else At(r, Evaluate(r, z[..|z| - 1]), Symbol(z[|z| - 1]))
  }

  lemma {:induction false} EvaluateIs(r: nat, z: Bytes)
    requires Root(r)
    ensures Eval(r, Remainder(z)) == Evaluate(r, z)
    decreases |z|
  {
    hide At, Eval, ShiftIn, Symbol, Root;
    if z == [] {
      EvalNone(r);
    } else {
      EvaluateIs(r, z[..|z| - 1]);
      EvalShiftIn(r, Remainder(z[..|z| - 1]), Symbol(z[|z| - 1]));
    }
  }

  lemma EvalNone(r: nat)
    ensures Eval(r, NONE) == ZERO
  {
    hide Raise;
    RaiseZero(r, ZERO);
    SumFacts(ZERO, ZERO);
  }

  /** A word that leaves no remainder has three consecutive powers of e as roots. */
  lemma Syndromes(r: nat, z: Bytes)
    requires Symbols(z) && Fold(0, z) == 0 && Root(r)
    ensures Evaluate(r, z) == ZERO
  {
    hide Fold, Packed, Evaluate, Eval, Remainder, Symbols, Root;
    RemainderIs(z);
    PackedZero(Remainder(z));
    EvaluateIs(r, z);
    EvalNone(r);
  }

  // ---------------------------------------------------------------- three errors

  /** The product of x and the n-th power of the r-th power of e. */
  function Power(r: nat, n: nat, x: Gf): Gf {
    Raise(r * n, x)
  }

  lemma PowerMore(r: nat, m: nat, n: nat, x: Gf)
    ensures Power(r, m + n, x) == Power(r, m, Power(r, n, x))
  {
    hide Raise;
    RaiseMore(r * m, r * n, x);
    Distributes(r, m, n);
  }

  lemma Distributes(r: nat, m: nat, n: nat)
    ensures r * m + r * n == r * (m + n)
  {}

  lemma PowerOne(r: nat, x: Gf)
    ensures Power(r, 0, x) == x && Power(r, 1, x) == Raise(r, x)
  {
    hide Raise;
    RaiseNone(x);
  }

  lemma EvaluateOne(r: nat, z: Bytes, n: nat)
    requires n < |z|
    ensures Evaluate(r, z[..n + 1]) == At(r, Evaluate(r, z[..n]), Symbol(z[n]))
  {
    hide At, Symbol;
    assert z[..n + 1][..n] == z[..n];
  }

  lemma {:induction false} EvaluateZeros(r: nat, z: Bytes, lo: nat, hi: nat)
    requires lo <= hi <= |z| && forall n | lo <= n < hi :: z[n] == 0
    ensures Evaluate(r, z[..hi]) == Power(r, hi - lo, Evaluate(r, z[..lo]))
    decreases hi
  {
    hide Raise, At, Power, Evaluate, Symbol;
    SymbolNone();
    if lo == hi {
      PowerOne(r, Evaluate(r, z[..lo]));
    } else {
      EvaluateZeros(r, z, lo, hi - 1);
      EvaluateOne(r, z, hi - 1);
      AtZero(r, Evaluate(r, z[..hi - 1]));
      PowerMore(r, 1, hi - 1 - lo, Evaluate(r, z[..lo]));
      PowerOne(r, Evaluate(r, z[..hi - 1]));
    }
  }

  /** The coefficient at a position, as an element of GF(1024). */
  function Error(z: Bytes, n: nat): Gf
    requires n < |z|
  {
    Embed(Symbol(z[n]))
  }

  lemma NextError(r: nat, z: Bytes, lo: nat, hi: nat)
    requires lo <= hi < |z| && forall n | lo <= n < hi :: z[n] == 0
    ensures Evaluate(r, z[..hi + 1]) == Sum(Power(r, hi + 1 - lo, Evaluate(r, z[..lo])), Error(z, hi))
  {
    hide Raise, Sum, Evaluate, Symbol, Power, Embed;
    var x := Evaluate(r, z[..lo]);
    EvaluateZeros(r, z, lo, hi);
    EvaluateOne(r, z, hi);
    PowerMore(r, 1, hi - lo, x);
    PowerOne(r, Power(r, hi - lo, x));
  }

  lemma FirstError(r: nat, z: Bytes, i: nat)
    requires i < |z| && forall n | 0 <= n < i :: z[n] == 0
    ensures Evaluate(r, z[..i + 1]) == Error(z, i)
  {
    hide Raise, Error;
    NextError(r, z, 0, i);
    assert Evaluate(r, z[..0]) == ZERO;
    RaiseZero(r * (i + 1), ZERO);
    SumFacts(Error(z, i), ZERO);
  }

  /** Three errors, p and q places before the last and at the last, evaluated at the r-th power of e. */
  function Errors(r: nat, p: nat, q: nat, x: Gf, y: Gf, w: Gf): Gf {
    Sum(Sum(Power(r, p, x), Power(r, q, y)), w)
  }

  lemma ErrorsEvaluate(r: nat, z: Bytes, i: nat, j: nat, k: nat)
    requires i < j < k < |z| && forall n | 0 <= n < |z| && n != i && n != j && n != k :: z[n] == 0
    ensures Evaluate(r, z) ==
            Power(r, |z| - 1 - k, Errors(r, k - i, k - j, Error(z, i), Error(z, j), Error(z, k)))
  {
    hide Sum, Evaluate, Error, Power, Raise;
    var x, y := Error(z, i), Error(z, j);
    FirstError(r, z, i);
    NextError(r, z, i + 1, j);
    NextError(r, z, j + 1, k);
    PowerSum(r, k - j, Power(r, j - i, x), y);
    PowerMore(r, k - j, j - i, x);
    EvaluateZeros(r, z, k + 1, |z|);
    assert z[..|z|] == z;
  }

  lemma PowerSum(r: nat, n: nat, x: Gf, y: Gf)
    ensures Power(r, n, Sum(x, y)) == Sum(Power(r, n, x), Power(r, n, y))
  {
    hide Raise, Sum;
    RaiseSum(r * n, x, y);
  }

  lemma PowerZero(r: nat, n: nat, x: Gf)
    ensures Power(r, n, x) == ZERO <==> x == ZERO
  {
    hide Raise;
    RaiseZero(r * n, x);
  }

  lemma Cancel(u: Gf, v: Gf, u': Gf, v': Gf, w: Gf)
    requires Sum(Sum(u, v), w) == ZERO && Sum(Sum(u', v'), w) == ZERO
    ensures Sum(u', u) == Sum(v', v)
  {}

  /** The sums at three consecutive powers vanish only if all three errors do. */
  lemma ErrorsVanish(p: nat, q: nat, x: Gf, y: Gf, w: Gf)
    requires 0 < q < p < 1023
    requires Errors(997, p, q, x, y, w) == ZERO && Errors(998, p, q, x, y, w) == ZERO
          && Errors(999, p, q, x, y, w) == ZERO
    ensures x == ZERO && y == ZERO && w == ZERO
  {
    hide Raise, Sum;
    var u, v := Raise(997 * p, x), Raise(997 * q, y);
    var pu, qv := Raise(p, u), Raise(q, v);
    RaiseMore(p, 997 * p, x);
    RaiseMore(q, 997 * q, y);
    RaiseMore(p, 998 * p, x);
    RaiseMore(q, 998 * q, y);
    Cancel(u, v, pu, qv, w);
    Cancel(pu, qv, Raise(p, pu), Raise(q, qv), w);
    RaiseSum(p, pu, u);
    RaiseSum(q, qv, v);
    PowersDiffer(Sum(pu, u), q, p);
    SumFacts(pu, u);
    SumFacts(qv, v);
    RaiseNone(u);
    RaiseNone(v);
    PowersDiffer(u, 0, p);
    PowersDiffer(v, 0, q);
    RaiseZero(997 * p, x);
    RaiseZero(997 * q, y);
    SumFacts(ZERO, w);
    SumFacts(ZERO, ZERO);
  }

  lemma NoThreeErrors(z: Bytes, i: nat, j: nat, k: nat)
    requires Symbols(z) && Fold(0, z) == 0 && i < j < k < |z| && k - i < 1023
    requires forall n | 0 <= n < |z| && n != i && n != j && n != k :: z[n] == 0
    ensures AllZero(z)
  {
    hide Errors, Symbol, Fold, Power, Evaluate;
    forall r | Root(r)
      ensures Errors(r, k - i, k - j, Error(z, i), Error(z, j), Error(z, k)) == ZERO
    {
      Syndromes(r, z);
      ErrorsEvaluate(r, z, i, j, k);
      PowerZero(r, |z| - 1 - k, Errors(r, k - i, k - j, Error(z, i), Error(z, j), Error(z, k)));
    }
    assert Root(997) && Root(998) && Root(999);
    ErrorsVanish(k - i, k - j, Error(z, i), Error(z, j), Error(z, k));
    SymbolBack(z[i]);
    SymbolBack(z[j]);
    SymbolBack(z[k]);
  }

  lemma SpreadErrors(c: bv32, u: Bytes, w: Bytes, i: nat, j: nat, k: nat)
    requires |u| == |w| && Symbols(u) && Symbols(w) && i < j < k < |u| && k - i < 1023
    requires forall n | 0 <= n < |u| && n != i && n != j && n != k :: u[n] == w[n]
    requires Fold(c, u) == Fold(c, w)
    ensures u == w
  {
    hide Fold, Symbols, AllZero;
    var z := XorAll(u, w);
    DifferenceFold(c, u, w);
    XorAllFacts(u, w);
    forall n | 0 <= n < |z| && n != i && n != j && n != k ensures z[n] == 0 {
      XorByte(u[n], w[n]);
    }
    NoThreeErrors(z, i, j, k);
  }

  lemma CloseErrors(c: bv32, u: Bytes, w: Bytes, i: nat, k: nat)
    requires |u| == |w| && Symbols(u) && Symbols(w) && i <= k < |u| && k - i < 6
    requires forall n | 0 <= n < |u| && !(i <= n <= k) :: u[n] == w[n]
    requires Fold(c, u) == Fold(c, w)
    ensures u == w
  {
    hide Fold;
    Recut(u, i, k + 1);
    Recut(w, i, k + 1);
    assert u[..i] == w[..i] && u[k + 1..] == w[k + 1..];
    BurstDetected(c, u[..i], u[i..k + 1], w[i..k + 1], u[k + 1..]);
  }

  /** Two words that differ in at most three symbols, all of them within 1023, and leave the same remainder are
      equal. */
  lemma ThreeErrorsDetected(c: bv32, u: Bytes, w: Bytes, i: nat, j: nat, k: nat)
    requires |u| == |w| && Symbols(u) && Symbols(w) && i <= j <= k < |u| && k - i < 1023
    requires forall n | 0 <= n < |u| && n != i && n != j && n != k :: u[n] == w[n]
    requires Fold(c, u) == Fold(c, w)
    ensures u == w
  {
    hide Fold, Symbols;
    if k - i < 2 {
      CloseErrors(c, u, w, i, k);
    } else {
      SpreadErrors(c, u, w, i, if i < j < k then j else i + 1, k);
    }
  }

  /** Under one encoding and prefix, no two codewords of one length differ in one to three symbols within 1023. */
  lemma ThreeErrorsChangeChecksum(hrp: Bytes, a: Bytes, b: Bytes, i: nat, j: nat, k: nat)
    requires |a| == |b| && Symbols(a) && Symbols(b) && i <= j <= k < |a| && k - i < 1023
    requires forall n | 0 <= n < |a| && n != i && n != j && n != k :: a[n] == b[n]
    requires Check(hrp, a) == Check(hrp, b)
    ensures a == b
  {
    hide Fold, Expand;
    var p := Fold(1, Expand(hrp));
    FoldConcat(1, Expand(hrp), a);
    FoldConcat(1, Expand(hrp), b);
    ThreeErrorsDetected(p, a, b, i, j, k);
  }
}
