/** The fields GF(32) and GF(1024) of the Bech32 checksum. */
module GaloisFields {
  // ---------------------------------------------------------------- GF(32)

  function Plus(a: bv5, b: bv5): bv5 { a ^ b }

  predicate HasBit(a: bv5, bit: bv5) { a & bit != 0 }

  /** Multiplication by a in GF(32), whose modulus is a^5 + a^3 + 1. */
  function Double(b: bv5): bv5 {
    if HasBit(b, 16) then (b << 1) ^ 9 else b << 1
  }

  function MulStep(h: bv5, bit: bool, b: bv5): bv5 {
    if bit then Plus(Double(h), b) else Double(h)
  }

  /** Multiplication in GF(32), by the bits of the first factor. */
  function GfMul(a: bv5, b: bv5): bv5 {
    var h := MulStep(MulStep(0, HasBit(a, 16), b), HasBit(a, 8), b);
    MulStep(MulStep(MulStep(h, HasBit(a, 4), b), HasBit(a, 2), b), HasBit(a, 1), b)
  }

  lemma BitPlus(a: bv5, b: bv5, bit: bv5)
    requires bit == 1 || bit == 2 || bit == 4 || bit == 8 || bit == 16
    ensures HasBit(Plus(a, b), bit) == (HasBit(a, bit) != HasBit(b, bit))
  {}

  lemma DoublePlus(a: bv5, b: bv5)
    ensures Double(Plus(a, b)) == Plus(Double(a), Double(b))
  {}

  lemma PlusAssoc(a: bv5, b: bv5, c: bv5)
    ensures Plus(Plus(a, b), c) == Plus(a, Plus(b, c)) && Plus(a, b) == Plus(b, a)
  {}

  /** The last of three comes second. */
  lemma PlusLast(a: bv5, b: bv5, c: bv5)
    ensures Plus(a, Plus(b, c)) == Plus(Plus(a, c), b)
  {
    hide Plus;
    PlusAssoc(b, c, a);
    PlusAssoc(a, c, b);
  }

  lemma PlusSwap(a: bv5, b: bv5, c: bv5, d: bv5)
    ensures Plus(Plus(a, b), Plus(c, d)) == Plus(Plus(a, c), Plus(b, d))
  {
    hide Plus;
    PlusAssoc(Plus(a, b), c, d);
    PlusAssoc(a, b, c);
    PlusAssoc(b, c, 0);
    PlusAssoc(a, c, b);
    PlusAssoc(Plus(a, c), b, d);
  }

  lemma PlusFacts(a: bv5)
    ensures Plus(a, a) == 0 && Plus(a, 0) == a == Plus(0, a)
  {}

  lemma StepLeft(g: bv5, h: bv5, a: bv5, b: bv5, bit: bv5, c: bv5)
    requires bit == 1 || bit == 2 || bit == 4 || bit == 8 || bit == 16
    ensures MulStep(Plus(g, h), HasBit(Plus(a, b), bit), c)
         == Plus(MulStep(g, HasBit(a, bit), c), MulStep(h, HasBit(b, bit), c))
  {
    hide Plus, Double, HasBit;
    BitPlus(a, b, bit);
    DoublePlus(g, h);
    PlusSwap(Double(g), Double(h), if HasBit(a, bit) then c else 0, if HasBit(b, bit) then c else 0);
    PlusFacts(Double(g));
    PlusFacts(Double(h));
    PlusFacts(Plus(Double(g), Double(h)));
    PlusFacts(c);
  }

  lemma StepRight(g: bv5, h: bv5, p: bool, a: bv5, b: bv5)
    ensures MulStep(Plus(g, h), p, Plus(a, b)) == Plus(MulStep(g, p, a), MulStep(h, p, b))
  {
    hide Plus, Double;
    DoublePlus(g, h);
    PlusSwap(Double(g), Double(h), a, b);
  }

  lemma MulLeft(a: bv5, b: bv5, c: bv5)
    ensures GfMul(Plus(a, b), c) == Plus(GfMul(a, c), GfMul(b, c))
  {
    hide MulStep, HasBit, Plus;
    PlusFacts(0);
    StepLeft(0, 0, a, b, 16, c);
    var g, h := MulStep(0, HasBit(a, 16), c), MulStep(0, HasBit(b, 16), c);
    StepLeft(g, h, a, b, 8, c);
    g, h := MulStep(g, HasBit(a, 8), c), MulStep(h, HasBit(b, 8), c);
    StepLeft(g, h, a, b, 4, c);
    g, h := MulStep(g, HasBit(a, 4), c), MulStep(h, HasBit(b, 4), c);
    StepLeft(g, h, a, b, 2, c);
    g, h := MulStep(g, HasBit(a, 2), c), MulStep(h, HasBit(b, 2), c);
    StepLeft(g, h, a, b, 1, c);
  }

  lemma MulRight(a: bv5, b: bv5, c: bv5)
    ensures GfMul(a, Plus(b, c)) == Plus(GfMul(a, b), GfMul(a, c))
  {
    hide MulStep, HasBit, Plus;
    PlusFacts(0);
    StepRight(0, 0, HasBit(a, 16), b, c);
    var g, h := MulStep(0, HasBit(a, 16), b), MulStep(0, HasBit(a, 16), c);
    StepRight(g, h, HasBit(a, 8), b, c);
    g, h := MulStep(g, HasBit(a, 8), b), MulStep(h, HasBit(a, 8), c);
    StepRight(g, h, HasBit(a, 4), b, c);
    g, h := MulStep(g, HasBit(a, 4), b), MulStep(h, HasBit(a, 4), c);
    StepRight(g, h, HasBit(a, 2), b, c);
    g, h := MulStep(g, HasBit(a, 2), b), MulStep(h, HasBit(a, 2), c);
    StepRight(g, h, HasBit(a, 1), b, c);
  }

  lemma DoubleMulPlus(a: bv5, b: bv5, c: bv5)
    requires GfMul(Double(a), c) == Double(GfMul(a, c)) && GfMul(Double(b), c) == Double(GfMul(b, c))
    ensures GfMul(Double(Plus(a, b)), c) == Double(GfMul(Plus(a, b), c))
  {
    hide GfMul, Double, Plus;
    DoublePlus(a, b);
    MulLeft(Double(a), Double(b), c);
    MulLeft(a, b, c);
    DoublePlus(GfMul(a, c), GfMul(b, c));
  }

  lemma DoubleMulBit(a: bv5, bit: bv5, c: bv5)
    requires bit == 1 || bit == 2 || bit == 4 || bit == 8 || bit == 16
    ensures GfMul(Double(a & bit), c) == Double(GfMul(a & bit, c))
  {
    assert a & bit == 0 || a & bit == bit;
  }

  lemma BitsOf(a: bv5)
    ensures a == Plus(a & 16, Plus(a & 8, Plus(a & 4, Plus(a & 2, a & 1))))
  {}

  lemma DoubleMul(a: bv5, c: bv5)
    ensures GfMul(Double(a), c) == Double(GfMul(a, c))
  {
    hide GfMul, Double, Plus;
    DoubleMulBit(a, 1, c);
    DoubleMulBit(a, 2, c);
    DoubleMulBit(a, 4, c);
    DoubleMulBit(a, 8, c);
    DoubleMulBit(a, 16, c);
    DoubleMulPlus(a & 2, a & 1, c);
    DoubleMulPlus(a & 4, Plus(a & 2, a & 1), c);
    DoubleMulPlus(a & 8, Plus(a & 4, Plus(a & 2, a & 1)), c);
    DoubleMulPlus(a & 16, Plus(a & 8, Plus(a & 4, Plus(a & 2, a & 1))), c);
    BitsOf(a);
  }

  lemma StepMul(h: bv5, bit: bool, b: bv5, c: bv5)
    ensures GfMul(MulStep(h, bit, b), c) == MulStep(GfMul(h, c), bit, GfMul(b, c))
  {
    hide GfMul, Plus, Double;
    DoubleMul(h, c);
    MulLeft(Double(h), b, c);
  }

  lemma MulZero(c: bv5)
    ensures GfMul(0, c) == 0
  {}

  lemma MulIs(a: bv5, b: bv5)
    ensures var h := MulStep(MulStep(0, HasBit(a, 16), b), HasBit(a, 8), b);
      GfMul(a, b) == MulStep(MulStep(MulStep(h, HasBit(a, 4), b), HasBit(a, 2), b), HasBit(a, 1), b)
  {
    hide MulStep, HasBit;
  }

  lemma MulAssoc(a: bv5, b: bv5, c: bv5)
    ensures GfMul(a, GfMul(b, c)) == GfMul(GfMul(a, b), c)
  {
    hide GfMul, MulStep, HasBit;
    MulIs(a, b);
    MulIs(a, GfMul(b, c));
    MulZero(c);
    StepMul(0, HasBit(a, 16), b, c);
    var h := MulStep(0, HasBit(a, 16), b);
    StepMul(h, HasBit(a, 8), b, c);
    h := MulStep(h, HasBit(a, 8), b);
    StepMul(h, HasBit(a, 4), b, c);
    h := MulStep(h, HasBit(a, 4), b);
    StepMul(h, HasBit(a, 2), b, c);
    h := MulStep(h, HasBit(a, 2), b);
    StepMul(h, HasBit(a, 1), b, c);
  }

  // ---------------------------------------------------------------- GF(1024)

  /** The element hi * e + lo, where e is a root of x^2 + 9x + 23. */
  datatype Gf = Gf(hi: bv5, lo: bv5)

  const ZERO: Gf := Gf(0, 0)
  const ONE: Gf := Gf(0, 1)

  function Sum(x: Gf, y: Gf): Gf {
    Gf(Plus(x.hi, y.hi), Plus(x.lo, y.lo))
  }

  /** Multiplication by e. */
  function Next(x: Gf): Gf {
    Gf(Plus(GfMul(9, x.hi), x.lo), GfMul(23, x.hi))
  }

  function Product(x: Gf, y: Gf): Gf {
    var high := GfMul(x.hi, y.hi);
    Gf(Plus(GfMul(9, high), Plus(GfMul(x.hi, y.lo), GfMul(x.lo, y.hi))),
       Plus(GfMul(23, high), GfMul(x.lo, y.lo)))
  }

  lemma SumFacts(x: Gf, y: Gf)
    ensures Sum(x, y) == Sum(y, x) && Sum(x, ZERO) == x == Sum(ZERO, x)
    ensures Sum(x, y) == ZERO <==> x == y
  {}

  lemma NextSum(x: Gf, y: Gf)
    ensures Next(Sum(x, y)) == Sum(Next(x), Next(y))
  {
    hide Plus, GfMul;
    MulRight(9, x.hi, y.hi);
    MulRight(23, x.hi, y.hi);
    PlusSwap(GfMul(9, x.hi), GfMul(9, y.hi), x.lo, y.lo);
  }

  lemma NextInjective(x: Gf)
    ensures Next(x) == ZERO <==> x == ZERO
  {}

  lemma ProductOne(x: Gf)
    ensures Product(ONE, x) == x
  {}

  lemma PlusFive(a: bv5, b: bv5, c: bv5, d: bv5, e: bv5)
    ensures Plus(Plus(a, Plus(b, c)), Plus(d, e)) == Plus(Plus(a, c), Plus(Plus(b, e), d))
  {
    hide Plus;
    PlusLast(a, b, c);
    PlusAssoc(Plus(a, c), b, Plus(d, e));
    PlusLast(b, d, e);
  }

  lemma NextProduct(a: Gf, x: Gf)
    ensures Next(Product(a, x)) == Product(Next(a), x)
  {
    hide Plus, GfMul;
    var p, q, r, s := GfMul(a.hi, x.hi), GfMul(a.hi, x.lo), GfMul(a.lo, x.hi), GfMul(a.lo, x.lo);
    MulAssoc(9, a.hi, x.hi);
    MulAssoc(9, a.hi, x.lo);
    MulAssoc(23, a.hi, x.hi);
    MulAssoc(23, a.hi, x.lo);
    MulLeft(GfMul(9, a.hi), a.lo, x.hi);
    MulLeft(GfMul(9, a.hi), a.lo, x.lo);
    MulRight(9, GfMul(9, p), r);
    MulRight(23, GfMul(9, p), r);
    MulRight(9, q, r);
    MulRight(23, q, r);
    MulRight(9, GfMul(9, p), Plus(q, r));
    MulRight(23, GfMul(9, p), Plus(q, r));
    PlusFive(GfMul(9, GfMul(9, p)), GfMul(9, q), GfMul(9, r), GfMul(23, p), s);
    PlusLast(GfMul(23, GfMul(9, p)), GfMul(23, q), GfMul(23, r));
  }

  // ---------------------------------------------------------------- powers of e

  /** The product of x and the k-th power of e. */
  function Raise(k: nat, x: Gf): Gf {
    if k == 0 then x else Next(Raise(k - 1, x))
  }

  function Exp(k: nat): Gf {
    Raise(k, ONE)
  }

  lemma {:induction false} RaiseMore(j: nat, k: nat, x: Gf)
    ensures Raise(j + k, x) == Raise(j, Raise(k, x))
    decreases j
  {
    hide Next;
    if j > 0 { RaiseMore(j - 1, k, x); }
  }

  lemma {:induction false} RaiseSum(k: nat, x: Gf, y: Gf)
    ensures Raise(k, Sum(x, y)) == Sum(Raise(k, x), Raise(k, y))
    decreases k
  {
    hide Next, Sum;
    if k > 0 {
      RaiseSum(k - 1, x, y);
      NextSum(Raise(k - 1, x), Raise(k - 1, y));
    }
  }

  lemma {:induction false} RaiseZero(k: nat, x: Gf)
    ensures Raise(k, x) == ZERO <==> x == ZERO
    decreases k
  {
    hide Next;
    if k > 0 {
      RaiseZero(k - 1, x);
      NextInjective(Raise(k - 1, x));
    }
  }

  lemma {:induction false} RaiseIs(k: nat, x: Gf)
    ensures Raise(k, x) == Product(Exp(k), x)
    decreases k
  {
    hide Next, Product;
    if k == 0 {
      ProductOne(x);
    } else {
      RaiseIs(k - 1, x);
      NextProduct(Exp(k - 1), x);
    }
  }

  lemma Join(j: nat, x: Gf, k: nat, y: Gf)
    requires Exp(j) == x && Exp(k) == y
    ensures Exp(j + k) == Product(x, y)
  {
    hide Raise, Product;
    RaiseMore(j, k, ONE);
    RaiseIs(j, Raise(k, ONE));
  }

  lemma ExpOne()
    ensures Exp(1) == Gf(1, 0)
  {
    assert Raise(0, ONE) == ONE;
  }

  lemma FirstPowers()
    ensures Exp(1) == Gf(1, 0) && Exp(4) == Gf(6, 14) && Exp(5) == Gf(17, 9) && Exp(8) == Gf(16, 25)
  {
    hide Exp;
    ExpOne();
    Join(1, Gf(1, 0), 1, Gf(1, 0));
    Join(2, Gf(9, 23), 2, Gf(9, 23));
    Join(4, Gf(6, 14), 1, Gf(1, 0));
    Join(4, Gf(6, 14), 4, Gf(6, 14));
  }

  lemma SmallPowers()
    ensures Exp(16) == Gf(21, 3) && Exp(32) == Gf(1, 9) && Exp(64) == Gf(9, 4)
  {
    hide Exp;
    FirstPowers();
    Join(8, Gf(16, 25), 8, Gf(16, 25));
    Join(16, Gf(21, 3), 16, Gf(21, 3));
    Join(32, Gf(1, 9), 32, Gf(1, 9));
  }

  /** e to the powers whose exponents are the largest proper divisors of 1023, and to the power of 1023. */
  lemma DivisorPowers()
    ensures Exp(33) == Gf(0, 23) && Exp(93) == Gf(26, 22) && Exp(341) == Gf(11, 13) && Exp(1023) == ONE
  {
    hide Exp;
    FirstPowers();
    SmallPowers();
    Join(32, Gf(1, 9), 1, Gf(1, 0));
    Join(8, Gf(16, 25), 5, Gf(17, 9));
    Join(16, Gf(21, 3), 13, Gf(11, 21));
    Join(64, Gf(9, 4), 29, Gf(3, 28));
    Join(16, Gf(21, 3), 5, Gf(17, 9));
    Join(64, Gf(9, 4), 21, Gf(29, 30));
    Join(64, Gf(9, 4), 64, Gf(9, 4));
    Join(128, Gf(6, 17), 128, Gf(6, 17));
    Join(256, Gf(16, 4), 85, Gf(12, 19));
    Join(341, Gf(11, 13), 341, Gf(11, 13));
    Join(341, Gf(11, 13), 682, Gf(11, 12));
  }

  /** The three consecutive powers of e that are roots of the generator polynomial. */
  lemma RootPowers()
    ensures Exp(997) == Gf(13, 29) && Exp(998) == Gf(3, 5) && Exp(999) == Gf(30, 16)
  {
    hide Exp;
    FirstPowers();
    SmallPowers();
    Join(32, Gf(1, 9), 5, Gf(17, 9));
    Join(64, Gf(9, 4), 37, Gf(9, 21));
    Join(64, Gf(9, 4), 64, Gf(9, 4));
    Join(128, Gf(6, 17), 101, Gf(18, 7));
    Join(128, Gf(6, 17), 128, Gf(6, 17));
    Join(256, Gf(16, 4), 229, Gf(24, 3));
    Join(256, Gf(16, 4), 256, Gf(16, 4));
    Join(512, Gf(21, 26), 485, Gf(9, 3));
    Join(1, Gf(1, 0), 997, Gf(13, 29));
    Join(1, Gf(1, 0), 998, Gf(3, 5));
  }

  // ---------------------------------------------------------------- the order of e

  lemma MulOne(x: bv5)
    ensures GfMul(1, x) == x && GfMul(x, 0) == 0
  {}

  /** Dividing by a number whose inverse is known. */
  lemma Solve(a: bv5, inverse: bv5, x: bv5)
    requires GfMul(inverse, a) == 1
    ensures x == GfMul(inverse, GfMul(a, x)) && (GfMul(a, x) == 0 ==> x == 0)
  {
    hide GfMul;
    MulOne(x);
    MulOne(inverse);
    MulAssoc(inverse, a, x);
  }

  lemma Move(a: bv5, b: bv5, c: bv5)
    ensures Plus(a, b) == c ==> a == Plus(b, c)
  {}

  lemma MulAddOne(q: bv5, x: bv5)
    ensures Plus(GfMul(q, x), x) == GfMul(Plus(q, 1), x)
  {
    hide GfMul, Plus;
    MulLeft(q, 1, x);
    MulOne(x);
  }

  /** A product with p * e + q has no fixed point but zero, if two numbers in GF(32) have inverses. */
  lemma Fixed(p: bv5, q: bv5, i: bv5, t: bv5, k: bv5, j: bv5, x: Gf)
    requires GfMul(i, Plus(q, 1)) == 1 && t == GfMul(i, GfMul(23, p))
    requires k == Plus(Plus(GfMul(9, p), GfMul(p, t)), Plus(q, 1)) && GfMul(j, k) == 1
    requires Product(Gf(p, q), x) == x
    ensures x == ZERO
  {
    hide GfMul, Plus;
    var high := GfMul(p, x.hi);
    Move(GfMul(23, high), GfMul(q, x.lo), x.lo);
    MulAddOne(q, x.lo);
    Solve(Plus(q, 1), i, x.lo);
    MulAssoc(23, p, x.hi);
    MulAssoc(i, GfMul(23, p), x.hi);
    assert x.lo == GfMul(t, x.hi);
    MulAssoc(9, p, x.hi);
    MulAssoc(p, t, x.hi);
    MulLeft(GfMul(9, p), GfMul(p, t), x.hi);
    var a := GfMul(Plus(GfMul(9, p), GfMul(p, t)), x.hi);
    PlusAssoc(GfMul(9, high), GfMul(p, x.lo), GfMul(q, x.hi));
    Move(a, GfMul(q, x.hi), x.hi);
    MulAddOne(q, x.hi);
    MulLeft(Plus(GfMul(9, p), GfMul(p, t)), Plus(q, 1), x.hi);
    PlusFacts(a);
    Solve(k, j, x.hi);
    MulOne(t);
  }

  lemma Fixed33(x: Gf)
    requires Product(Gf(0, 23), x) == x
    ensures x == ZERO
  {
    Fixed(0, 23, 16, 0, 22, 16, x);
  }

  lemma Fixed93(x: Gf)
    requires Product(Gf(26, 22), x) == x
    ensures x == ZERO
  {
    Fixed(26, 22, 19, 26, 14, 26, x);
  }

  lemma Fixed341(x: Gf)
    requires Product(Gf(11, 13), x) == x
    ensures x == ZERO
  {
    Fixed(11, 13, 6, 1, 6, 12, x);
  }

  lemma {:induction false} RaiseTimes(n: nat, k: nat, x: Gf)
    requires Raise(k, x) == x
    ensures Raise(n * k, x) == x
    decreases n
  {
    hide Raise;
    if n == 0 {
      assert Raise(0, x) == x by { RaiseNone(x); }
    } else {
      RaiseTimes(n - 1, k, x);
      RaiseMore((n - 1) * k, k, x);
      assert (n - 1) * k + k == n * k;
    }
  }

  lemma RaiseNone(x: Gf)
    ensures Raise(0, x) == x
  {}

  lemma PrimeRest(p: nat, r: nat)
    requires (p == 3 || p == 11 || p == 31) && 1 < r < p
    ensures p % r != 0
  {
    var c := p / r;
    if r > 5 {
      assert c <= 5;
    } else {
      assert r == 2 || r == 3 || r == 4 || r == 5;
    }
  }

  lemma DividesBack(q: nat, p: nat, r: nat)
    requires r > 0
    ensures q * (p % r) + (p / r) * (q * r) == q * p
  {
    assert p == p % r + (p / r) * r;
    assert q * ((p / r) * r) == (p / r) * (q * r);
  }

  /** From a multiple of q down to q, where q times the prime p is 1023. */
  lemma {:induction false} PeriodDown(x: Gf, q: nat, p: nat, r: nat)
    requires (p == 3 || p == 11 || p == 31) && q * p == 1023 && 1 <= r < p
    requires Raise(q * r, x) == x && Raise(1023, x) == x
    ensures Raise(q, x) == x
    decreases r
  {
    hide Raise;
    if r > 1 {
      PrimeRest(p, r);
      var c := p / r;
      RaiseTimes(c, q * r, x);
      DividesBack(q, p, r);
      RaiseMore(q * (p % r), c * (q * r), x);
      PeriodDown(x, q, p, p % r);
    }
  }

  lemma Divides(q: nat, p: nat, k: nat)
    requires p > 0 && q * p == 1023
    ensures q * k == q * (k % p) + (k / p) * 1023
  {
    assert k == k % p + (k / p) * p;
    assert q * ((k / p) * p) == (k / p) * (q * p);
  }

  lemma PeriodAt(x: Gf, q: nat, p: nat, k: nat)
    requires (p == 3 || p == 11 || p == 31) && q * p == 1023 && k % p != 0
    requires Raise(k, x) == x && Raise(1023, x) == x
    ensures Raise(q, x) == x
  {
    hide Raise;
    RaiseTimes(q, k, x);
    RaiseTimes(k / p, 1023, x);
    Divides(q, p, k);
    RaiseMore(q * (k % p), (k / p) * 1023, x);
    PeriodDown(x, q, p, k % p);
  }

  /** e is a primitive element: only zero is left in place by fewer than 1023 multiplications. */
  lemma Primitive(x: Gf, k: nat)
    requires 0 < k < 1023 && Raise(k, x) == x
    ensures x == ZERO
  {
    hide Raise, Exp, Product;
    DivisorPowers();
    RaiseIs(1023, x);
    ProductOne(x);
    if k % 31 != 0 {
      PeriodAt(x, 33, 31, k);
      RaiseIs(33, x);
      Fixed33(x);
    } else if k % 11 != 0 {
      PeriodAt(x, 93, 11, k);
      RaiseIs(93, x);
      Fixed93(x);
    } else {
      assert k % 3 != 0;
      PeriodAt(x, 341, 3, k);
      RaiseIs(341, x);
      Fixed341(x);
    }
  }

  lemma PowersDiffer(x: Gf, j: nat, k: nat)
    requires j < k < j + 1023 && Raise(j, x) == Raise(k, x)
    ensures x == ZERO
  {
    hide Raise;
    RaiseMore(k - j, j, x);
    Primitive(Raise(j, x), k - j);
    RaiseZero(j, x);
  }
}
