/** `base_uint`: unsigned integers of fixed width in an array of 32-bit limbs, changed in place. Each
    operation is proved to compute integer arithmetic modulo the width. */
module ArithUint {
  import opened Arith
  import opened Limbs
  import opened Shifts

  ghost function Val(pn: array<Limb>): nat
    reads pn
  {
    Value(pn[..])
  }

  /** One more than the largest number of this width. */
  ghost function Modulus(pn: array<Limb>): nat {
    P(pn.Length)
  }

  method Zero(width: nat) returns (r: array<Limb>)
    ensures fresh(r) && r.Length == width && Val(r) == 0
  {
    r := new Limb[width](_ => 0);
    ValueZero(r[..]);
  }

  method Copy(b: array<Limb>) returns (r: array<Limb>)
    ensures fresh(r) && r.Length == b.Length && r[..] == b[..]
  {
    r := new Limb[b.Length](i requires 0 <= i < b.Length reads b => b[i]);
    assert r[..] == b[..];
  }

  /** Assignment of a 64-bit number. */
  method FromU64(width: nat, b: nat) returns (r: array<Limb>)
    requires width >= 2 && b < BASE * BASE
    ensures fresh(r) && r.Length == width && Val(r) == b
  {
    r := new Limb[width](_ => 0);
    r[0] := b % BASE;
    r[1] := b / BASE;
    ValueSplit(r[..], 2);
    ValueZero(r[..][2..]);
    assert r[..][..2] == [r[0]] + [r[1]];
    ValueSnoc([], r[0]);
    ValueSnoc([r[0]], r[1]);
    assert [] + [r[0]] == [r[0]];
    assert P(1) == BASE && P(0) == 1;
  }

  // ---------------------------------------------------------------- complement, increment, negation

  /** operator~ */
  method Complement(pn: array<Limb>) returns (r: array<Limb>)
    ensures fresh(r) && r.Length == pn.Length && Val(r) == Modulus(pn) - 1 - Val(pn)
  {
    hide Value, P, Mod;
    r := new Limb[pn.Length](_ => 0);
    ghost var b := pn[..];
    var i := 0;
    NoLimbs(r[..]);
    NoLimbs(b);
    while i < pn.Length
      invariant i <= pn.Length && Value(r[..][..i]) + Value(b[..i]) + 1 == P(i)
    {
      PutLimb(r[..], i, BASE - 1 - b[i]);
      PutLimb(b, i, b[i]);
      ComplementStep(b[i], i);
      assert b[i := b[i]] == b;
      r[i] := BASE - 1 - pn[i];
      i := i + 1;
    }
    assert r[..][..i] == r[..] && b[..i] == b;
  }

  lemma NoLimbs(s: seq<Limb>)
    ensures Value(s[..0]) == 0 && P(0) == 1
  {}

  /** Adds one, rippling through limbs that wrap to zero. */
  method Increment(pn: array<Limb>)
    modifies pn
    ensures Val(pn) == Mod(old(Val(pn)) + 1, Modulus(pn))
  {
    hide Value, P, Mod;
    ghost var was := pn[..];
    var i := 0;
    var carrying := true;
    NoLimbs(was);
    while i < pn.Length && carrying
      invariant i <= pn.Length
      invariant Value(pn[..][..i]) + (if carrying then P(i) else 0) == Value(was[..i]) + 1
      invariant pn[..][i..] == was[i..]
      decreases pn.Length - i
    {
      assert pn[..][i..][0] == was[i..][0];
      var x := if pn[i] == BASE - 1 then 0 else pn[i] + 1;
      PutLimb(pn[..], i, x);
      PutLimb(was, i, was[i]);
      IncrementStep(was[i], i);
      assert was[i := was[i]] == was;
      assert pn[..][i + 1..] == pn[..][i..][1..] == was[i..][1..] == was[i + 1..];
      assert x * P(i) == if x == 0 then 0 else was[i] * P(i) + P(i);
      pn[i] := x;
      carrying := x == 0;
      i := i + 1;
    }
    Wrapped(pn[..], was, 1, i, if carrying then 1 else 0);
  }

  /** Subtracts one, rippling through limbs that wrap to the top. */
  method Decrement(pn: array<Limb>)
    modifies pn
    ensures Val(pn) == Mod(old(Val(pn)) - 1, Modulus(pn))
  {
    hide Value, P, Mod;
    ghost var was := pn[..];
    var i := 0;
    var borrowing := true;
    NoLimbs(was);
    while i < pn.Length && borrowing
      invariant i <= pn.Length
      invariant Value(pn[..][..i]) + 1 == Value(was[..i]) + if borrowing then P(i) else 0
      invariant pn[..][i..] == was[i..]
      decreases pn.Length - i
    {
      assert pn[..][i..][0] == was[i..][0];
      var x := if pn[i] == 0 then BASE - 1 else pn[i] - 1;
      PutLimb(pn[..], i, x);
      PutLimb(was, i, was[i]);
      IncrementStep(x, i);
      assert was[i := was[i]] == was;
      assert pn[..][i + 1..] == pn[..][i..][1..] == was[i..][1..] == was[i + 1..];
      assert was[i] * P(i) == if was[i] == 0 then 0 else x * P(i) + P(i);
      pn[i] := x;
      borrowing := x == BASE - 1;
      i := i + 1;
    }
    Borrowed(pn[..], was, i, borrowing);
  }

  lemma {:induction false} Borrowed(now: seq<Limb>, was: seq<Limb>, i: nat, borrowing: bool)
    requires |now| == |was| && i <= |now| && now[i..] == was[i..]
    requires Value(now[..i]) + 1 == Value(was[..i]) + (if borrowing then P(i) else 0) && (borrowing ==> i == |now|)
    ensures Value(now) == Mod(Value(was) - 1, P(|now|))
  {
    hide Value, P, Mod;
    if borrowing {
      ValueAll(now, i);
      ValueAll(was, i);
      BorrowedAll(now, was);
    } else {
      SameTop(now, was, i);
      BorrowedNone(now, Value(was));
    }
  }

  lemma {:induction false} BorrowedAll(now: seq<Limb>, was: seq<Limb>)
    requires Value(now) + 1 == Value(was) + P(|now|)
    ensures Value(now) == Mod(Value(was) - 1, P(|now|))
  {
    hide Value, P, Mod;
    ValueBound(now);
    ModMinusOne(P(|now|));
  }

  lemma {:induction false} BorrowedNone(now: seq<Limb>, was: nat)
    requires Value(now) + 1 == was
    ensures Value(now) == Mod(was - 1, P(|now|))
  {
    hide Value, P, Mod;
    ValueBound(now);
    ModSmall(was - 1, P(|now|));
  }

  lemma ModMinusOne(m: nat)
    requires m > 0
    ensures Mod(-1, m) == m - 1
  {}

  /** operator- : complement, then add one. */
  method Negate(pn: array<Limb>) returns (r: array<Limb>)
    ensures fresh(r) && r.Length == pn.Length && Val(r) == Mod(Modulus(pn) - Val(pn), Modulus(pn))
  {
    r := Complement(pn);
    Increment(r);
  }

  // ---------------------------------------------------------------- addition, subtraction

  /** operator+= ; `b` may be `pn` itself. */
  method AddAssign(pn: array<Limb>, b: array<Limb>)
    requires b.Length == pn.Length
    modifies pn
    ensures Val(pn) == Mod(old(Val(pn)) + old(Val(b)), Modulus(pn))
  {
    hide Value, P, Mod;
    ghost var was, add := pn[..], b[..];
    var carry := 0;
    var i := 0;
    NoLimbs(was);
    NoLimbs(add);
    while i < pn.Length
      invariant i <= pn.Length && 0 <= carry <= 1
      invariant Value(pn[..][..i]) + carry * P(i) == Value(was[..i]) + Value(add[..i])
      invariant forall j | i <= j < pn.Length :: pn[j] == was[j] && b[j] == add[j]
    {
      var n := carry + pn[i] + b[i];
      PutLimb(pn[..], i, n % BASE);
      PutLimb(was, i, was[i]);
      PutLimb(add, i, add[i]);
      assert was[i := was[i]] == was && add[i := add[i]] == add;
      CarryStep(n, i);
      AddStep(n, carry, was[i], add[i], P(i));
      pn[i] := n % BASE;
      carry := n / BASE;
      i := i + 1;
    }
    assert was[..i] == was && add[..i] == add && pn[..][i..] == was[i..] == [];
    Wrapped(pn[..], was, Value(add), i, carry);
  }

  lemma AddStep(n: nat, c: nat, x: nat, y: nat, p: nat)
    requires n == c + x + y
    ensures n * p == c * p + x * p + y * p
  {}

  /** operator-= : adds the negation. */
  method SubAssign(pn: array<Limb>, b: array<Limb>)
    requires b.Length == pn.Length
    modifies pn
    ensures Val(pn) == Mod(old(Val(pn)) - old(Val(b)), Modulus(pn))
  {
    var m := Negate(b);
    AddAssign(pn, m);
    ValueBound(old(b[..]));
    SubMod(old(Val(pn)), old(Val(b)), Modulus(pn));
  }

  lemma SubMod(x: nat, y: nat, m: nat)
    requires y < m
    ensures Mod(x + Mod(m - y, m), m) == Mod(x - y, m)
  {
    if y == 0 {
      assert (m - y) % m == 0;
    } else {
      assert (m - y) % m == m - y;
      var q, r := (x - y) / m, (x - y) % m;
      assert x - y == m * q + r;
      assert x + (m - y) == (q + 1) * m + r;
      if q + 1 >= 0 { DivModUnique(x + (m - y), m, q + 1, r); }
      else { MulLe(1, -(q + 1), m); }
    }
  }

  // ---------------------------------------------------------------- multiplication

  /** The inner invariant of schoolbook multiplication: `i` limbs of the factor `v` are done. */
  ghost predicate Partial(now: nat, carry: nat, was: nat, x: Limb, i: nat, j: nat, v: nat) {
    now + carry * P(i + j) == was + x * (P(j) * v)
  }

  lemma PartialStart(was: nat, x: Limb, j: nat)
    ensures Partial(was, 0, was, x, 0, j, 0)
  {}

  lemma PartialStep(now: nat, carry: nat, was: nat, a: Limb, x: Limb, y: Limb, i: nat, j: nat, v: nat)
    requires Partial(now, carry, was, x, i, j, v)
    ensures var n := carry + a + x * y;
      Partial(now + (n % BASE) * P(i + j), n / BASE, was + a * P(i + j), x, i + 1, j, v + y * P(i))
  {
    hide P;
    var n, p, q := carry + a + x * y, P(i + j), P(i + j + 1);
    CarryStep(n, i + j);
    ProductStep(n, carry, a, x, y, j, i, v);
    Combine(now, carry * p, was, x * (P(j) * v), n * p, (n % BASE) * p, (n / BASE) * q, a * p, (x * y) * p);
    assert i + 1 + j == i + j + 1;
  }

  lemma Combine(now: int, c: int, was: int, xv: int, np: int, lo: int, hi: int, ap: int, xyp: int)
    requires now + c == was + xv && lo + hi == np && np == c + ap + xyp
    ensures (now + lo) + hi == (was + ap) + (xv + xyp)
  {}

  /** One step of schoolbook multiplication by the limb `b`. */
  lemma MulStep(n: nat, carry: nat, a: nat, b: Limb, x: Limb, p: nat, v: nat)
    requires n == carry + a + b * x
    ensures n * p == carry * p + a * p + b * (x * p)
    ensures b * (v + x * p) == b * v + b * (x * p)
  {
    Assoc(b, x, p);
    assert (carry + a + b * x) * p == carry * p + a * p + (b * x) * p;
  }

  lemma CarryFits(carry: nat, a: Limb, b: Limb, x: Limb)
    requires carry < BASE
    ensures 0 <= (carry + a + b * x) / BASE < BASE
  {
    MulLe(b, BASE - 1, x);
    assert b * x <= (BASE - 1) * (BASE - 1);
    QuotientFits(carry + a + b * x);
  }

  lemma QuotientFits(n: nat)
    requires n < BASE * BASE
    ensures n / BASE < BASE
  {}

  /** operator*= by a 32-bit number. */
  method MulU32(pn: array<Limb>, b: Limb)
    modifies pn
    ensures Val(pn) == Mod(b * old(Val(pn)), Modulus(pn))
  {
    hide Value, P, Mod;
    ghost var was := pn[..];
    var carry := 0;
    var i := 0;
    NoLimbs(was);
    while i < pn.Length
      invariant i <= pn.Length && 0 <= carry < BASE
      invariant Value(pn[..][..i]) + carry * P(i) == b * Value(was[..i])
      invariant forall j | i <= j < pn.Length :: pn[j] == was[j]
    {
      var n := carry + b * pn[i];
      PutLimb(pn[..], i, n % BASE);
      PutLimb(was, i, was[i]);
      assert was[i := was[i]] == was;
      CarryStep(n, i);
      MulStep(n, carry, 0, b, was[i], P(i), Value(was[..i]));
      CarryFits(carry, 0, b, was[i]);
      pn[i] := n % BASE;
      carry := n / BASE;
      i := i + 1;
    }
    assert was[..i] == was && pn[..][..i] == pn[..];
    ValueBound(pn[..]);
    ModIs(b * Value(was), Modulus(pn), carry, Value(pn[..]));
  }

  /** Adds `x` times the number `b` to `a`, starting at limb `j`; what overflows at the top is lost. */
  method AddShiftedProduct(a: array<Limb>, x: Limb, b: array<Limb>, j: nat) returns (ghost over: nat)
    requires a.Length == b.Length && j < a.Length && a != b
    modifies a
    ensures Val(a) + over * Modulus(a) == old(Val(a)) + x * P(j) * Val(b)
  {
    hide Value, P, Partial;
    ghost var was, bs := a[..], b[..];
    var carry := 0;
    var i := 0;
    NoLimbs(bs);
    PartialStart(Value(was[..j]), x, j);
    while i + j < a.Length
      invariant i + j <= a.Length && 0 <= carry < BASE && b[..] == bs
      invariant Partial(Value(a[..][..i + j]), carry, Value(was[..i + j]), x, i, j, Value(bs[..i]))
      invariant forall k | i + j <= k < a.Length :: a[k] == was[k]
    {
      var n := carry + a[i + j] + x * b[i];
      PutLimb(a[..], i + j, n % BASE);
      PutLimb(was, i + j, was[i + j]);
      PutLimb(bs, i, bs[i]);
      assert was[i + j := was[i + j]] == was && bs[i := bs[i]] == bs;
      PartialStep(Value(a[..][..i + j]), carry, Value(was[..i + j]), was[i + j], x, bs[i], i, j, Value(bs[..i]));
      CarryFits(carry, was[i + j], x, bs[i]);
      a[i + j] := n % BASE;
      carry := n / BASE;
      i := i + 1;
    }
    assert was[..i + j] == was && a[..][..i + j] == a[..];
    over := LostAtTop(Value(a[..]), Value(was), carry, x, bs, i, j);
  }

  lemma Spread(a: int, b: int, c: int, p: int)
    ensures (a + b + c) * p == a * p + b * p + c * p
  {}

  lemma SpreadProduct(x: int, y: int, v: int, pi: int, pj: int)
    ensures x * (pj * (v + y * pi)) == x * (pj * v) + (x * y) * (pi * pj)
  {}

  lemma ProductStep(n: nat, carry: nat, a: Limb, x: Limb, y: Limb, j: nat, i: nat, v: nat)
    requires n == carry + a + x * y
    ensures n * P(i + j) == carry * P(i + j) + a * P(i + j) + (x * y) * P(i + j)
    ensures x * (P(j) * (v + y * P(i))) == x * (P(j) * v) + (x * y) * P(i + j)
  {
    PAdd(i, j);
    hide P;
    Spread(carry, a, x * y, P(i + j));
    SpreadProduct(x, y, v, P(i), P(j));
  }

  lemma SpreadLost(x: int, pj: int, low: int, pi: int, high: int)
    ensures x * pj * (low + pi * high) == x * (pj * low) + x * high * (pi * pj)
  {}

  /** The limbs of `b` that do not fit are multiples of the modulus. */
  lemma LostAtTop(now: nat, was: nat, carry: nat, x: Limb, bs: seq<Limb>, i: nat, j: nat) returns (over: nat)
    requires i + j == |bs| && Partial(now, carry, was, x, i, j, Value(bs[..i]))
    ensures now + over * P(|bs|) == was + x * P(j) * Value(bs)
  {
    hide P, Value;
    var high := Value(bs[i..]);
    ValueSplit(bs, i);
    PAdd(i, j);
    over := carry + x * high;
    SpreadLost(x, P(j), Value(bs[..i]), P(i), high);
    Spread(carry, x * high, 0, P(i + j));
  }

  /** operator*= ; `b` may be `pn` itself. */
  method MulAssign(pn: array<Limb>, b: array<Limb>)
    requires b.Length == pn.Length
    modifies pn
    ensures Val(pn) == Mod(old(Val(pn)) * old(Val(b)), Modulus(pn))
  {
    hide Value, P, Mod;
    var a := Zero(pn.Length);
    ghost var was, bs, over := pn[..], b[..], 0;
    NoLimbs(was);
    var j := 0;
    while j < pn.Length
      invariant j <= pn.Length && 0 <= over && pn[..] == was && b[..] == bs
      invariant Val(a) + over * Modulus(pn) == Value(was[..j]) * Value(bs)
    {
      PutLimb(was, j, was[j]);
      assert was[j := was[j]] == was;
      Spread(Value(was[..j]), was[j] * P(j), 0, Value(bs));
      ghost var o := AddShiftedProduct(a, pn[j], b, j);
      Spread(over, o, 0, Modulus(pn));
      over := over + o;
      j := j + 1;
    }
    assert was[..j] == was;
    ValueBound(a[..]);
    ModIs(Value(was) * Value(bs), Modulus(pn), over, Val(a));
    ghost var product := a[..];
    forall i | 0 <= i < pn.Length {
      pn[i] := a[i];
    }
    assert pn[..] == product;
  }

  // ---------------------------------------------------------------- comparison, length

  /** CompareTo: the sign of the difference. */
  method CompareTo(pn: array<Limb>, b: array<Limb>) returns (r: int)
    requires b.Length == pn.Length
    ensures r == if Val(pn) < Val(b) then -1 else if Val(pn) > Val(b) then 1 else 0
  {
    hide Value, P, Mod;
    var i := pn.Length;
    assert pn[..][..i] == pn[..] && b[..][..i] == b[..];
    while i > 0
      invariant 0 <= i <= pn.Length && pn[..][i..] == b[..][i..]
    {
      i := i - 1;
      SameTop(pn[..], b[..], i + 1);
      if pn[i] < b[i] {
        HigherLimb(pn[..], b[..], i);
        return -1;
      }
      if pn[i] > b[i] {
        HigherLimb(b[..], pn[..], i);
        return 1;
      }
    }
    assert pn[..] == pn[..][0..] == b[..][0..] == b[..];
    return 0;
  }

  /** The highest differing limb decides. */
  lemma HigherLimb(s: seq<Limb>, t: seq<Limb>, i: nat)
    requires i < |s| == |t| && s[i] < t[i] && s[i + 1..] == t[i + 1..]
    ensures Value(s) < Value(t)
  {
    SameTop(s, t, i + 1);
    ValueTake(s, i);
    ValueTake(t, i);
    ValueBound(s[..i]);
    MulLt(s[i], t[i], P(i));
  }

  /** The position of the highest set bit plus one, or zero. */
  method Bits(pn: array<Limb>) returns (r: nat)
    ensures r == 0 <==> Val(pn) == 0
    ensures r > 0 ==> Pow2(r - 1) <= Val(pn) < Pow2(r)
    ensures r <= 32 * pn.Length
  {
    hide Value, P, Mod;
    var pos := pn.Length;
    while pos > 0
      invariant 0 <= pos <= pn.Length && forall j | pos <= j < pn.Length :: pn[j] == 0
    {
      pos := pos - 1;
      if pn[pos] != 0 {
        var nbits := 31;
        Pow2Of32();
        while nbits > 0
          invariant 0 <= nbits <= 31 && pn[pos] < Pow2(nbits + 1)
        {
          TopBit(pn[pos], nbits);
          if Bit(pn[pos], nbits) {
            TopLimb(pn[..], pos, nbits);
            return 32 * pos + nbits + 1;
          }
          nbits := nbits - 1;
        }
        TopLimb(pn[..], pos, 0);
        return 32 * pos + 1;
      }
    }
    ValueZero(pn[..]);
    return 0;
  }

  lemma TopBit(x: nat, n: nat)
    requires x < Pow2(n + 1)
    ensures Bit(x, n) <==> Pow2(n) <= x
  {
    var p := Pow2(n);
    DivModIs(x, p);
    if x < p { ModSmall(x, p); DivModUnique(x, p, 0, x); } else { DivModUnique(x, p, 1, x - p); }
  }

  /** Where the highest limb and its highest bit put the number. */
  lemma TopLimb(s: seq<Limb>, pos: nat, n: nat)
    requires pos < |s| && Pow2(n) <= s[pos] < Pow2(n + 1) && forall j | pos < j < |s| :: s[j] == 0
    ensures Pow2(32 * pos + n) <= Value(s) < Pow2(32 * pos + n + 1) && Value(s) > 0
  {
    hide Value, P, Pow2;
    ValueSplit(s, pos + 1);
    ValueZero(s[pos + 1..]);
    ZeroTimes(P(pos + 1));
    ValueTake(s, pos);
    ValueBound(s[..pos]);
    PIs(pos);
    Pow2Add(32 * pos, n);
    Pow2Add(32 * pos, n + 1);
    Between(Value(s[..pos]), s[pos], P(pos), Pow2(n), Pow2(n + 1));
  }

  lemma Between(low: nat, x: nat, p: nat, a: nat, b: nat)
    requires low < p && a <= x < b && a > 0
    ensures 0 < p * a <= low + x * p < p * b
  {
    MulLe(a, x, p);
    MulLt(x, b, p);
    MulLe(1, a, p);
  }

  // ---------------------------------------------------------------- shifts

  method SetZero(pn: array<Limb>)
    modifies pn
    ensures forall j | 0 <= j < pn.Length :: pn[j] == 0
    ensures Val(pn) == 0
  {
    forall i | 0 <= i < pn.Length {
      pn[i] := 0;
    }
    ValueZero(pn[..]);
  }

  lemma NothingAbove(x: Limb)
    ensures ShiftedDown(x, 32) == 0
  {
    Pow2Of32();
    ZeroTimes(BASE);
    DivIs(x, BASE, 0, x);
  }

  /** operator<<= */
  method ShiftLeft(pn: array<Limb>, shift: nat)
    modifies pn
    ensures Val(pn) == Mod(old(Val(pn)) * Pow2(shift), Modulus(pn))
  {
    hide Value, P, Pow2, Mod, ShiftedUp, ShiftedDown, Or, LeftLimb, Pending;
    var a := Copy(pn);
    ghost var w := a[..];
    SetZero(pn);
    var k, s := shift / 32, shift % 32;
    var i := 0;
    forall j | 0 <= j < pn.Length ensures LeftLimb(w, k, s, 0, j) == 0 { LeftLimbNone(w, k, s, j); }
    while i < pn.Length
      invariant i <= pn.Length && a[..] == w
      invariant forall j | 0 <= j < pn.Length :: pn[j] == LeftLimb(w, k, s, i, j)
    {
      OrZero(ShiftedDown(w[i], 32 - s));
      NothingAbove(w[i]);
      PendingSmall(w, s, i);
      OrParts(Pending(w, s, i), w[i], s);
      LeftLimbNext(w, k, s, i);
      if i + k + 1 < pn.Length && s != 0 {
        pn[i + k + 1] := Or(pn[i + k + 1], ShiftedDown(a[i], 32 - s));
      }
      if i + k < pn.Length {
        pn[i + k] := Or(pn[i + k], ShiftedUp(a[i], s));
      }
      i := i + 1;
    }
    LeftValue(pn[..], w, k, s);
  }

  lemma OrZero(x: nat)
    ensures Or(0, x) == x
  {}

  lemma LeftLimbNone(a: seq<Limb>, k: nat, s: nat, j: nat)
    requires s < 32
    ensures LeftLimb(a, k, s, 0, j) == 0
  {}

  lemma PendingSmall(a: seq<Limb>, s: nat, n: nat)
    requires n <= |a| && s < 32
    ensures Pending(a, s, n) < Pow2(s)
  {
    if n > 0 { LeftParts(a[n - 1], s); }
  }

  /** operator>>= */
  method ShiftRight(pn: array<Limb>, shift: nat)
    modifies pn
    ensures Val(pn) == Div(old(Val(pn)), Pow2(shift))
  {
    hide Value, P, Pow2, Div, ShiftedUp, ShiftedDown, Or;
    var a := Copy(pn);
    ghost var w := a[..];
    SetZero(pn);
    var k, s := shift / 32, shift % 32;
    var i := 0;
    while i < pn.Length
      invariant i <= pn.Length && a[..] == w
      invariant forall j | 0 <= j < pn.Length :: pn[j] == RightLimb(w, k, s, i, j)
    {
      OrZero(ShiftedDown(w[i], s));
      if i > 0 {
        RightParts(w[i - 1], s);
        OrParts(ShiftedDown(w[i - 1], s), w[i], 32 - s);
      }
      NoShift(w[i]);
      if i - k - 1 >= 0 && s != 0 {
        pn[i - k - 1] := Or(pn[i - k - 1], ShiftedUp(a[i], 32 - s));
      }
      if i - k >= 0 {
        pn[i - k] := Or(pn[i - k], ShiftedDown(a[i], s));
      }
      i := i + 1;
    }
    RightValue(pn[..], w, k, s);
  }

  lemma NoShift(x: Limb)
    ensures ShiftedUp(x, 32) == 0
  {
    Pow2Of32();
  }

  // ---------------------------------------------------------------- division

  /** The lowest `h` bits of the number are zero. */
  ghost predicate LowZero(q: seq<Limb>, h: nat) {
    && (forall j | 0 <= j < |q| && j < h / 32 :: q[j] == 0)
    && (h / 32 < |q| ==> q[h / 32] % Pow2(h % 32) == 0)
  }

  lemma LowZeroLess(q: seq<Limb>, h: nat)
    requires LowZero(q, h + 1) && h < 32 * |q|
    ensures LowZero(q, h) && q[h / 32] % Pow2(h % 32 + 1) == 0
  {
    var k, s := h / 32, h % 32;
    if s == 31 {
      assert (h + 1) / 32 == k + 1;
    } else {
      assert (h + 1) / 32 == k && (h + 1) % 32 == s + 1;
    }
    EvenMod(q[k], s);
  }

  lemma EvenMod(x: nat, s: nat)
    requires x % Pow2(s + 1) == 0
    ensures x % Pow2(s) == 0
  {
    var p, q := Pow2(s), x / Pow2(s + 1);
    DivModIs(x, 2 * p);
    Assoc(q, 2, p);
    DivModUnique(x, p, 2 * q, 0);
  }

  /** A multiple of `2^(s+1)` below the base leaves room for bit `s`. */
  lemma RoomForBit(x: Limb, s: nat)
    requires s < 32 && x % Pow2(s + 1) == 0
    ensures Or(x, Pow2(s)) == x + Pow2(s) < BASE
    ensures (x + Pow2(s)) % Pow2(s) == 0
  {
    assert Pow2(s + 1) == 2 * Pow2(s);
    OrDisjoint(x, Pow2(s), s + 1);
    Halves(s + 1);
    EvenMod(x, s);
    hide Pow2, Or;
    MultipleRoom(x, Pow2(s + 1), Pow2(32 - (s + 1)));
    AddOneMultiple(x, Pow2(s));
  }

  lemma MultipleRoom(x: nat, p: nat, t: nat)
    requires p > 0 && p * t == BASE && x < BASE && x % p == 0
    ensures x + p <= BASE
  {
    var q := x / p;
    DivModIs(x, p);
    if q >= t { MulLe(t, q, p); }
    MulLt(q, t, p);
  }

  lemma AddOneMultiple(x: nat, p: nat)
    requires p > 0 && x % p == 0
    ensures (x + p) % p == 0
  {
    DivModIs(x, p);
    DivModUnique(x + p, p, x / p + 1, 0);
  }

  lemma PutAnywhere(q: seq<Limb>, k: nat, x: Limb)
    requires k < |q|
    ensures Value(q[k := x]) + q[k] * P(k) == Value(q) + x * P(k)
  {
    var r := q[k := x];
    ValueTake(q, k);
    ValueTake(r, k);
    assert r[..k] == q[..k] && r[k + 1..] == q[k + 1..];
    SameTop(r, q, k + 1);
  }

  /** Setting bit `h` of the quotient. */
  lemma SetBit(q: seq<Limb>, h: nat)
    requires LowZero(q, h + 1) && h < 32 * |q|
    ensures var x := Or(q[h / 32], Pow2(h % 32));
      x < BASE && Value(q[h / 32 := x]) == Value(q) + Pow2(h) && LowZero(q[h / 32 := x], h)
  {
    hide Value, P, Pow2, Or;
    var k, s := h / 32, h % 32;
    LowZeroLess(q, h);
    RoomForBit(q[k], s);
    PutAnywhere(q, k, q[k] + Pow2(s));
    Distribute(q[k], Pow2(s), P(k));
    PIs(k);
    Pow2Add(s, 32 * k);
    assert h == s + 32 * k;
  }

  /** `q` times the divisor plus what is left is the numerator, and less than `2^h` divisors are left. */
  ghost predicate Dividing(n0: nat, d: nat, q: nat, num: nat, h: nat) {
    n0 == q * d + num && num < d * Pow2(h)
  }

  lemma DividingStart(n0: nat, d: nat, numBits: nat, divBits: nat)
    requires 0 < divBits <= numBits && Pow2(divBits - 1) <= d < Pow2(divBits) && n0 < Pow2(numBits)
    ensures Dividing(n0, d, 0, n0, numBits - divBits + 1)
    ensures d * Pow2(numBits - divBits) < Pow2(numBits)
  {
    var sh := numBits - divBits;
    Pow2Add(divBits - 1, sh + 1);
    Pow2Add(divBits, sh);
    MulLe(Pow2(divBits - 1), d, Pow2(sh + 1));
    MulLt(d, Pow2(divBits), Pow2(sh));
    ZeroTimes(d);
  }

  /** A shifted divisor that fits is taken off once; one that does not fit is skipped. */
  lemma DividingStep(n0: nat, d: nat, q: nat, num: nat, h: nat)
    requires Dividing(n0, d, q, num, h + 1)
    ensures num >= d * Pow2(h) ==> Dividing(n0, d, q + Pow2(h), num - d * Pow2(h), h)
    ensures num < d * Pow2(h) ==> Dividing(n0, d, q, num, h)
  {
    Distribute(q, Pow2(h), d);
    Assoc(d, 2, Pow2(h));
  }

  lemma DividingEnd(n0: nat, d: nat, q: nat, num: nat)
    requires Dividing(n0, d, q, num, 0)
    ensures d > 0 && q == Div(n0, d)
  {
    DivIs(n0, d, q, num);
  }

  lemma HalveDivisor(d: nat, h: nat)
    requires h > 0
    ensures Div(d * Pow2(h), Pow2(1)) == d * Pow2(h - 1)
  {
    assert Pow2(1) == 2;
    Assoc(d, 2, Pow2(h - 1));
    DivIs(d * Pow2(h), 2, d * Pow2(h - 1), 0);
  }

  /** One bit of the quotient: subtracts the shifted divisor if it fits. */
  method DivideBit(pn: array<Limb>, num: array<Limb>, div: array<Limb>, shift: nat, ghost n0: nat, ghost d: nat)
    requires pn.Length == num.Length == div.Length && shift < 32 * pn.Length && pn != num && pn != div && num != div
        && d > 0
    requires Val(div) == d * Pow2(shift) && Dividing(n0, d, Val(pn), Val(num), shift + 1) && LowZero(pn[..], shift + 1)
    modifies pn, num
    ensures Dividing(n0, d, Val(pn), Val(num), shift) && LowZero(pn[..], shift)
  {
    hide Value, P, Pow2, Div, Mod, Or, Dividing, LowZero;
    DividingStep(n0, d, Val(pn), Val(num), shift);
    LowZeroLess(pn[..], shift);
    var c := CompareTo(num, div);
    if c >= 0 {
      SetBit(pn[..], shift);
      ValueBound(num[..]);
      ModSmall(Val(num) - Val(div), Modulus(num));
      SubAssign(num, div);
      ghost var before := pn[..];
      var k := shift / 32;
      pn[k] := Or(pn[k], Pow2(shift % 32));
      assert pn[..] == before[k := Or(before[k], Pow2(shift % 32))];
    }
  }

  /** operator/= ; returns false for the division-by-zero error. `b` may be `pn` itself. */
  method DivAssign(pn: array<Limb>, b: array<Limb>) returns (ok: bool)
    requires b.Length == pn.Length
    modifies pn
    ensures ok <==> old(Val(b)) != 0
    ensures Val(pn) == if ok then Div(old(Val(pn)), old(Val(b))) else 0
  {
    hide Value, P, Pow2, Div, Mod, Or, Dividing, LowZero;
    ghost var n0, d := Val(pn), Val(b);
    var div := Copy(b);
    var num := Copy(pn);
    SetZero(pn);
    var numBits := Bits(num);
    var divBits := Bits(div);
    if divBits == 0 {
      return false;
    }
    if divBits > numBits {
      TooSmall(n0, d, numBits, divBits);
      return true;
    }
    DividingStart(n0, d, numBits, divBits);
    var shift := numBits - divBits;
    ShiftLeft(div, shift);
    ModulusIs(pn.Length, numBits);
    ModSmall(d * Pow2(shift), Modulus(pn));
    LowZeroStart(pn[..], shift + 1);
    while shift >= 0
      invariant -1 <= shift < 32 * pn.Length
      invariant shift >= 0 ==> Val(div) == d * Pow2(shift)
      invariant Dividing(n0, d, Val(pn), Val(num), shift + 1)
      invariant LowZero(pn[..], shift + 1)
      decreases shift
    {
      DivideBit(pn, num, div, shift, n0, d);
      if shift > 0 { HalveDivisor(d, shift); }
      ShiftRight(div, 1);
      shift := shift - 1;
    }
    DividingEnd(n0, d, Val(pn), Val(num));
    return true;
  }

  lemma TooSmall(n0: nat, d: nat, numBits: nat, divBits: nat)
    requires divBits > numBits && Pow2(divBits - 1) <= d && (numBits == 0 ==> n0 == 0)
        && (numBits > 0 ==> n0 < Pow2(numBits))
    ensures d > 0 && Div(n0, d) == 0
  {
    Pow2Mono(numBits, divBits - 1);
    ZeroTimes(d);
    DivIs(n0, d, 0, n0);
  }

  lemma ModulusIs(width: nat, bits: nat)
    requires bits <= 32 * width
    ensures Pow2(bits) <= P(width)
  {
    PIs(width);
    Pow2Mono(bits, 32 * width);
  }

  lemma LowZeroStart(q: seq<Limb>, h: nat)
    requires forall j | 0 <= j < |q| :: q[j] == 0
    ensures LowZero(q, h)
  {
    ZeroMod(Pow2(h % 32));
    hide Pow2;
  }

  lemma ZeroMod(p: nat)
    requires p > 0
    ensures 0 % p == 0
  {}
}
