/** Limb shifts: what the parts of each limb that cross a limb border add up to. */
module Shifts {
  import opened Arith
  import opened Limbs

  /** `x << s` in 32 bits. */
  function ShiftedUp(x: Limb, s: nat): Limb {
    (x * Pow2(s)) % BASE
  }

  /** `x >> s`. */
  function ShiftedDown(x: Limb, s: nat): Limb {
    Div(x, Pow2(s))
  }

  lemma {:induction false} OrComm(a: nat, b: nat)
    ensures Or(a, b) == Or(b, a)
    decreases a + b
  {
    if a > 0 && b > 0 { OrComm(a / 2, b / 2); }
  }

  lemma SplitUp(x: int, q: int, r: int, sp: int, tp: int)
    requires x == q * tp + r && sp * tp == BASE
    ensures x * sp == q * BASE + r * sp
  {
    Assoc(q, tp, sp);
    Distribute(q * tp, r, sp);
  }

  /** With `sp * tp` the base: shifting up by `sp` keeps the remainder by `tp`. */
  lemma UpParts(x: Limb, sp: nat, tp: nat)
    requires sp > 0 && tp > 0 && sp * tp == BASE
    ensures (x * sp) % BASE == (x % tp) * sp
    ensures x * sp == (x % tp) * sp + (x / tp) * BASE
    ensures x / tp < sp
  {
    var q, r := x / tp, x % tp;
    DivModIs(x, tp);
    SplitUp(x, q, r, sp, tp);
    assert r * sp < BASE by { MulLt(r, tp, sp); }
    DivModUnique(x * sp, BASE, q, r * sp);
    if q >= sp { MulLe(sp, q, tp); }
  }

  lemma Halves(s: nat)
    requires s <= 32
    ensures Pow2(s) * Pow2(32 - s) == BASE
  {
    Pow2Of32();
    Pow2Add(s, 32 - s);
  }

  lemma LeftParts(x: Limb, s: nat)
    requires s < 32
    ensures x * Pow2(s) == ShiftedUp(x, s) + ShiftedDown(x, 32 - s) * BASE
    ensures ShiftedDown(x, 32 - s) < Pow2(s)
  {
    Halves(s);
    hide Pow2;
    UpParts(x, Pow2(s), Pow2(32 - s));
  }

  lemma UpRoom(r: nat, sp: nat, tp: nat)
    requires r < tp && sp > 0 && sp * tp == BASE
    ensures (r * sp) % sp == 0 && r * sp + sp <= BASE
  {
    MulLt(r, tp, sp);
    DivModUnique(r * sp, sp, r, 0);
  }

  /** What is shifted up by `s` and what is below `2^s` have no common bits. */
  lemma OrParts(low: nat, x: Limb, s: nat)
    requires s <= 32 && low < Pow2(s)
    ensures Or(low, ShiftedUp(x, s)) == low + ShiftedUp(x, s) < BASE
  {
    Halves(s);
    hide Pow2, Or;
    UpParts(x, Pow2(s), Pow2(32 - s));
    UpRoom(x % Pow2(32 - s), Pow2(s), Pow2(32 - s));
    OrComm(low, ShiftedUp(x, s));
    OrDisjoint(ShiftedUp(x, s), low, s);
  }

  lemma RightParts(x: Limb, s: nat)
    requires s < 32
    ensures x == ShiftedDown(x, s) * Pow2(s) + x % Pow2(s) && x % Pow2(s) < Pow2(s)
    ensures ShiftedUp(x, 32 - s) == (x % Pow2(s)) * Pow2(32 - s)
    ensures ShiftedDown(x, s) < Pow2(32 - s)
  {
    Halves(s);
    hide Pow2;
    UpParts(x, Pow2(32 - s), Pow2(s));
    DivModIs(x, Pow2(s));
  }

  // ---------------------------------------------------------------- left shift by k limbs and s bits

  /** Limb `j` of the result when `n` limbs of `a` have been shifted. */
  function LeftLimb(a: seq<Limb>, k: nat, s: nat, n: nat, j: nat): nat
    requires n <= |a| && s < 32
  {
    (if k <= j < k + n then ShiftedUp(a[j - k], s) else 0)
    + (if k < j <= k + n then ShiftedDown(a[j - k - 1], 32 - s) else 0)
  }

  ghost predicate IsLeft(r: seq<Limb>, a: seq<Limb>, k: nat, s: nat) {
    s < 32 && |r| == |a| && forall j | 0 <= j < |r| :: r[j] == LeftLimb(a, k, s, |a|, j)
  }

  /** What has left limb `n - 1` upwards. */
  function Pending(a: seq<Limb>, s: nat, n: nat): nat
    requires n <= |a| && s < 32
  {
    if n == 0 then 0 else ShiftedDown(a[n - 1], 32 - s)
  }

  /** Shifting one more limb changes two limbs of the result. */
  lemma LeftLimbNext(a: seq<Limb>, k: nat, s: nat, n: nat)
    requires n < |a| && s < 32
    ensures LeftLimb(a, k, s, n, k + n) == Pending(a, s, n) && LeftLimb(a, k, s, n, k + n + 1) == 0
    ensures LeftLimb(a, k, s, n + 1, k + n) == Pending(a, s, n) + ShiftedUp(a[n], s)
    ensures LeftLimb(a, k, s, n + 1, k + n + 1) == ShiftedDown(a[n], 32 - s)
    ensures forall j: nat | j != k + n && j != k + n + 1 :: LeftLimb(a, k, s, n + 1, j) == LeftLimb(a, k, s, n, j)
  {
    hide ShiftedUp, ShiftedDown;
  }

  /** The shifted low limbs `w`, with what is pending above them, are the product of `v`. */
  ghost predicate LeftEq(w: nat, pending: nat, k: nat, s: nat, n: nat, v: nat) {
    w + pending * P(k + n) == (P(k) * Pow2(s)) * v
  }

  lemma LeftStep(x: Limb, s: nat, pending: nat, v: nat, w: nat, k: nat, n: nat, y: nat)
    requires s < 32 && LeftEq(w, pending, k, s, n, v) && y == ShiftedUp(x, s) + pending
    ensures LeftEq(w + y * P(k + n), ShiftedDown(x, 32 - s), k, s, n + 1, v + x * P(n))
  {
    LeftParts(x, s);
    PAdd(k, n);
    PNext(k + n);
    hide P, Pow2, ShiftedUp, ShiftedDown;
    assert k + (n + 1) == k + n + 1;
    LeftAlgebra(x, Pow2(s), ShiftedUp(x, s), ShiftedDown(x, 32 - s), pending, v, w, P(k), P(n));
  }

  lemma LeftAlgebra(x: int, sp: int, lo: int, hi: int, carry: int, v: int, w: int, pk: int, pn: int)
    requires x * sp == lo + hi * BASE && w + carry * (pk * pn) == (pk * sp) * v
    ensures w + (lo + carry) * (pk * pn) + hi * (BASE * (pk * pn)) == (pk * sp) * (v + x * pn)
  {
    var p := pk * pn;
    Distribute(lo, carry, p);
    assert hi * (BASE * p) == (hi * BASE) * p;
    Distribute(lo, hi * BASE, p);
    assert (pk * sp) * (x * pn) == (x * sp) * p;
    assert (pk * sp) * (v + x * pn) == (pk * sp) * v + (pk * sp) * (x * pn);
  }

  lemma LeftNone(r: seq<Limb>, a: seq<Limb>, k: nat, s: nat)
    requires IsLeft(r, a, k, s) && k <= |a|
    ensures LeftEq(Value(r[..k]), 0, k, s, 0, Value(a[..0]))
  {
    assert forall j | 0 <= j < k :: r[..k][j] == r[j] == LeftLimb(a, k, s, |a|, j) == 0;
    ValueZero(r[..k]);
    ZeroTimes(P(k));
  }

  lemma {:induction false} LeftPrefix(r: seq<Limb>, a: seq<Limb>, k: nat, s: nat, n: nat)
    requires IsLeft(r, a, k, s) && k + n <= |a|
    ensures LeftEq(Value(r[..k + n]), Pending(a, s, n), k, s, n, Value(a[..n]))
    decreases n
  {
    hide Value, P, Pow2, LeftEq;
    if n == 0 {
      LeftNone(r, a, k, s);
    } else {
      LeftPrefix(r, a, k, s, n - 1);
      assert r[k + n - 1] == LeftLimb(a, k, s, |a|, k + n - 1) == ShiftedUp(a[n - 1], s) + Pending(a, s, n - 1);
      LeftStep(a[n - 1], s, Pending(a, s, n - 1), Value(a[..n - 1]), Value(r[..k + n - 1]), k, n - 1, r[k + n - 1]);
      ValueTake(r, k + n - 1);
      ValueTake(a, n - 1);
    }
  }

  /** Shifting left multiplies, modulo the width. */
  lemma LeftValue(r: seq<Limb>, a: seq<Limb>, k: nat, s: nat)
    requires IsLeft(r, a, k, s)
    ensures Value(r) == Mod(Value(a) * Pow2(32 * k + s), P(|a|))
  {
    hide Value, P, Pow2, Mod;
    PIs(k);
    Pow2Add(32 * k, s);
    ValueBound(r);
    if k <= |a| {
      var n := |a| - k;
      LeftPrefix(r, a, k, s, n);
      assert r[..k + n] == r;
      ValueSplit(a, n);
      PAdd(k, n);
      LeftLost(Value(a), P(k) * Pow2(s), Value(a[..n]), P(k), Pow2(s), P(n), Value(a[n..]));
      LeftSum(Value(r), Pending(a, s, n), P(k + n), Pow2(s) * Value(a[n..]));
      ModIs(Value(a) * (P(k) * Pow2(s)), P(|a|), Pending(a, s, n) + Pow2(s) * Value(a[n..]), Value(r));
    } else {
      assert forall j | 0 <= j < |r| :: r[j] == LeftLimb(a, k, s, |a|, j) == 0;
      ValueZero(r);
      PAdd(|a|, k - |a|);
      LeftAllLost(Value(a), P(|a|), P(k - |a|), Pow2(s));
      ModIs(Value(a) * (P(k) * Pow2(s)), P(|a|), Value(a) * (P(k - |a|) * Pow2(s)), 0);
    }
  }

  lemma LeftLost(v: int, f: int, low: int, pk: int, sp: int, pn: int, high: int)
    requires v == low + pn * high && f == pk * sp
    ensures v * f == f * low + (sp * high) * (pk * pn)
  {
    assert v * f == low * f + (pn * high) * f;
    assert (pn * high) * (pk * sp) == (sp * high) * (pk * pn);
  }

  lemma LeftSum(w: int, c: int, m: int, h: int)
    ensures w + c * m + h * m == (c + h) * m + w
  {}

  lemma LeftAllLost(v: int, m: int, q: int, sp: int)
    ensures v * ((m * q) * sp) == (v * (q * sp)) * m
  {}

  // ---------------------------------------------------------------- right shift

  /** Limb `j` of the result when `n` limbs of `a` have been shifted. */
  function RightLimb(a: seq<Limb>, k: nat, s: nat, n: nat, j: nat): nat
    requires n <= |a| && s < 32
  {
    (if j + k < n then ShiftedDown(a[j + k], s) else 0)
    + (if j + k + 1 < n then ShiftedUp(a[j + k + 1], 32 - s) else 0)
  }

  ghost predicate IsRight(r: seq<Limb>, a: seq<Limb>, k: nat, s: nat) {
    s < 32 && |r| == |a| && forall j | 0 <= j < |r| :: r[j] == RightLimb(a, k, s, |a|, j)
  }

  /** The bits of limb `i` that fall out at the bottom. */
  function Rest(a: seq<Limb>, s: nat, i: nat): nat {
    if i < |a| then a[i] % Pow2(s) else 0
  }

  /** The shifted low limbs `w` times `2^s`, with the bits lost at the bottom, are `v` up to the bits
      that the next limb still has to deliver. */
  ghost predicate RightEq(w: nat, first: nat, s: nat, n: nat, v: nat, next: nat) {
    Pow2(s) * w + first == v + next * P(n)
  }

  lemma RightStep(x: Limb, s: nat, rest: nat, n: nat, v: nat, w: nat, first: nat, y: nat)
    requires s < 32 && RightEq(w, first, s, n, v, x % Pow2(s)) && y == ShiftedDown(x, s) + rest * Pow2(32 - s)
    ensures RightEq(w + y * P(n), first, s, n + 1, v + x * P(n), rest)
  {
    RightParts(x, s);
    Halves(s);
    PNext(n);
    hide P, Pow2, ShiftedDown;
    RightAlgebra(x, Pow2(s), Pow2(32 - s), ShiftedDown(x, s), x % Pow2(s), rest, v, w, first, P(n));
  }

  lemma RightAlgebra(x: int, sp: int, tp: int, q: int, r: int, rest: int, v: int, w: int, first: int, p: int)
    requires x == q * sp + r && sp * tp == BASE && sp * w + first == v + r * p
    ensures sp * (w + (q + rest * tp) * p) + first == (v + x * p) + rest * (BASE * p)
  {
    Distribute(q, rest * tp, p);
    assert sp * (w + (q * p + rest * tp * p)) == sp * w + (q * sp) * p + rest * (sp * tp) * p;
    Distribute(q * sp, r, p);
    assert rest * BASE * p == rest * (BASE * p);
  }

  lemma RightNone(a: seq<Limb>, k: nat, s: nat)
    requires k <= |a|
    ensures RightEq(Value([]), Rest(a, s, k), s, 0, Value(a[k..k + 0]), Rest(a, s, k))
  {
    assert a[k..k + 0] == [];
    ZeroTimes(Pow2(s));
  }

  lemma RightLimbIs(r: seq<Limb>, a: seq<Limb>, k: nat, s: nat, j: nat)
    requires IsRight(r, a, k, s) && j + k < |a|
    ensures r[j] == ShiftedDown(a[j + k], s) + Rest(a, s, j + k + 1) * Pow2(32 - s)
  {
    hide Pow2;
    assert r[j] == RightLimb(a, k, s, |a|, j);
    if j + k + 1 < |a| { RightParts(a[j + k + 1], s); } else { ZeroTimes(Pow2(32 - s)); }
  }

  lemma {:induction false} RightPrefix(r: seq<Limb>, a: seq<Limb>, k: nat, s: nat, n: nat)
    requires IsRight(r, a, k, s) && k + n <= |a|
    ensures RightEq(Value(r[..n]), Rest(a, s, k), s, n, Value(a[k..k + n]), Rest(a, s, k + n))
    decreases n
  {
    hide Value, P, Pow2, RightEq, ShiftedDown, ShiftedUp;
    if n == 0 {
      RightNone(a, k, s);
      assert r[..0] == [];
    } else {
      RightPrefix(r, a, k, s, n - 1);
      var i := k + n - 1;
      RightLimbIs(r, a, k, s, n - 1);
      RightStep(a[i], s, Rest(a, s, i + 1), n - 1, Value(a[k..k + n - 1]), Value(r[..n - 1]), Rest(a, s, k), r[n - 1]);
      ValueTake(r, n - 1);
      assert a[k..k + n] == a[k..k + n - 1] + [a[i]];
      ValueSnoc(a[k..k + n - 1], a[i]);
    }
  }

  lemma RightWhole(v: int, low: int, pk: int, high: int, sp: int, w: int, rest: int)
    requires v == low + pk * high && sp * w + rest == high
    ensures v == w * (pk * sp) + (pk * rest + low)
  {}

  lemma RightRemainder(low: nat, pk: nat, sp: nat, rest: nat)
    requires low < pk && rest < sp
    ensures pk * rest + low < pk * sp
  {
    MulLt(rest, sp, pk);
  }

  /** `v` divided by `pk * sp`, when its limbs above the lowest are `high`. */
  lemma RightDivide(v: nat, low: nat, pk: nat, high: nat, sp: nat, w: nat, rest: nat)
    requires v == low + pk * high && sp * w + rest == high && low < pk && rest < sp && pk > 0 && sp > 0
    ensures pk * sp > 0 && Div(v, pk * sp) == w
  {
    RightWhole(v, low, pk, high, sp, w, rest);
    RightRemainder(low, pk, sp, rest);
    DivIs(v, pk * sp, w, pk * rest + low);
  }

  lemma RightWithin(r: seq<Limb>, a: seq<Limb>, k: nat, s: nat)
    requires IsRight(r, a, k, s) && k <= |a|
    ensures P(k) * Pow2(s) > 0 && Value(r) == Div(Value(a), P(k) * Pow2(s))
  {
    var n := |a| - k;
    RightPrefix(r, a, k, s, n);
    RightTail(r, a, k, s);
    RestSmall(a, s, k);
    assert a[k..k + n] == a[k..];
    ZeroTimes(P(n));
    hide Value, P, Pow2, Div, IsRight;
    ValueSplit(a, k);
    ValueBound(a[..k]);
    RightDivide(Value(a), Value(a[..k]), P(k), Value(a[k..]), Pow2(s), Value(r), Rest(a, s, k));
  }

  lemma RightBeyond(r: seq<Limb>, a: seq<Limb>, k: nat, s: nat)
    requires IsRight(r, a, k, s) && k > |a|
    ensures P(k) * Pow2(s) > 0 && Value(r) == Div(Value(a), P(k) * Pow2(s))
  {
    assert forall j | 0 <= j < |r| :: r[j] == RightLimb(a, k, s, |a|, j) == 0;
    ValueZero(r);
    hide Value, P, Pow2, Div, IsRight;
    ValueBound(a);
    PAdd(|a|, k - |a|);
    DivSmall(Value(a), P(|a|), P(k - |a|), Pow2(s));
  }

  lemma DivSmall(v: nat, p: nat, q: nat, sp: nat)
    requires v < p && q > 0 && sp > 0
    ensures (p * q) * sp > 0 && Div(v, (p * q) * sp) == 0
  {
    MulLe(1, q, p);
    MulLe(1, sp, p * q);
    DivIs(v, (p * q) * sp, 0, v);
  }

  /** Shifting right divides. */
  lemma RightValue(r: seq<Limb>, a: seq<Limb>, k: nat, s: nat)
    requires IsRight(r, a, k, s)
    ensures Value(r) == Div(Value(a), Pow2(32 * k + s))
  {
    hide Value, P, Pow2, Div, IsRight;
    PIs(k);
    Pow2Add(32 * k, s);
    if k <= |a| { RightWithin(r, a, k, s); } else { RightBeyond(r, a, k, s); }
  }

  lemma RestSmall(a: seq<Limb>, s: nat, i: nat)
    ensures Rest(a, s, i) < Pow2(s)
  {}

  /** The limbs above the shifted ones are zero. */
  lemma RightTail(r: seq<Limb>, a: seq<Limb>, k: nat, s: nat)
    requires IsRight(r, a, k, s) && k <= |a|
    ensures Value(r[..|a| - k]) == Value(r)
  {
    var n := |a| - k;
    ValueSplit(r, n);
    assert forall j | 0 <= j < k :: r[n..][j] == r[n + j] == RightLimb(a, k, s, |a|, n + j) == 0;
    ValueZero(r[n..]);
    ZeroTimes(P(n));
  }
}
