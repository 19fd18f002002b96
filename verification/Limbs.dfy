/** Numbers as sequences of 32-bit limbs, least significant first, and the integer facts behind limb
    arithmetic. */
module Limbs {
  import opened Arith

  const BASE: nat := 0x1_0000_0000

  type Limb = x: nat | x < BASE

  /** The weight of limb `i`. */
  function P(i: nat): (r: nat)
    ensures r > 0
  {
    if i == 0 then 1 else BASE * P(i - 1)
  }

  function Value(s: seq<Limb>): nat {
    if s == [] then 0 else Value(s[..|s| - 1]) + s[|s| - 1] * P(|s| - 1)
  }

  // ---------------------------------------------------------------- products and quotients

  lemma Pow2Of32()
    ensures Pow2(32) == BASE
  {
    assert Pow2(8) == 256;
    Pow2Add(8, 8);
    Pow2Add(16, 16);
  }

  lemma {:induction false} PIs(i: nat)
    ensures P(i) == Pow2(32 * i)
  {
    if i > 0 {
      PIs(i - 1);
      Pow2Of32();
      Pow2Add(32, 32 * (i - 1));
    }
  }

  lemma {:induction false} PAdd(a: nat, b: nat)
    ensures P(a + b) == P(a) * P(b)
  {
    if a > 0 {
      PAdd(a - 1, b);
      Assoc(BASE, P(a - 1), P(b));
    }
  }

  // ---------------------------------------------------------------- values

  lemma ValueSnoc(s: seq<Limb>, x: Limb)
    ensures Value(s + [x]) == Value(s) + x * P(|s|)
  {
    assert (s + [x])[..|s|] == s;
  }

  lemma ValueTake(s: seq<Limb>, i: nat)
    requires i < |s|
    ensures Value(s[..i + 1]) == Value(s[..i]) + s[i] * P(i)
  {
    assert s[..i + 1] == s[..i] + [s[i]];
    ValueSnoc(s[..i], s[i]);
  }

  lemma {:induction false} ValueBound(s: seq<Limb>)
    ensures Value(s) < P(|s|)
  {
    if s != [] {
      var n := |s| - 1;
      ValueBound(s[..n]);
      MulLe(s[n], BASE - 1, P(n));
    }
  }

  lemma {:induction false} ValueZero(s: seq<Limb>)
    ensures Value(s) == 0 <==> forall i | 0 <= i < |s| :: s[i] == 0
  {
    if s != [] {
      var n := |s| - 1;
      ValueZero(s[..n]);
      if s[n] > 0 { MulLe(1, s[n], P(n)); }
      assert forall i | 0 <= i < |s| :: s[i] == if i < n then s[..n][i] else s[n];
    }
  }

  ghost predicate SplitsAt(v: nat, low: nat, k: nat, high: nat) {
    v == low + P(k) * high
  }

  lemma SplitStep(v: nat, low: nat, k: nat, high: nat, x: nat, n: nat)
    requires SplitsAt(v, low, k, high) && k <= n
    ensures SplitsAt(v + x * P(n), low, k, high + x * P(n - k))
  {
    PAdd(k, n - k);
    hide P;
    SplitAlgebra(P(k), high, x, P(n - k), P(n));
  }

  lemma SplitAlgebra(pk: int, h: int, x: int, pm: int, pn: int)
    requires pn == pk * pm
    ensures pk * (h + x * pm) == pk * h + x * pn
  {
    Assoc(x, pk, pm);
    assert pk * (h + x * pm) == pk * h + pk * (x * pm);
  }

  lemma SplitNone(v: nat, k: nat)
    ensures SplitsAt(v, v, k, 0)
  {}

  /** The low limbs and the high limbs. */
  lemma {:induction false} ValueSplits(s: seq<Limb>, k: nat)
    requires k <= |s|
    ensures SplitsAt(Value(s), Value(s[..k]), k, Value(s[k..]))
    decreases |s|
  {
    if k == |s| {
      assert s[..k] == s && s[k..] == [];
      SplitNone(Value(s), k);
    } else {
      hide SplitsAt, Value, P;
      var n := |s| - 1;
      ValueSplits(s[..n], k);
      assert s[..n][..k] == s[..k] && s[k..] == s[..n][k..] + [s[n]] && s == s[..n] + [s[n]];
      ValueSnoc(s[..n], s[n]);
      ValueSnoc(s[..n][k..], s[n]);
      SplitStep(Value(s[..n]), Value(s[..k]), k, Value(s[..n][k..]), s[n], n);
    }
  }

  lemma ValueSplit(s: seq<Limb>, k: nat)
    requires k <= |s|
    ensures Value(s) == Value(s[..k]) + P(k) * Value(s[k..])
  {
    hide Value, P;
    ValueSplits(s, k);
  }

  /** One carry step: the low part of `n` goes into limb `i`, the rest is carried. */
  lemma CarryStep(n: nat, i: nat)
    ensures (n % BASE) * P(i) + (n / BASE) * P(i + 1) == n * P(i)
  {
    var q, r, p := n / BASE, n % BASE, P(i);
    Assoc(q, BASE, p);
    assert r * p + (q * BASE) * p == (r + q * BASE) * p;
  }

  lemma PNext(i: nat)
    ensures P(i + 1) == BASE * P(i)
  {}

  /** Writing limb `i` extends the known prefix by it. */
  lemma PutLimb(before: seq<Limb>, i: nat, x: Limb)
    requires i < |before|
    ensures Value(before[i := x][..i + 1]) == Value(before[..i]) + x * P(i)
    ensures before[i := x][i + 1..] == before[i + 1..]
  {
    assert before[i := x][..i + 1] == before[..i] + [x];
    ValueSnoc(before[..i], x);
  }

  lemma ComplementStep(x: Limb, i: nat)
    ensures (BASE - 1 - x) * P(i) + x * P(i) + P(i) == P(i + 1)
  {
    assert (BASE - 1 - x) * P(i) + x * P(i) == (BASE - 1) * P(i);
  }

  lemma IncrementStep(x: Limb, i: nat)
    ensures x + 1 == BASE ==> x * P(i) + P(i) == P(i + 1)
    ensures (x + 1) * P(i) == x * P(i) + P(i)
  {}

  /** Sequences with the same high limbs differ by what their low limbs differ. */
  lemma SameTop(now: seq<Limb>, was: seq<Limb>, i: nat)
    requires |now| == |was| && i <= |now| && now[i..] == was[i..]
    ensures Value(now) - Value(now[..i]) == Value(was) - Value(was[..i])
  {
    ValueSplit(now, i);
    ValueSplit(was, i);
  }

  /** `low` with a carry above limb `i` is `total`. */
  ghost predicate Carries(low: nat, carry: nat, i: nat, total: nat) {
    low + Scaled(carry, i) == total
  }

  ghost function Scaled(carry: nat, i: nat): nat {
    carry * P(i)
  }

  lemma CarriesMod(low: nat, carry: nat, i: nat, total: nat)
    requires Carries(low, carry, i, total) && low < P(i)
    ensures low == Mod(total, P(i))
  {
    hide P;
    ModIs(total, P(i), carry, low);
  }

  /** A carry out of the low limbs is a carry out of all of them when the high limbs do not change. */
  lemma CarriesUp(nowLow: nat, now: nat, carry: nat, i: nat, n: nat, wasLow: nat, was: nat, d: nat)
    requires Carries(nowLow, carry, i, wasLow + d) && now - nowLow == was - wasLow && (carry > 0 ==> i == n)
    ensures Carries(now, carry, n, was + d)
  {
    assert Scaled(0, i) == Scaled(0, n) == 0;
    hide Scaled;
  }

  /** When the low limbs equal the old ones plus `d`, up to a carry that is lost at the top. */
  lemma {:induction false} Wrapped(now: seq<Limb>, was: seq<Limb>, d: nat, i: nat, carry: nat)
    requires |now| == |was| && i <= |now| && now[i..] == was[i..]
    requires Carries(Value(now[..i]), carry, i, Value(was[..i]) + d) && (carry > 0 ==> i == |now|)
    ensures Value(now) == Mod(Value(was) + d, P(|now|))
  {
    hide Value, P, Mod, Scaled;
    SameTop(now, was, i);
    CarriesUp(Value(now[..i]), Value(now), carry, i, |now|, Value(was[..i]), Value(was), d);
    ValueBound(now);
    CarriesMod(Value(now), carry, |now|, Value(was) + d);
  }

  lemma ValueAll(s: seq<Limb>, n: nat)
    requires n == |s|
    ensures Value(s[..n]) == Value(s)
  {
    hide Value;
    assert s[..n] == s;
  }

  // ---------------------------------------------------------------- bits

  /** Bitwise or. */
  function Or(a: nat, b: nat): nat
    decreases a + b
  {
    if a == 0 then b else if b == 0 then a
    else 2 * Or(a / 2, b / 2) + if a % 2 == 1 || b % 2 == 1 then 1 else 0
  }

  lemma HalfMod(a: nat, s: nat)
    requires s > 0 && a % Pow2(s) == 0
    ensures a % 2 == 0 && (a / 2) % Pow2(s - 1) == 0
  {
    var m, q := Pow2(s - 1), a / Pow2(s);
    DivModIs(a, 2 * m);
    assert a == q * (2 * m);
    Assoc(q, 2, m);
    assert a == 2 * (q * m);
    DivModUnique(a / 2, m, q, 0);
  }

  /** The or of numbers without common bits is their sum. */
  lemma {:induction false} OrDisjoint(a: nat, b: nat, s: nat)
    requires a % Pow2(s) == 0 && b < Pow2(s)
    ensures Or(a, b) == a + b
    decreases s
  {
    if s > 0 {
      HalfMod(a, s);
      OrDisjoint(a / 2, b / 2, s - 1);
    }
  }

  /** Bit `n` of `x`. */
  predicate Bit(x: nat, n: nat) {
    (x / Pow2(n)) % 2 == 1
  }
}
