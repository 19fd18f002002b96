/** Positional notation in any base: most significant digit first, as in the Base58 buffers. */
module Radix {
  import opened Arith

  function Pow(b: nat, n: nat): nat {
    if n == 0 then 1 else b * Pow(b, n - 1)
  }

  /** The number written by `s`. */
  function Num(s: seq<nat>, b: nat): nat {
    if s == [] then 0 else s[0] * Pow(b, |s| - 1) + Num(s[1..], b)
  }

  ghost predicate Digits(s: seq<nat>, b: nat) {
    forall i | 0 <= i < |s| :: s[i] < b
  }

  /** The digits of `v` without leading zeros. */
  function ToDigits(v: nat, b: nat): seq<nat>
    requires b >= 2
  {
    if v == 0 then [] else ToDigits(v / b, b) + [v % b]
  }

  // ---------------------------------------------------------------- powers

  lemma {:induction false} PowPositive(b: nat, n: nat)
    requires b > 0
    ensures Pow(b, n) > 0
  {
    if n > 0 {
      PowPositive(b, n - 1);
      MulLe(1, b, Pow(b, n - 1));
    }
  }

  lemma {:induction false} PowAdd(b: nat, m: nat, n: nat)
    ensures Pow(b, m + n) == Pow(b, m) * Pow(b, n)
  {
    if m > 0 {
      PowAdd(b, m - 1, n);
      Assoc(b, Pow(b, m - 1), Pow(b, n));
    }
  }

  lemma {:induction false} PowPow(b: nat, m: nat, n: nat)
    ensures Pow(Pow(b, m), n) == Pow(b, m * n)
  {
    if n > 0 {
      PowPow(b, m, n - 1);
      PowAdd(b, m, m * (n - 1));
      assert m + m * (n - 1) == m * n;
    } else {
      assert m * 0 == 0;
    }
  }

  /** Larger exponents give larger powers. */
  lemma {:induction false} PowMono(b: nat, m: nat, n: nat)
    requires b > 0 && m <= n
    ensures Pow(b, m) <= Pow(b, n)
    decreases n
  {
    if m < n {
      PowMono(b, m, n - 1);
      MulLe(1, b, Pow(b, n - 1));
    }
  }

  /** Larger bases give larger powers. */
  lemma {:induction false} PowBase(a: nat, b: nat, n: nat)
    ensures a <= b ==> Pow(a, n) <= Pow(b, n)
    ensures a < b && n > 0 ==> Pow(a, n) < Pow(b, n)
  {
    if n > 0 && a <= b {
      PowBase(a, b, n - 1);
      MulLe(a, b, Pow(a, n - 1));
      MulLe(Pow(a, n - 1), Pow(b, n - 1), b);
      if a < b {
        PowPositive(b, n - 1);
        MulLt(a, b, Pow(b, n - 1));
        MulLe(Pow(a, n - 1), Pow(b, n - 1), a);
      }
    }
  }

  lemma PowSwap(b: nat, m: nat, n: nat)
    ensures Pow(Pow(b, m), n) == Pow(Pow(b, n), m)
  {
    hide Pow;
    PowPow(b, m, n);
    PowPow(b, n, m);
    assert m * n == n * m;
  }

  lemma PowPowMono(b: nat, q: nat, n: nat, s: nat, p: nat)
    requires b > 0 && q * n <= p * s
    ensures Pow(Pow(b, q), n) <= Pow(Pow(b, s), p)
  {
    hide Pow;
    assert p * s == s * p;
    PowPow(b, q, n);
    PowPow(b, s, p);
    PowMono(b, q * n, s * p);
  }

  lemma PowRoot(x: nat, y: nat, p: nat)
    requires p > 0 && Pow(x, p) <= Pow(y, p)
    ensures x <= y
  {
    hide Pow;
    PowBase(y, x, p);
  }

  /** Powers of two bases compare by exponents once one pair of exponents does: if `a^p <= b^q`, then
      `a^n <= b^s` whenever `s / n >= q / p`. */
  lemma PowCompare(a: nat, b: nat, p: nat, q: nat, n: nat, s: nat)
    requires b > 1 && p > 0 && Pow(a, p) <= Pow(b, q) && q * n <= p * s
    ensures Pow(a, n) <= Pow(b, s)
  {
    hide Pow;
    PowPowMono(b, q, n, s, p);
    PowBase(Pow(a, p), Pow(b, q), n);
    PowSwap(a, n, p);
    PowRoot(Pow(a, n), Pow(b, s), p);
  }

  // ---------------------------------------------------------------- digits

  lemma {:induction false} NumSnoc(s: seq<nat>, x: nat, b: nat)
    ensures Num(s + [x], b) == Num(s, b) * b + x
  {
    if s == [] {
      assert s + [x] == [x];
      assert x * Pow(b, 0) == x;
    } else {
      assert (s + [x])[1..] == s[1..] + [x];
      NumSnoc(s[1..], x, b);
      SnocAlgebra(s[0], Pow(b, |s| - 1), Num(s[1..], b), b, x);
    }
  }

  lemma SnocAlgebra(d: int, p: int, v: int, b: int, x: int)
    ensures d * (b * p) + (v * b + x) == (d * p + v) * b + x
  {}

  lemma {:induction false} NumBound(s: seq<nat>, b: nat)
    requires b > 0 && Digits(s, b)
    ensures Num(s, b) < Pow(b, |s|)
  {
    if s != [] {
      NumBound(s[1..], b);
      PowPositive(b, |s| - 1);
      MulLt(s[0], b, Pow(b, |s| - 1));
    }
  }

  /** A number with a nonzero leading digit is not smaller than the weight of that digit. */
  lemma NumLeading(s: seq<nat>, b: nat)
    requires b > 0 && s != [] && s[0] != 0
    ensures Num(s, b) >= Pow(b, |s| - 1) > 0
  {
    PowPositive(b, |s| - 1);
    MulLe(1, s[0], Pow(b, |s| - 1));
  }

  lemma {:induction false} NumZeros(s: seq<nat>, b: nat)
    requires forall i | 0 <= i < |s| :: s[i] == 0
    ensures Num(s, b) == 0
  {
    if s != [] {
      NumZeros(s[1..], b);
      ZeroTimes(Pow(b, |s| - 1));
    }
  }

  /** Leading zeros do not count. */
  lemma {:induction false} NumSkip(s: seq<nat>, k: nat, b: nat)
    requires k <= |s| && forall i | 0 <= i < k :: s[i] == 0
    ensures Num(s, b) == Num(s[k..], b)
    decreases k
  {
    if k > 0 {
      NumSkip(s[1..], k - 1, b);
      assert s[1..][k - 1..] == s[k..];
      ZeroTimes(Pow(b, |s| - 1));
    } else {
      assert s[0..] == s;
    }
  }

  lemma {:induction false} ToDigitsIs(v: nat, b: nat)
    requires b >= 2
    ensures var d := ToDigits(v, b);
      Num(d, b) == v && Digits(d, b) && (d == [] <==> v == 0) && (d != [] ==> d[0] != 0)
  {
    if v > 0 {
      DivModIs(v, b);
      Shrinks(v, b);
      ToDigitsIs(v / b, b);
      NumSnoc(ToDigits(v / b, b), v % b, b);
      if v / b == 0 { ZeroTimes(b); }
    }
  }

  lemma Shrinks(v: nat, b: nat)
    requires b >= 2 && v > 0
    ensures v / b < v
  {
    DivModIs(v, b);
    var q := v / b;
    if q >= v { MulLe(2, b, q); }
  }

  /** Every numeral without leading zeros is the one that `ToDigits` makes. */
  lemma {:induction false} DigitsUnique(s: seq<nat>, b: nat)
    requires b >= 2 && Digits(s, b) && (s != [] ==> s[0] != 0)
    ensures s == ToDigits(Num(s, b), b)
  {
    if s != [] {
      var n := |s| - 1;
      var t, x := s[..n], s[n];
      assert s == t + [x];
      NumSnoc(t, x, b);
      DivModUnique(Num(s, b), b, Num(t, b), x);
      NumLeading(s, b);
      DigitsUnique(t, b);
    }
  }
}
