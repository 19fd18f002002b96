/** Facts about products and quotients that the solver needs to be told one at a time. */
module Arith {

  lemma MulLe(a: nat, b: nat, c: nat)
    requires a <= b
    ensures a * c <= b * c
  {}

  lemma MulLt(a: nat, b: nat, c: nat)
    requires a < b && c > 0
    ensures a * c < b * c && a * c + c <= b * c
  {
    assert b * c - a * c == (b - a) * c;
    MulLe(1, b - a, c);
  }

  lemma Assoc(a: int, b: int, c: int)
    ensures a * (b * c) == (a * b) * c == b * (a * c)
  {}

  lemma Distribute(a: int, b: int, c: int)
    ensures (a + b) * c == a * c + b * c
  {}

  lemma ZeroTimes(p: nat)
    ensures 0 * p == 0
  {}

  lemma DivModIs(x: nat, m: nat)
    requires m > 0
    ensures x == (x / m) * m + x % m && x % m < m
  {}

  /** Quotient and remainder are determined by the equation. */
  lemma DivModUnique(x: nat, m: nat, q: nat, r: nat)
    requires m > 0 && x == q * m + r && r < m
    ensures x / m == q && x % m == r
  {
    var q', r' := x / m, x % m;
    assert x == q' * m + r' && 0 <= r' < m;
    if q' < q { MulLt(q', q, m); }
    if q < q' { MulLt(q, q', m); }
  }

  lemma QuotientLe(x: nat, m: nat)
    requires m > 0
    ensures x / m <= x
  {
    var q := x / m;
    DivModIs(x, m);
    assert q * m <= x;
    MulLe(1, m, q);
  }

  /** The quotient, as a function that proofs can keep folded. */
  function Div(x: nat, m: nat): (r: nat)
    requires m > 0
    ensures r <= x
  {
    QuotientLe(x, m);
    x / m
  }

  lemma DivIs(x: nat, m: nat, q: nat, r: nat)
    requires m > 0 && x == q * m + r && r < m
    ensures Div(x, m) == q
  {
    DivModUnique(x, m, q, r);
  }

  /** The remainder, as a function that proofs can keep folded. */
  function Mod(x: int, m: nat): (r: nat)
    requires m > 0
    ensures r < m
  {
    x % m
  }

  lemma ModIs(x: nat, m: nat, q: nat, r: nat)
    requires m > 0 && x == q * m + r && r < m
    ensures Mod(x, m) == r
  {
    DivModUnique(x, m, q, r);
  }

  lemma ModSmall(x: nat, m: nat)
    requires x < m
    ensures Mod(x, m) == x
  {}

  function Pow2(n: nat): (r: nat)
    ensures r > 0
  {
    if n == 0 then 1 else 2 * Pow2(n - 1)
  }

  lemma {:induction false} Pow2Add(a: nat, b: nat)
    ensures Pow2(a + b) == Pow2(a) * Pow2(b)
  {
    if a > 0 {
      Pow2Add(a - 1, b);
      Assoc(2, Pow2(a - 1), Pow2(b));
    }
  }

  lemma Pow2Mono(a: nat, b: nat)
    requires a <= b
    ensures Pow2(a) <= Pow2(b)
  {
    Pow2Add(a, b - a);
    MulLe(1, Pow2(b - a), Pow2(a));
  }
}
