/** The heights that skip pointers lead to, and how many steps a search along them takes. */
module SkipHeights {
  import opened Arith

  // ---------------------------------------------------------------- skip heights

  /** Bitwise and of two non-negative numbers. */
  function And(a: nat, b: nat): nat {
    if a == 0 || b == 0 then 0
    else 2 * And(a / 2, b / 2) + if a % 2 == 1 && b % 2 == 1 then 1 else 0
  }

  /** `n & (n - 1)`; for 0 the second operand is all ones and the result is 0. */
  function InvertLowestOne(n: nat): nat {
    if n == 0 then 0 else And(n, n - 1)
  }

  function GetSkipHeight(height: nat): nat {
    if height < 2 then 0
    else if height % 2 == 1 then InvertLowestOne(InvertLowestOne(height - 1)) + 1
    else InvertLowestOne(height)
  }

  lemma {:induction false} AndSelf(n: nat)
    ensures And(n, n) == n
  {
    if n > 0 {
      AndSelf(n / 2);
    }
  }

  function LowestOne(n: nat): nat
    requires n > 0
  {
    if n % 2 == 1 then 1 else 2 * LowestOne(n / 2)
  }

  /** Clearing the lowest one bit subtracts the largest power of two that divides the number. */
  lemma {:induction false} InvertLowestOneIs(n: nat)
    requires n > 0
    ensures 0 < LowestOne(n) <= n && InvertLowestOne(n) == n - LowestOne(n)
  {
    if n % 2 == 1 {
      AndSelf(n / 2);
      assert (n - 1) / 2 == n / 2 && (n - 1) % 2 == 0;
      if n > 1 { assert And(n, n - 1) == 2 * And(n / 2, (n - 1) / 2); }
    } else {
      InvertLowestOneIs(n / 2);
      assert (n - 1) / 2 == n / 2 - 1 && n % 2 == 0;
      assert And(n, n - 1) == 2 * And(n / 2, n / 2 - 1);
    }
  }

  /** Skip pointers go strictly down. */
  lemma SkipHeightBelow(height: nat)
    requires height > 0
    ensures GetSkipHeight(height) < height
  {
    if height >= 2 {
      if height % 2 == 1 {
        InvertLowestOneIs(height - 1);
        var m := InvertLowestOne(height - 1);
        if m > 0 { InvertLowestOneIs(m); }
      } else {
        InvertLowestOneIs(height);
      }
    }
  }

  /** How many of the bits are ones. */
  function Ones(n: nat): nat {
    if n == 0 then 0 else n % 2 + Ones(n / 2)
  }

  lemma {:induction false} OnesBound(n: nat, m: nat)
    requires n < Pow2(m)
    ensures Ones(n) <= m
    decreases m
  {
    if m > 0 { OnesBound(n / 2, m - 1); }
  }

  /** Clearing the lowest one bit leaves one fewer, and keeps an even number even. */
  lemma {:induction false} OnesInvert(n: nat)
    requires n > 0
    ensures Ones(InvertLowestOne(n)) == Ones(n) - 1 && (n % 2 == 0 ==> InvertLowestOne(n) % 2 == 0)
  {
    InvertLowestOneIs(n);
    hide InvertLowestOne;
    if n % 2 == 1 {
      assert InvertLowestOne(n) == n - 1 && (n - 1) / 2 == n / 2 && (n - 1) % 2 == 0;
    } else {
      OnesInvert(n / 2);
      InvertLowestOneIs(n / 2);
      assert InvertLowestOne(n) == 2 * InvertLowestOne(n / 2);
    }
  }

  /** How many skips lead from a height to the genesis block. */
  function Skips(height: nat): nat {
    if height == 0 then 0 else SkipHeightBelow(height); 1 + Skips(GetSkipHeight(height))
  }

  /** Following skip pointers reaches the genesis block in no more steps than the height has one bits. */
  lemma {:induction false} SkipsBound(height: nat)
    ensures Skips(height) <= Ones(height)
    decreases height
  {
    if height > 0 {
      SkipHeightBelow(height);
      SkipsBound(GetSkipHeight(height));
      SkipOnes(height);
    }
  }

  lemma SkipOnes(height: nat)
    requires height > 0
    ensures Ones(GetSkipHeight(height)) < Ones(height)
  {
    hide InvertLowestOne;
    if height % 2 == 0 {
      OnesInvert(height);
    } else if height > 1 {
      var k := height - 1;
      OnesInvert(k);
      var m := InvertLowestOne(k);
      if m > 0 { OnesInvert(m); } else { InvertNone(); }
      OddOnes(k);
      OddOnes(InvertLowestOne(m));
    }
  }

  lemma InvertNone()
    ensures InvertLowestOne(0) == 0
  {}

  lemma OddOnes(k: nat)
    requires k % 2 == 0
    ensures Ones(k + 1) == Ones(k) + 1
  {
    assert (k + 1) / 2 == k / 2;
  }

  // ---------------------------------------------------------------- the search

  /** Where the search for a lower height goes next: along the skip pointer, unless it leads too far, or the parent's
      is better. */
  function NextHeight(h: nat, target: nat): (r: nat)
    requires target < h
    ensures target <= r < h
  {
    SkipHeightBelow(h);
    var skip, skipPrev := GetSkipHeight(h), GetSkipHeight(h - 1);
    if skip == target || (skip > target && !(skipPrev < skip - 2 && skipPrev >= target)) then skip else h - 1
  }

  /** How many steps the search takes. */
  function Steps(h: nat, target: nat): nat
    requires target <= h
    decreases h
  {
    if h == target then 0 else 1 + Steps(NextHeight(h, target), target)
  }

  // ---------------------------------------------------------------- bits above and below

  /** A number below a power of two keeps its lowest one bit when a multiple of that power is added. */
  lemma {:induction false} LowestOffset(b: nat, x: nat, k: nat)
    requires 0 < x < Pow2(k) && b % Pow2(k) == 0
    ensures LowestOne(b + x) == LowestOne(x)
    decreases k
  {
    HalfMultiple(b, k);
    if x % 2 == 0 {
      LowestOffset(b / 2, x / 2, k - 1);
      assert (b + x) / 2 == b / 2 + x / 2;
    }
  }

  lemma HalfMultiple(b: nat, k: nat)
    requires k > 0 && b % Pow2(k) == 0
    ensures b % 2 == 0 && (b / 2) % Pow2(k - 1) == 0
  {
    var p, q := Pow2(k - 1), b / Pow2(k);
    DivModIs(b, Pow2(k));
    assert b == q * (2 * p);
    Assoc(q, p, 2);
    assert b == 2 * (q * p);
    DivModUnique(b / 2, p, q, 0);
  }

  lemma {:induction false} LowestPower(b: nat, k: nat)
    requires b % Pow2(k + 1) == 0
    ensures LowestOne(b + Pow2(k)) == Pow2(k)
    decreases k
  {
    HalfMultiple(b, k + 1);
    if k > 0 {
      LowestPower(b / 2, k - 1);
      assert (b + Pow2(k)) / 2 == b / 2 + Pow2(k - 1);
    }
  }

  lemma InvertOffset(b: nat, x: nat, k: nat)
    requires x < Pow2(k) && b % Pow2(k) == 0
    ensures x > 0 ==> InvertLowestOne(b + x) == b + InvertLowestOne(x) && InvertLowestOne(x) < x
  {
    hide InvertLowestOne, LowestOne, Pow2;
    if x > 0 {
      LowestOffset(b, x, k);
      InvertLowestOneIs(x);
      InvertLowestOneIs(b + x);
    }
  }

  lemma InvertPower(b: nat, k: nat)
    requires b % Pow2(k + 1) == 0
    ensures InvertLowestOne(b + Pow2(k)) == b
  {
    hide InvertLowestOne, LowestOne;
    LowestPower(b, k);
    InvertLowestOneIs(b + Pow2(k));
  }

  lemma MultipleDown(low: nat, k: nat)
    requires low % Pow2(k + 1) == 0
    ensures low % Pow2(k) == 0 && (low + Pow2(k)) % Pow2(k) == 0 && low % 2 == 0
  {
    var p, q := Pow2(k), low / Pow2(k + 1);
    DivModIs(low, Pow2(k + 1));
    Assoc(q, 2, p);
    assert low == (q * 2) * p;
    DivModUnique(low, p, q * 2, 0);
    Distribute(q * 2, 1, p);
    DivModUnique(low + p, p, q * 2 + 1, 0);
    HalfMultiple(low, k + 1);
  }

  lemma EvenPower(k: nat, x: nat)
    requires 0 < x < Pow2(k)
    ensures k > 0 && Pow2(k) % 2 == 0 && Pow2(k) >= 2
  {}

  lemma Parity(low: nat, k: nat, x: nat)
    requires low % Pow2(k + 1) == 0 && 0 < x < Pow2(k)
    ensures (low + Pow2(k) + x) % 2 == x % 2 && low + Pow2(k) + x > 2
  {
    hide Pow2;
    MultipleDown(low, k);
    EvenPower(k, x);
    EvenSum(low, Pow2(k), x);
  }

  lemma EvenSum(low: nat, p: nat, x: nat)
    requires low % 2 == 0 && p % 2 == 0
    ensures (low + p + x) % 2 == x % 2
  {}

  lemma SkipOf(h: nat)
    requires h >= 2
    ensures h % 2 == 0 ==> GetSkipHeight(h) == InvertLowestOne(h)
    ensures h % 2 == 1 ==> GetSkipHeight(h) == InvertLowestOne(InvertLowestOne(h - 1)) + 1
  {}

  /** The skip from an even height above a multiple of a power of two stays above it. */
  lemma SkipEven(low: nat, k: nat, x: nat)
    requires low % Pow2(k + 1) == 0 && 0 < x < Pow2(k) && x % 2 == 0
    ensures GetSkipHeight(low + Pow2(k) + x) == low + Pow2(k) + InvertLowestOne(x)
    ensures InvertLowestOne(x) < x && InvertLowestOne(x) % 2 == 0 && Ones(InvertLowestOne(x)) == Ones(x) - 1
  {
    hide InvertLowestOne, Ones, Pow2, GetSkipHeight;
    MultipleDown(low, k);
    Parity(low, k, x);
    InvertOffset(low + Pow2(k), x, k);
    OnesInvert(x);
    SkipOf(low + Pow2(k) + x);
  }

  /** The skip from an odd height clears two bits: of the part below the power, or else it leads below it. */
  lemma SkipOdd(low: nat, k: nat, x: nat)
    requires low % Pow2(k + 1) == 0 && x < Pow2(k) && x % 2 == 1
    ensures var h, z := low + Pow2(k) + x, x - 1;
      if z > 0 && InvertLowestOne(z) > 0
      then GetSkipHeight(h) == low + Pow2(k) + InvertLowestOne(InvertLowestOne(z)) + 1
      else GetSkipHeight(h) <= low + 1
  {
    hide InvertLowestOne, Pow2, GetSkipHeight;
    MultipleDown(low, k);
    Parity(low, k, x);
    var b, z := low + Pow2(k), x - 1;
    SkipOf(b + x);
    InvertOffset(b, z, k);
    InvertPower(low, k);
    if z > 0 && InvertLowestOne(z) > 0 { InvertOffset(b, InvertLowestOne(z), k); }
    if low > 0 { InvertLowestOneIs(low); } else { InvertNone(); }
  }

  lemma OnesTwice(z: nat)
    requires z > 0 && z % 2 == 0 && InvertLowestOne(z) > 0
    ensures Ones(InvertLowestOne(InvertLowestOne(z)) + 1) == Ones(z) - 1
  {
    hide InvertLowestOne, Ones;
    OnesInvert(z);
    OnesInvert(InvertLowestOne(z));
    OddOnes(InvertLowestOne(InvertLowestOne(z)));
  }

  lemma OnesBelow(x: nat)
    requires x > 2 && x % 2 == 0 && x % 8 != 0
    ensures Ones(x - 2) <= Ones(x)
  {
    hide Ones;
    var m, r := x / 8, x % 8;
    assert x == 8 * m + r && (r == 2 || r == 4 || r == 6);
    if r == 2 { OnesTwo(2 * m); } else if r == 6 { OnesTwo(2 * m + 1); } else { OnesFour(m); }
  }

  lemma OnesTwo(m: nat)
    ensures Ones(4 * m) <= Ones(4 * m + 2)
  {
    assert (4 * m) / 2 == 2 * m && (4 * m + 2) / 2 == 2 * m + 1 && (2 * m + 1) / 2 == m && (2 * m) / 2 == m;
  }

  lemma OnesFour(m: nat)
    ensures Ones(8 * m + 2) <= Ones(8 * m + 4)
  {
    assert (8 * m + 2) / 2 == 4 * m + 1 && (4 * m + 1) / 2 == 2 * m && (2 * m) / 2 == m;
    assert (8 * m + 4) / 2 == 4 * m + 2 && (4 * m + 2) / 2 == 2 * m + 1 && (2 * m + 1) / 2 == m;
    assert Ones(4 * m + 1) == 1 + Ones(2 * m) && Ones(4 * m + 2) == Ones(2 * m + 1);
  }

  /** If the parent's skip is better by more than two, taking it clears a bit more than it costs steps. */
  lemma BetterSkip(x: nat)
    requires x > 2 && x % 2 == 0 && InvertLowestOne(x - 2) > 0
    requires InvertLowestOne(InvertLowestOne(x - 2)) + 1 < InvertLowestOne(x) - 2
    ensures Ones(InvertLowestOne(InvertLowestOne(x - 2)) + 1) <= Ones(x) - 1
  {
    hide InvertLowestOne, Ones, LowestOne;
    OnesTwice(x - 2);
    if x % 8 != 0 { OnesBelow(x); } else { NotBetter(x / 8); }
  }

  lemma NotBetter(m: nat)
    requires m > 0
    ensures InvertLowestOne(InvertLowestOne(8 * m - 2)) == 8 * m - 8 && InvertLowestOne(8 * m) <= 8 * m - 8
  {
    hide InvertLowestOne, LowestOne;
    BelowEight(m);
    LowestEight(m);
    InvertLowestOneIs(8 * m);
  }

  lemma BelowEight(m: nat)
    requires m > 0
    ensures InvertLowestOne(InvertLowestOne(8 * m - 2)) == 8 * m - 8
  {
    hide InvertLowestOne, LowestOne;
    InvertLowestOneIs(8 * m - 2);
    LowestTwo(2 * m - 1);
    InvertLowestOneIs(8 * m - 4);
    LowestFour(m - 1);
  }

  lemma LowestTwo(m: nat)
    ensures LowestOne(4 * m + 2) == 2
  {
    assert (4 * m + 2) / 2 == 2 * m + 1;
  }

  lemma LowestFour(m: nat)
    ensures LowestOne(8 * m + 4) == 4
  {
    assert (8 * m + 4) / 2 == 4 * m + 2;
    LowestTwo(m);
  }

  lemma LowestEight(m: nat)
    requires m > 0
    ensures LowestOne(8 * m) >= 8
  {
    InvertLowestOneIs(m);
    assert LowestOne(2 * m) == 2 * LowestOne(m) && LowestOne(4 * m) == 2 * LowestOne(2 * m);
    assert (8 * m) / 2 == 4 * m;
  }

  // ---------------------------------------------------------------- the bound

  lemma OddNext(low: nat, k: nat, x: nat, target: nat)
    requires low % Pow2(k + 1) == 0 && x < Pow2(k) && x % 2 == 1 && low <= target < low + Pow2(k)
    ensures var b, z, n := low + Pow2(k), x - 1, NextHeight(low + Pow2(k) + x, target);
      if z > 0 && InvertLowestOne(z) > 0
      then n == b + InvertLowestOne(InvertLowestOne(z)) + 1
      else n < b || n == b + z
  {
    var z := x - 1;
    SkipOdd(low, k, x);
    if z > 0 && InvertLowestOne(z) > 0 {
      SkipEven(low, k, z);
      InvertLowestOneIs(InvertLowestOne(z));
    }
    EvenPower(k, x);
    hide GetSkipHeight, InvertLowestOne, Pow2;
  }

  /** A skip to just above the target is taken. */
  lemma ShortSkip(low: nat, n: nat, target: nat)
    requires low <= target < n && target <= GetSkipHeight(n) <= low + 1
    ensures NextHeight(n, target) == GetSkipHeight(n)
  {
    hide GetSkipHeight;
  }

  /** From an even height either the skip is taken, which clears one bit, or the parent and then its skip, which leads
      below or clears at least one bit in two steps. */
  lemma EvenNext(low: nat, k: nat, x: nat, target: nat)
    requires low % Pow2(k + 1) == 0 && 0 < x < Pow2(k) && x % 2 == 0 && low <= target < low + Pow2(k)
    ensures var b, n := low + Pow2(k), NextHeight(low + Pow2(k) + x, target);
      n == b + InvertLowestOne(x)
      || (n == b + x - 1
          && (var n2 := NextHeight(n, target); n2 < b || (n2 - b < x && Ones(n2 - b) <= Ones(x) - 1)))
  {
    hide InvertLowestOne, Ones, GetSkipHeight;
    SkipEven(low, k, x);
    SkipOdd(low, k, x - 1);
    OddNext(low, k, x - 1, target);
    EvenPower(k, x);
    var b, z := low + Pow2(k), x - 2;
    hide Pow2;
    var n := NextHeight(b + x, target);
    if n != b + InvertLowestOne(x) {
      assert n == b + x - 1 && GetSkipHeight(n) < b + InvertLowestOne(x) - 2 && GetSkipHeight(n) >= target;
      if z > 0 && InvertLowestOne(z) > 0 {
        BetterSkip(x);
        InvertLowestOneIs(z);
        InvertLowestOneIs(InvertLowestOne(z));
      } else {
        ShortSkip(low, n, target);
        assert b >= low + 2;
      }
    }
  }

  lemma OneStep(h: nat, target: nat)
    requires target < h
    ensures Steps(h, target) == 1 + Steps(NextHeight(h, target), target)
  {}

  ghost predicate StepsBelow(b: nat, target: nat, c: nat) {
    forall h | target <= h < b :: Steps(h, target) <= c
  }

  /** The steps that are taken at or above a height with a one bit where the target has none, once steps below it are
      bounded. */
  lemma {:induction false} StepsAbove(low: nat, k: nat, x: nat, target: nat, c: nat)
    requires low % Pow2(k + 1) == 0 && x < Pow2(k) && low <= target < low + Pow2(k)
    requires StepsBelow(low + Pow2(k), target, c)
    ensures Steps(low + Pow2(k) + x, target) <= 2 * Ones(x) + 1 + c
    decreases x, 1
  {
    hide InvertLowestOne, Ones, NextHeight, Pow2, Steps;
    if x == 0 {
      OneStep(low + Pow2(k), target);
    } else if x % 2 == 0 {
      EvenAbove(low, k, x, target, c);
    } else {
      OddAbove(low, k, x, target, c);
    }
  }

  lemma {:induction false} EvenAbove(low: nat, k: nat, x: nat, target: nat, c: nat)
    requires low % Pow2(k + 1) == 0 && 0 < x < Pow2(k) && low <= target < low + Pow2(k) && x % 2 == 0
    requires StepsBelow(low + Pow2(k), target, c)
    ensures Steps(low + Pow2(k) + x, target) <= 2 * Ones(x) + 1 + c
    decreases x, 0
  {
    hide InvertLowestOne, Ones, NextHeight, Pow2, Steps, GetSkipHeight;
    var b := low + Pow2(k);
    var n := NextHeight(b + x, target);
    OneStep(b + x, target);
    EvenNext(low, k, x, target);
    SkipEven(low, k, x);
    if n == b + InvertLowestOne(x) {
      StepsAbove(low, k, InvertLowestOne(x), target, c);
    } else {
      OneStep(n, target);
      var n2 := NextHeight(n, target);
      if n2 >= b { StepsAbove(low, k, n2 - b, target, c); }
    }
  }

  lemma {:induction false} OddAbove(low: nat, k: nat, x: nat, target: nat, c: nat)
    requires low % Pow2(k + 1) == 0 && x < Pow2(k) && low <= target < low + Pow2(k) && x % 2 == 1
    requires StepsBelow(low + Pow2(k), target, c)
    ensures Steps(low + Pow2(k) + x, target) <= 2 * Ones(x) + 1 + c
    decreases x, 0
  {
    hide InvertLowestOne, Ones, NextHeight, Pow2, Steps, GetSkipHeight;
    var b, z := low + Pow2(k), x - 1;
    var n := NextHeight(b + x, target);
    OneStep(b + x, target);
    OddNext(low, k, x, target);
    OddOnes(z);
    if z > 0 && InvertLowestOne(z) > 0 {
      OnesTwice(z);
      InvertLowestOneIs(z);
      InvertLowestOneIs(InvertLowestOne(z));
      StepsAbove(low, k, InvertLowestOne(InvertLowestOne(z)) + 1, target, c);
    } else if n >= b {
      StepsAbove(low, k, z, target, c);
    }
  }

  lemma {:induction false} StepsWithin(low: nat, m: nat, h: nat, target: nat)
    requires low % Pow2(m) == 0 && low <= target <= h < low + Pow2(m)
    ensures Steps(h, target) <= m * m
    decreases m
  {
    if m > 0 {
      var k := m - 1;
      var p := Pow2(k);
      MultipleDown(low, k);
      assert Pow2(m) == 2 * p;
      Square(m);
      hide Pow2, Steps;
      if h < low + p {
        StepsWithin(low, k, h, target);
      } else if target >= low + p {
        StepsWithin(low + p, k, h, target);
      } else {
        forall h' | target <= h' < low + p ensures Steps(h', target) <= k * k { StepsWithin(low, k, h', target); }
        StepsAbove(low, k, h - low - p, target, k * k);
        OnesBound(h - low - p, k);
      }
    }
  }

  lemma Square(m: nat)
    requires m > 0
    ensures (m - 1) * (m - 1) + 2 * (m - 1) + 1 == m * m
  {}

  /** From any height below 2^m the search reaches any lower height in at most m * m steps. */
  lemma StepsBound(h: nat, target: nat, m: nat)
    requires target <= h < Pow2(m)
    ensures Steps(h, target) <= m * m
  {
    StepsWithin(0, m, h, target);
  }
}
