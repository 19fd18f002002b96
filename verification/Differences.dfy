/** Differential lists of indexes, as used by requests for block transactions (section "BlockTransactionsRequest"
    of BIP 152). The stream is a list of numbers; how one number is written as bytes is not modelled. */
module Differences {
  import opened Options

  const MAX: nat := 0xffff_ffff_ffff_ffff

  type U64 = n: nat | n <= MAX

  /** The least value the next element may have. */
  ghost function Next(xs: seq<U64>): nat {
    if xs == [] then 0 else (xs[|xs| - 1] as int) + 1
  }

  /** Strictly increasing, and below the largest 64-bit number. */
  ghost predicate Rising(xs: seq<U64>) {
    xs == [] || (Rising(xs[..|xs| - 1]) && Next(xs[..|xs| - 1]) <= xs[|xs| - 1] < MAX)
  }

  /** How far each element lies beyond the least value it could have. */
  ghost function Gaps(xs: seq<U64>): (r: seq<U64>)
    requires Rising(xs)
    ensures |r| == |xs|
  {
    if xs == [] then []
    else var front := xs[..|xs| - 1]; Gaps(front) + [xs[|xs| - 1] - Next(front)]
  }

  lemma RisingSnoc(xs: seq<U64>, v: U64)
    ensures Rising(xs + [v]) <==> Rising(xs) && Next(xs) <= v < MAX
    ensures Rising(xs + [v]) ==> Gaps(xs + [v]) == Gaps(xs) + [v - Next(xs)]
  {
    assert (xs + [v])[..|xs|] == xs;
  }

  /** Only one list has given gaps. */
  lemma {:induction false} GapsInjective(xs: seq<U64>, ys: seq<U64>)
    requires Rising(xs) && Rising(ys) && Gaps(xs) == Gaps(ys)
    ensures xs == ys
    decreases |xs|
  {
    if xs != [] {
      var a, b := xs[..|xs| - 1], ys[..|ys| - 1];
      assert Gaps(a) == Gaps(xs)[..|a|] && Gaps(b) == Gaps(ys)[..|b|];
      GapsInjective(a, b);
      assert xs == a + [xs[|a|]] && ys == b + [ys[|b|]];
      assert Gaps(xs)[|a|] == xs[|a|] - Next(a) && Gaps(ys)[|b|] == ys[|b|] - Next(b);
    }
  }

  lemma {:induction false} RisingPrefix(xs: seq<U64>, n: nat)
    requires n <= |xs| && Rising(xs)
    ensures Rising(xs[..n]) && Gaps(xs[..n]) == Gaps(xs)[..n]
    decreases |xs|
  {
    if n < |xs| {
      var front := xs[..|xs| - 1];
      RisingPrefix(front, n);
      assert front[..n] == xs[..n];
    } else {
      assert xs[..n] == xs;
    }
  }

  class DifferenceFormatter {
    var shift: U64

    constructor ()
      ensures shift == 0
    {
      shift := 0;
    }

    /** Writes one element, or fails. */
    method Ser(v: U64) returns (n: Option<U64>)
      modifies this
      ensures n == if old(shift) <= v < MAX then Some(v - old(shift)) else None
      ensures n.Some? ==> shift == v + 1
    {
      if v < shift || v >= MAX { return None; }
      n := Some(v - shift);
      shift := v + 1;
    }

    /** Reads one element of a type with the given largest value, or fails. */
    method Unser(n: U64, max: U64) returns (v: Option<U64>)
      modifies this
      ensures v == if old(shift) + n < MAX && old(shift) + n <= max then Some(old(shift) + n) else None
      ensures v.Some? ==> shift == v.value + 1
    {
      shift := (shift + n) % (MAX + 1);
      if shift < n || shift >= MAX || shift > max { return None; }
      v := Some(shift);
      shift := shift + 1;
    }
  }

  method WriteIndexes(xs: seq<U64>) returns (r: Option<seq<U64>>)
    ensures r == if Rising(xs) then Some(Gaps(xs)) else None
  {
    var f := new DifferenceFormatter();
    var ns: seq<U64> := [];
    for i := 0 to |xs|
      invariant Rising(xs[..i]) && ns == Gaps(xs[..i]) && f.shift == Next(xs[..i])
    {
      RisingSnoc(xs[..i], xs[i]);
      assert xs[..i + 1] == xs[..i] + [xs[i]];
      var n := f.Ser(xs[i]);
      if n.None? {
        if Rising(xs) { RisingPrefix(xs, i + 1); }
        return None;
      }
      ns := ns + [n.value];
    }
    assert xs[..|xs|] == xs;
    r := Some(ns);
  }

  /** Reading accepts exactly the streams that writing a rising list within the type produces, and returns
      that list. */
  method ReadIndexes(ns: seq<U64>, max: U64) returns (r: Option<seq<U64>>)
    ensures forall xs :: r == Some(xs) <==> Rising(xs) && Gaps(xs) == ns && forall i | 0 <= i < |xs| :: xs[i] <= max
  {
    var f := new DifferenceFormatter();
    var vs: seq<U64> := [];
    for i := 0 to |ns|
      invariant Rising(vs) && Gaps(vs) == ns[..i] && f.shift == Next(vs)
      invariant forall k | 0 <= k < |vs| :: vs[k] <= max
    {
      var v := f.Unser(ns[i], max);
      if v.None? {
        forall xs | Rising(xs) && Gaps(xs) == ns ensures exists k | 0 <= k < |xs| :: xs[k] > max {
          NextTooLarge(vs, xs, i, max);
        }
        return None;
      }
      RisingSnoc(vs, v.value);
      vs := vs + [v.value];
    }
    assert ns[..|ns|] == ns;
    forall xs | Rising(xs) && Gaps(xs) == ns ensures xs == vs { GapsInjective(xs, vs); }
    r := Some(vs);
  }

  lemma NextTooLarge(vs: seq<U64>, xs: seq<U64>, i: nat, max: U64)
    requires Rising(xs) && i < |xs| && Rising(vs) && Gaps(vs) == Gaps(xs)[..i]
    requires !(Next(vs) + Gaps(xs)[i] < MAX && Next(vs) + Gaps(xs)[i] <= max)
    ensures exists k | 0 <= k < |xs| :: xs[k] > max
  {
    RisingPrefix(xs, i);
    GapsInjective(xs[..i], vs);
    RisingPrefix(xs, i + 1);
    assert xs[..i + 1][..i] == xs[..i];
    assert Gaps(xs)[..i + 1][i] == Gaps(xs)[i] == xs[i] - Next(vs);
    assert xs[i] > max;
  }
}
