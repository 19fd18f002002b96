/** The block tree with its skip pointers, and the active chain: the fast searches agree with plain
    walking along the parent links. */
module Chain {
  import opened Arith
  import opened SkipHeights

  // ---------------------------------------------------------------- the block tree

  class BlockIndex {
    const hash: nat
    const pprev: BlockIndex?
    const nHeight: nat
    var pskip: BlockIndex?
    /** This block and all blocks below it. */
    ghost const line: set<BlockIndex>

    /** The block hangs off its parent at the next height. */
    ghost predicate Wf()
      decreases nHeight
    {
      && (pprev == null ==> nHeight == 0 && line == {this})
      && (pprev != null ==> nHeight == pprev.nHeight + 1 && line == {this} + pprev.line && pprev.Wf())
    }

    /** Walking parent links down to height `h`. */
    ghost function Ancestor(h: nat): BlockIndex
      requires Wf() && h <= nHeight
      decreases nHeight
    {
      if h == nHeight then this else pprev.Ancestor(h)
    }

    ghost predicate SkipOk()
      requires Wf()
      reads this
    {
      pskip != null ==> nHeight > 0 && (SkipHeightBelow(nHeight); pskip == Ancestor(GetSkipHeight(nHeight)))
    }

    /** Every skip pointer on the way down is right, if it is set at all. */
    ghost predicate Valid()
      reads line
    {
      Wf() && (forall b | b in line :: b.Wf()) && forall b | b in line :: b.SkipOk()
    }

    /** BuildSkip has been called on every block that has a parent. */
    ghost predicate Built()
      reads line
    {
      Valid() && forall b | b in line && b.nHeight > 0 :: b.pskip != null
    }

    constructor (hash: nat, prev: BlockIndex?)
      requires prev != null ==> prev.Wf()
      ensures Wf() && this.hash == hash && pprev == prev && pskip == null
    {
      this.hash := hash;
      pprev := prev;
      nHeight := if prev == null then 0 else prev.nHeight + 1;
      pskip := null;
      line := {this} + if prev == null then {} else prev.line;
    }

    /** What the set of ancestors is: the blocks found by walking. */
    lemma LineIs(b: BlockIndex)
      requires Wf()
      ensures b in line ==> b.Wf() && b.nHeight <= nHeight && Ancestor(b.nHeight) == b
      decreases nHeight
    {
      if b in line && b != this { pprev.LineIs(b); }
    }

    lemma AncestorIs(h: nat)
      requires Wf() && h <= nHeight
      ensures Ancestor(h).nHeight == h && Ancestor(h).Wf() && Ancestor(h) in line && Ancestor(h).line <= line
      decreases nHeight
    {
      if h < nHeight { pprev.AncestorIs(h); }
    }

    /** Walking in two stages. */
    lemma AncestorTwice(h: nat, g: nat)
      requires Wf() && g <= h <= nHeight
      ensures Ancestor(h).Wf() && Ancestor(h).nHeight == h && Ancestor(h).Ancestor(g) == Ancestor(g)
      decreases nHeight
    {
      if h < nHeight { pprev.AncestorTwice(h, g); }
    }

    /** An ancestor at or below height `h` is an ancestor of the ancestor at height `h`. */
    lemma LineBelow(b: BlockIndex, h: nat)
      requires Wf() && h <= nHeight && b in line && b.nHeight <= h
      ensures b in Ancestor(h).line
    {
      LineIs(b);
      AncestorTwice(h, b.nHeight);
      Ancestor(h).AncestorIs(b.nHeight);
    }

    /** Skip pointers wherever they help, parent links otherwise; the result is that of walking
        parent links only, even while some skip pointers are not set yet. */
    method GetAncestor(height: int) returns (r: BlockIndex?, ghost steps: nat)
      requires Valid()
      ensures r == if 0 <= height <= nHeight then Ancestor(height) else null
      ensures Built() && 0 <= height <= nHeight ==> steps == Steps(nHeight, height)
      ensures Built() ==> forall m: nat | nHeight < Pow2(m) :: steps <= m * m
    {
      hide GetSkipHeight, Pow2;
      steps := 0;
      if Built() && 0 <= height <= nHeight {
        forall m: nat | nHeight < Pow2(m) ensures Steps(nHeight, height) <= m * m { StepsBound(nHeight, height, m); }
      }
      if height > nHeight || height < 0 {
        return null, 0;
      }
      var walk: BlockIndex := this;
      var heightWalk := nHeight;
      while heightWalk > height
        invariant height <= heightWalk <= nHeight && walk.Wf() && walk.nHeight == heightWalk
        invariant walk in line && walk == Ancestor(heightWalk)
        invariant Built() ==> steps + Steps(heightWalk, height) == Steps(nHeight, height)
        decreases heightWalk
      {
        SkipHeightBelow(heightWalk);
        var heightSkip := GetSkipHeight(heightWalk);
        var heightSkipPrev := GetSkipHeight(heightWalk - 1);
        assert walk.SkipOk();
        AncestorTwice(heightWalk, heightSkip);
        AncestorTwice(heightWalk, heightWalk - 1);
        if walk.pskip != null &&
           (heightSkip == height ||
            (heightSkip > height && !(heightSkipPrev < heightSkip - 2 && heightSkipPrev >= height))) {
          AncestorIs(heightSkip);
          walk := walk.pskip;
          heightWalk := heightSkip;
        } else {
          AncestorIs(heightWalk - 1);
          walk := walk.pprev;
          heightWalk := heightWalk - 1;
        }
        steps := steps + 1;
      }
      return walk, steps;
    }

    method BuildSkip()
      requires Wf() && SkipOk() && (pprev != null ==> pprev.Built())
      modifies `pskip
      ensures Built()
    {
      if pprev != null {
        SkipHeightBelow(nHeight);
        assert this !in pprev.line by { pprev.LineIs(this); }
        var up, steps := pprev.GetAncestor(GetSkipHeight(nHeight));
        pskip := up;
        assert SkipOk();
      }
      forall b | b in line ensures b.Wf() && b.SkipOk() {
        LineIs(b);
      }
    }
  }

  /** `a` is `b` or lies below it. */
  ghost predicate Common(a: BlockIndex, pa: BlockIndex, pb: BlockIndex) {
    a in pa.line && a in pb.line
  }

  /** Different blocks of one height with different skip targets part above those targets. */
  lemma CommonBelowSkip(a: BlockIndex, pa: BlockIndex, pb: BlockIndex)
    requires pa.Built() && pb.Built() && pa.nHeight == pb.nHeight > 0 && pa.pskip != pb.pskip && Common(a, pa, pb)
    ensures pa.pskip != null && pb.pskip != null && Common(a, pa.pskip, pb.pskip)
  {
    assert pa in pa.line && pb in pb.line;
    assert pa.SkipOk() && pb.SkipOk();
    var h := GetSkipHeight(pa.nHeight);
    SkipHeightBelow(pa.nHeight);
    pa.LineIs(a);
    pb.LineIs(a);
    if a.nHeight >= h {
      pa.AncestorTwice(a.nHeight, h);
      pb.AncestorTwice(a.nHeight, h);
      assert false;
    }
    pa.LineBelow(a, h);
    pb.LineBelow(a, h);
  }

  /** Different blocks of one height have the same common ancestors as their parents. */
  lemma CommonBelowPrev(a: BlockIndex, pa: BlockIndex, pb: BlockIndex)
    requires pa.Wf() && pb.Wf() && pa.nHeight == pb.nHeight && pa != pb && Common(a, pa, pb)
    ensures pa.pprev != null && pb.pprev != null && Common(a, pa.pprev, pb.pprev)
  {
    pa.LineIs(a);
    pb.LineIs(a);
  }

  lemma BuiltBelow(b: BlockIndex, c: BlockIndex)
    requires b.Built() && c in b.line
    ensures c.Built() && c.line <= b.line
  {
    b.LineIs(c);
    b.AncestorIs(c.nHeight);
  }

  /** Blocks of one height have skip pointers of one height. */
  lemma EqualSkipHeights(pa: BlockIndex, pb: BlockIndex)
    requires pa.Built() && pb.Built() && pa.nHeight == pb.nHeight
    ensures pa.pskip == null <==> pb.pskip == null
    ensures pa.pskip != null && pb.pskip != null ==>
      pa.pskip.nHeight == pb.pskip.nHeight < pa.nHeight && pa.pskip in pa.line && pb.pskip in pb.line
  {
    assert pa in pa.line && pb in pb.line;
    assert pa.SkipOk() && pb.SkipOk();
    if pa.nHeight > 0 {
      SkipHeightBelow(pa.nHeight);
      pa.AncestorIs(GetSkipHeight(pa.nHeight));
      pb.AncestorIs(GetSkipHeight(pa.nHeight));
    }
  }

  /** The search has come down to `pa` and `pb` without passing a common ancestor of the blocks it
      started from. */
  ghost predicate Brackets(pa: BlockIndex, pb: BlockIndex, blockA: BlockIndex, blockB: BlockIndex)
    reads pa.line, pb.line
  {
    && pa.Built() && pb.Built() && pa.nHeight == pb.nHeight
    && pa in blockA.line && pb in blockB.line && pa.line <= blockA.line && pb.line <= blockB.line
    && forall a | a in blockA.line && Common(a, blockA, blockB) :: Common(a, pa, pb)
  }

  lemma BracketsStart(blockA: BlockIndex, blockB: BlockIndex)
    requires blockA.Built() && blockB.Built()
    ensures var h := if blockA.nHeight < blockB.nHeight then blockA.nHeight else blockB.nHeight;
      Brackets(blockA.Ancestor(h), blockB.Ancestor(h), blockA, blockB)
  {
    var h := if blockA.nHeight < blockB.nHeight then blockA.nHeight else blockB.nHeight;
    blockA.AncestorIs(h);
    blockB.AncestorIs(h);
    BuiltBelow(blockA, blockA.Ancestor(h));
    BuiltBelow(blockB, blockB.Ancestor(h));
    forall a | a in blockA.line && Common(a, blockA, blockB) ensures Common(a, blockA.Ancestor(h), blockB.Ancestor(h)) {
      blockA.LineIs(a);
      blockB.LineIs(a);
      blockA.LineBelow(a, h);
      blockB.LineBelow(a, h);
    }
  }

  lemma BracketsSkip(pa: BlockIndex, pb: BlockIndex, blockA: BlockIndex, blockB: BlockIndex)
    requires Brackets(pa, pb, blockA, blockB) && pa.pskip != pb.pskip
    ensures pa.pskip != null && pb.pskip != null && pa.pskip.nHeight < pa.nHeight
    ensures Brackets(pa.pskip, pb.pskip, blockA, blockB)
  {
    EqualSkipHeights(pa, pb);
    BuiltBelow(pa, pa.pskip);
    BuiltBelow(pb, pb.pskip);
    forall a | a in blockA.line && Common(a, blockA, blockB) ensures Common(a, pa.pskip, pb.pskip) {
      CommonBelowSkip(a, pa, pb);
    }
  }

  lemma BracketsPrev(pa: BlockIndex, pb: BlockIndex, blockA: BlockIndex, blockB: BlockIndex)
    requires Brackets(pa, pb, blockA, blockB) && pa != pb
    ensures pa.pprev == null <==> pb.pprev == null
    ensures pa.pprev != null ==> Brackets(pa.pprev, pb.pprev, blockA, blockB) && pa.pprev.nHeight < pa.nHeight
    ensures pa.pprev == null ==> forall a | a in blockA.line :: !Common(a, blockA, blockB)
  {
    forall a | a in blockA.line && Common(a, blockA, blockB)
      ensures pa.pprev != null && Common(a, pa.pprev, pb.pprev)
    {
      CommonBelowPrev(a, pa, pb);
    }
    if pa.pprev != null {
      pa.pprev.AncestorIs(pa.pprev.nHeight);
      pb.pprev.AncestorIs(pb.pprev.nHeight);
      BuiltBelow(pa, pa.pprev);
      BuiltBelow(pb, pb.pprev);
    }
  }

  /** The highest block that is an ancestor of both, or null when they share none. */
  method LastCommonAncestor(blockA: BlockIndex, blockB: BlockIndex) returns (r: BlockIndex?)
    requires blockA.Built() && blockB.Built()
    ensures r == null ==> forall a | a in blockA.line :: !Common(a, blockA, blockB)
    ensures r != null ==> Common(r, blockA, blockB)
    ensures r != null ==>
        forall a | a in blockA.line && Common(a, blockA, blockB) :: a.nHeight <= r.nHeight && a in r.line
  {
    assert blockA.Valid() && blockB.Valid();
    BracketsStart(blockA, blockB);
    hide Brackets, BlockIndex.Built, BlockIndex.Valid;
    var pa: BlockIndex?, pb: BlockIndex? := blockA, blockB;
    if blockA.nHeight > blockB.nHeight {
      var up, steps := blockA.GetAncestor(blockB.nHeight);
      pa := up;
    } else if blockB.nHeight > blockA.nHeight {
      var up, steps := blockB.GetAncestor(blockA.nHeight);
      pb := up;
    }
    while pa != pb
      invariant pa == null <==> pb == null
      invariant pa != null ==> Brackets(pa, pb, blockA, blockB)
      invariant pa == null ==> forall a | a in blockA.line :: !Common(a, blockA, blockB)
      decreases if pa == null then 0 else pa.nHeight + 1
    {
      ghost var height := pa.nHeight;
      while pa.pskip != pb.pskip
        invariant pa != null && pb != null && Brackets(pa, pb, blockA, blockB) && pa != pb && pa.nHeight <= height
        decreases pa.nHeight
      {
        BracketsSkip(pa, pb, blockA, blockB);
        pa := pa.pskip;
        pb := pb.pskip;
      }
      BracketsPrev(pa, pb, blockA, blockB);
      pa := pa.pprev;
      pb := pb.pprev;
    }
    if pa != null { BracketsEnd(pa, blockA, blockB); }
    return pa;
  }

  lemma BracketsEnd(p: BlockIndex, blockA: BlockIndex, blockB: BlockIndex)
    requires Brackets(p, p, blockA, blockB)
    ensures Common(p, blockA, blockB)
    ensures forall a | a in blockA.line && Common(a, blockA, blockB) :: a.nHeight <= p.nHeight && a in p.line
  {
    forall a | a in blockA.line && Common(a, blockA, blockB) ensures a.nHeight <= p.nHeight {
      p.LineIs(a);
    }
  }

  // ---------------------------------------------------------------- the active chain

  /** `chain` lists the ancestors of its last block by height. */
  ghost predicate IsChain(chain: seq<BlockIndex?>) {
    chain != [] ==>
      && chain[|chain| - 1] != null && chain[|chain| - 1].Wf() && chain[|chain| - 1].nHeight == |chain| - 1
      && forall i | 0 <= i < |chain| :: chain[i] == chain[|chain| - 1].Ancestor(i)
  }

  /** Below a block of the chain the chain holds that block's ancestors. */
  lemma ChainBelow(chain: seq<BlockIndex?>, b: BlockIndex, i: nat)
    requires IsChain(chain) && b.Wf() && b.nHeight < |chain| && chain[b.nHeight] == b && i <= b.nHeight
    ensures chain[i] == b.Ancestor(i)
  {
    var tip := chain[|chain| - 1];
    tip.AncestorTwice(b.nHeight, i);
  }

  class ActiveChain {
    var vChain: seq<BlockIndex?>

    ghost predicate Valid()
      reads this
    {
      IsChain(vChain)
    }

    constructor ()
      ensures Valid() && vChain == []
    {
      vChain := [];
    }

    function Height(): int
      reads this
    {
      |vChain| - 1
    }

    /** operator[]: null outside the chain. */
    function At(height: int): BlockIndex?
      reads this
    {
      if height < 0 || height >= |vChain| then null else vChain[height]
    }

    predicate Contains(b: BlockIndex)
      reads this
    {
      At(b.nHeight) == b
    }

    /** Cuts or extends the vector to the new height and rewrites it from the top, but only down to
        the first block that is already in place; every index then holds the tip's ancestor. */
    method SetTip(block: BlockIndex)
      requires Valid() && block.Wf()
      modifies this
      ensures Valid() && |vChain| == block.nHeight + 1
      ensures forall i | 0 <= i <= block.nHeight :: vChain[i] == block.Ancestor(i)
    {
      ghost var was := vChain;
      var p: BlockIndex? := block;
      var size := block.nHeight + 1;
      vChain := if size <= |vChain| then vChain[..size] else vChain + seq(size - |vChain|, _ => null);
      while p != null && vChain[p.nHeight] != p
        invariant |vChain| == block.nHeight + 1
        invariant p != null ==> p.Wf() && p.nHeight <= block.nHeight && p == block.Ancestor(p.nHeight)
        invariant forall i | 0 <= i <= block.nHeight && (p == null || p.nHeight < i) :: vChain[i] == block.Ancestor(i)
        invariant p != null ==> forall i | 0 <= i <= p.nHeight :: vChain[i] == if i < |was| then was[i] else null
        decreases if p == null then 0 else p.nHeight + 1
      {
        if p.nHeight > 0 { block.AncestorTwice(p.nHeight, p.nHeight - 1); }
        vChain := vChain[p.nHeight := p];
        p := p.pprev;
      }
      if p != null {
        forall i | 0 <= i <= p.nHeight ensures vChain[i] == block.Ancestor(i) {
          ChainBelow(was, p, i);
          block.AncestorTwice(p.nHeight, i);
        }
      }
    }

    /** The highest block that is in the chain and an ancestor of `b`, or null when there is none. */
    method FindFork(b: BlockIndex?) returns (r: BlockIndex?)
      requires Valid() && (b != null ==> b.Valid())
      ensures b == null ==> r == null
      ensures b != null && r == null ==> forall a | a in b.line :: !Contains(a)
      ensures b != null && r != null ==> r in b.line && Contains(r)
      ensures b != null && r != null ==> forall a | a in b.line && Contains(a) :: a.nHeight <= r.nHeight
    {
      if b == null {
        return null;
      }
      r := b;
      if b.nHeight > Height() {
        var up, steps := b.GetAncestor(Height());
        r := up;
      }
      ghost var h := if b.nHeight > Height() then Height() else b.nHeight;
      forall a | a in b.line && Contains(a) ensures r != null && a in r.line {
        b.LineIs(a);
        b.LineBelow(a, h);
      }
      if r != null { b.AncestorIs(h); }
      while r != null && !Contains(r)
        invariant r != null ==> r.Wf() && r in b.line && r.line <= b.line
        invariant forall a | a in b.line && Contains(a) :: r != null && a in r.line
        decreases if r == null then 0 else r.nHeight + 1
      {
        if r.pprev != null { r.pprev.AncestorIs(r.pprev.nHeight); }
        r := r.pprev;
      }
      if r != null {
        forall a | a in b.line && Contains(a) ensures a.nHeight <= r.nHeight { r.LineIs(a); }
      }
    }
  }

  // ---------------------------------------------------------------- locators

  /** The heights of a locator that has `n` entries so far: ten single steps, then doubling ones. */
  function LocatorHeights(h: nat, step: nat, n: nat): seq<nat>
    requires step > 0
    decreases h
  {
    if h == 0 then [0]
    else [h] + LocatorHeights(if h > step then h - step else 0, if n + 1 > 10 then 2 * step else step, n + 1)
  }

  /** A locator starts at the block, falls strictly, and ends at the genesis block. */
  lemma {:induction false} LocatorShape(h: nat, step: nat, n: nat)
    requires step > 0
    ensures var hs := LocatorHeights(h, step, n);
      && |hs| > 0 && hs[0] == h && hs[|hs| - 1] == 0
      && (forall i | 0 <= i < |hs| :: hs[i] <= h)
      && (forall i | 0 < i < |hs| :: hs[i] < hs[i - 1])
    decreases h
  {
    if h > 0 {
      var h' := if h > step then h - step else 0;
      LocatorShape(h', if n + 1 > 10 then 2 * step else step, n + 1);
    }
  }

  lemma HalfPower(m: nat)
    requires m > 0
    ensures Pow2(m) == 2 * Pow2(m - 1) && Pow2(m - 1) > 0
  {}

  lemma NoSteps(step: nat, m: nat)
    requires step * (Pow2(m) - 1) > 0
    ensures m > 0
  {}

  /** Doubling steps cover the rest in logarithmically many entries. */
  lemma {:induction false} LocatorTail(h: nat, step: nat, n: nat, m: nat)
    requires step > 0 && n >= 10 && h <= step * (Pow2(m) - 1)
    ensures |LocatorHeights(h, step, n)| <= m + 1
    decreases h
  {
    hide Pow2;
    if h > 0 {
      NoSteps(step, m);
      var p := Pow2(m - 1);
      HalfPower(m);
      StepsAdd(step, p);
      LocatorTail(if h > step then h - step else 0, 2 * step, n + 1, m - 1);
    }
  }

  /** Where the entries lie once steps double. */
  lemma {:induction false} DoublingAt(h: nat, step: nat, n: nat, i: nat)
    requires step > 0 && n >= 10 && i + 1 < |LocatorHeights(h, step, n)|
    ensures LocatorHeights(h, step, n)[i] + step * (Pow2(i) - 1) == h
    decreases i
  {
    if i > 0 {
      var h' := if h > step then h - step else 0;
      assert LocatorHeights(h, step, n)[i] == LocatorHeights(h', 2 * step, n + 1)[i - 1];
      DoublingAt(h', 2 * step, n + 1, i - 1);
      LocatorShape(h', 2 * step, n + 1);
      StepsAdd(step, Pow2(i - 1));
    }
  }

  lemma StepsAdd(step: nat, p: nat)
    requires p > 0
    ensures step + 2 * step * (p - 1) == step * (2 * p - 1)
  {}

  /** The heights of a locator: the block and the ten before it, and then steps of 1, 2, 4, 8 and so on; the last is
      the genesis block. */
  lemma {:induction false} LocatorAt(h: nat, n: nat, i: nat)
    requires n <= 10 && i + 1 < |LocatorHeights(h, 1, n)|
    ensures LocatorHeights(h, 1, n)[i] == if n + i <= 10 then h - i else h - (10 - n) - (Pow2(n + i - 10) - 1)
    decreases i
  {
    if n == 10 {
      DoublingAt(h, 1, n, i);
    } else if i > 0 {
      assert LocatorHeights(h, 1, n)[i] == LocatorHeights(if h > 1 then h - 1 else 0, 1, n + 1)[i - 1];
      LocatorAt(h - 1, n + 1, i - 1);
    }
  }

  /** At most eleven entries more than the number of bits of the height. */
  lemma {:induction false} LocatorLength(h: nat, n: nat, m: nat)
    requires n <= 10 && h < Pow2(m) + (10 - n)
    ensures |LocatorHeights(h, 1, n)| <= m + 1 + (10 - n)
    decreases h
  {
    if n == 10 {
      LocatorTail(h, 1, n, m);
    } else if h > 0 {
      LocatorLength(h - 1, n + 1, m);
    }
  }

  /** The locator from an ancestor's height on. */
  ghost function LocatorHashes(b: BlockIndex, h: nat, step: nat, n: nat): seq<nat>
    requires b.Wf() && h <= b.nHeight && step > 0
    decreases h
  {
    [b.Ancestor(h).hash]
    + if h == 0 then []
      else LocatorHashes(b, if h > step then h - step else 0, if n + 1 > 10 then 2 * step else step, n + 1)
  }

  /** It lists the hashes of the block's ancestors at the locator's heights. */
  lemma {:induction false} LocatorHashesAt(b: BlockIndex, h: nat, step: nat, n: nat)
    requires b.Wf() && h <= b.nHeight && step > 0
    ensures var heights := LocatorHeights(h, step, n);
            |LocatorHashes(b, h, step, n)| == |heights|
            && forall i | 0 <= i < |heights| ::
              heights[i] <= b.nHeight && LocatorHashes(b, h, step, n)[i] == b.Ancestor(heights[i]).hash
    decreases h
  {
    hide BlockIndex.Wf, BlockIndex.Ancestor;
    if h > 0 {
      var h', step' := if h > step then h - step else 0, if n + 1 > 10 then 2 * step else step;
      LocatorHashesAt(b, h', step', n + 1);
      var hs, rest := LocatorHeights(h', step', n + 1), LocatorHashes(b, h', step', n + 1);
      assert LocatorHeights(h, step, n) == [h] + hs && LocatorHashes(b, h, step, n) == [b.Ancestor(h).hash] + rest;
      hide LocatorHeights, LocatorHashes;
      forall i | 0 <= i < 1 + |hs|
        ensures ([h] + hs)[i] <= b.nHeight && ([b.Ancestor(h).hash] + rest)[i] == b.Ancestor(([h] + hs)[i]).hash
      {
        if i > 0 { assert ([h] + hs)[i] == hs[i - 1] && ([b.Ancestor(h).hash] + rest)[i] == rest[i - 1]; }
      }
    }
  }

  /** What has been collected, followed by the locator from height h on, is the whole locator. */
  ghost predicate Locating(b: BlockIndex, have: seq<nat>, h: nat, step: nat) {
    b.Wf() && h <= b.nHeight && step > 0
    && have + LocatorHashes(b, h, step, |have|) == LocatorHashes(b, b.nHeight, 1, 0)
  }

  lemma LocatingMore(b: BlockIndex, have: seq<nat>, h: nat, step: nat)
    requires Locating(b, have, h, step)
    ensures var have' := have + [b.Ancestor(h).hash];
      && (h == 0 ==> have' == LocatorHashes(b, b.nHeight, 1, 0))
      && (h > 0 ==> Locating(b, have', if h > step then h - step else 0, if |have'| > 10 then 2 * step else step))
  {
    hide BlockIndex.Wf, BlockIndex.Ancestor;
    var x := b.Ancestor(h).hash;
    if h == 0 {
      assert LocatorHashes(b, h, step, |have|) == [x];
    } else {
      var rest := LocatorHashes(b, if h > step then h - step
        else 0, if |have| + 1 > 10 then 2 * step else step, |have| + 1);
      assert LocatorHashes(b, h, step, |have|) == [x] + rest;
      hide LocatorHashes;
      assert have + ([x] + rest) == (have + [x]) + rest;
    }
  }

  method StepBack(index: BlockIndex, b: BlockIndex, height: nat) returns (next: BlockIndex)
    requires index.Valid() && b.Valid() && b.nHeight <= index.nHeight && b == index.Ancestor(b.nHeight)
        && height <= b.nHeight
    ensures next.Valid() && next.nHeight == height && next == index.Ancestor(height)
  {
    index.AncestorTwice(b.nHeight, height);
    b.AncestorIs(height);
    var up, steps := b.GetAncestor(height);
    next := up;
    ValidBelow(b, next);
  }

  method LocatorEntries(index: BlockIndex?) returns (have: seq<nat>)
    requires index != null ==> index.Valid()
    ensures index == null ==> have == []
    ensures index != null ==> have == LocatorHashes(index, index.nHeight, 1, 0)
  {
    have := [];
    if index == null {
      return;
    }
    AncestorSelf(index);
    assert index.Wf();
    hide BlockIndex.Valid, BlockIndex.Wf, BlockIndex.Ancestor, LocatorHashes, Locating;
    var step := 1;
    var b: BlockIndex := index;
    LocatingStart(index);
    while true
      invariant step > 0 && b.Valid() && b.nHeight <= index.nHeight && b == index.Ancestor(b.nHeight)
      invariant Locating(index, have, b.nHeight, step)
      decreases b.nHeight
    {
      LocatingNext(index, b, have, step);
      have := have + [b.hash];
      if b.nHeight == 0 {
        break;
      }
      var height := if b.nHeight > step then b.nHeight - step else 0;
      b := StepBack(index, b, height);
      if |have| > 10 {
        step := step * 2;
      }
    }
  }

  lemma LocatingNext(index: BlockIndex, b: BlockIndex, have: seq<nat>, step: nat)
    requires index.Wf() && b.nHeight <= index.nHeight && b == index.Ancestor(b.nHeight)
    requires Locating(index, have, b.nHeight, step)
    ensures b.nHeight == 0 ==> have + [b.hash] == LocatorHashes(index, index.nHeight, 1, 0)
    ensures b.nHeight > 0 ==>
              Locating(index, have + [b.hash], if b.nHeight > step then b.nHeight - step else 0,
                       if |have| + 1 > 10 then step * 2 else step)
  {
    hide BlockIndex.Wf, BlockIndex.Ancestor, LocatorHashes, Locating;
    LocatingMore(index, have, b.nHeight, step);
  }

  lemma LocatingStart(b: BlockIndex)
    requires b.Wf()
    ensures Locating(b, [], b.nHeight, 1)
  {
    hide BlockIndex.Wf, LocatorHashes;
    assert [] + LocatorHashes(b, b.nHeight, 1, 0) == LocatorHashes(b, b.nHeight, 1, 0);
  }

  lemma AncestorSelf(b: BlockIndex)
    requires b.Wf()
    ensures b.Ancestor(b.nHeight) == b
  {}

  lemma ValidBelow(b: BlockIndex, c: BlockIndex)
    requires b.Valid() && c in b.line
    ensures c.Valid()
  {
    b.LineIs(c);
    b.AncestorIs(c.nHeight);
  }
}
