/** A block being reconstructed from a compact block message, a memory pool and a list of extra transactions. */
module PartialBlock {
  import opened Options
  import opened CompactBlocks

  /** MAX_BLOCK_WEIGHT / MIN_SERIALIZABLE_TRANSACTION_WEIGHT */
  const MAX_BLOCK_TXS: nat := 4000000 / 40

  datatype ReadStatus = READ_STATUS_OK | READ_STATUS_INVALID | READ_STATUS_FAILED

  /** The message for a block: its first transaction in full, a short id for every other. */
  method MakeCompactBlock(header: Header, vtx: seq<Tx>, hasher: Wtxid -> nat) returns (c: CompactBlock)
    requires 0 < |vtx| <= 0xffff && !vtx[0].isNull
    ensures c.header == header && c.hasher == hasher && |c.prefilled| == 1
    ensures Describes(c, vtx)
  {
    var shortIds: seq<nat> := [];
    for i := 1 to |vtx|
      invariant |shortIds| == i - 1
      invariant forall j | 0 <= j < |shortIds| :: shortIds[j] == hasher(vtx[j + 1].witnessHash) % 0x1_0000_0000_0000
    {
      shortIds := shortIds + [hasher(vtx[i].witnessHash) % 0x1_0000_0000_0000];
    }
    c := CompactBlock(header, shortIds, [Prefilled(0, vtx[0])], hasher);
    assert After(c.prefilled, 0) == -1;
    assert Place(c.prefilled, 0) == 0;
    LeadingSlots(c);
  }

  lemma LeadingSlots(c: CompactBlock)
    requires |c.prefilled| == 1 && Place(c.prefilled, 0) == 0 && FirstFit(c, 1)
    ensures forall j | 0 <= j < |c.shortIds| :: ShortSlots(c)[j] == j + 1
  {
    var base := Layout(c, 1);
    forall k | 0 <= k < |base| ensures base[k].Some? <==> k == 0 { LayoutAt(c, 1, k); }
    TailSlots(base, |base|);
    assert base[..|base|] == base;
  }

  lemma {:induction false} TailSlots(base: Slots, n: nat)
    requires 0 < n <= |base| && forall k | 0 <= k < |base| :: base[k].Some? <==> k == 0
    ensures EmptySlots(base[..n]) == seq(n - 1, j => j + 1)
  {
    var s := base[..n];
    assert s[..n - 1] == base[..n - 1];
    if n > 1 { TailSlots(base, n - 1); } else { assert s[..0] == []; }
  }

  class PartiallyDownloadedBlock {
    var header: Header
    var available: Slots
    var prefilledCount: nat
    var mempoolCount: nat

    constructor ()
      ensures header == NullHeader && available == [] && prefilledCount == 0 && mempoolCount == 0
    {
      header := NullHeader;
      available := [];
      prefilledCount := 0;
      mempoolCount := 0;
    }

    /** Puts the prefilled transactions into their slots. */
    method PlacePrefilled(c: CompactBlock) returns (ok: bool)
      requires available == seq(c.BlockTxCount(), _ => None)
      modifies `available
      ensures ok <==> FirstFit(c, |c.prefilled|)
      ensures ok ==> available == Layout(c, |c.prefilled|)
    {
      var last := -1;
      for i := 0 to |c.prefilled|
        invariant last == After(c.prefilled, i) && FirstFit(c, i)
        invariant available == Layout(c, i)
      {
        assert Place(c.prefilled, i) == last + c.prefilled[i].index + 1;
        if c.prefilled[i].tx.isNull {
          assert !Fits(c, i);
          return false;
        }
        last := last + c.prefilled[i].index + 1;
        if last > 0xffff || last > |c.shortIds| + i {
          assert !Fits(c, i);
          return false;
        }
        available := available[last := Some(c.prefilled[i].tx)];
      }
      ok := true;
    }

    /** Moves past the slots that are already filled. */
    method SkipFilled(i: nat, from: Index16) returns (offset: Index16)
      requires |available| <= 0xffff && i < |EmptySlots(available)| && Front(available, i + from, i)
      ensures i + offset < |available| && available[i + offset].None? && Front(available, i + offset, i)
    {
      hide EmptySlots, Front;
      offset := from;
      FrontInside(available, i + offset, i);
      while available[i + offset].Some?
        invariant i + offset < |available| && Front(available, i + offset, i)
        decreases |available| - offset
      {
        FrontSkip(available, i + offset, i);
        FrontInside(available, i + offset + 1, i);
        offset := offset + 1;
      }
    }

    /** Maps each short id to the slot it stands for. The hash table is too crowded
        after the given insertions. */
    method MapShortIds(c: CompactBlock, crowded: set<nat>) returns (ok: bool, ids: map<nat, Index16>)
      requires |available| == c.BlockTxCount() <= 0xffff && |EmptySlots(available)| == |c.shortIds|
      ensures ok <==> Distinct(c.shortIds) && Roomy(c, crowded)
      ensures ok ==> IdsOk(c, EmptySlots(available), ids) && |ids| == |c.shortIds|
    {
      hide EmptySlots, Front, Mapped, Distinct, IdsOk;
      ids := map[];
      var offset: Index16 := 0;
      ghost var slots := EmptySlots(available);
      FrontNone(available);
      MappedNone(c, slots);
      for i := 0 to |c.shortIds|
        invariant i + offset <= |available| && Front(available, i + offset, i)
        invariant Mapped(c, slots, ids, i)
        invariant forall j | 0 <= j < i :: j !in crowded
      {
        offset, ids := MapShortId(c, i, offset, ids, slots);
        if i in crowded { return false, ids; }
      }
      MappedAll(c, slots, ids);
      ok := |ids| == |c.shortIds|;
    }

    /** One short id, which stands for the next empty slot. */
    method MapShortId(c: CompactBlock, i: nat, from: Index16, ids: map<nat, Index16>, ghost slots: seq<nat>)
      returns (offset: Index16, ids': map<nat, Index16>)
      requires |available| <= 0xffff && slots == EmptySlots(available) && i < |c.shortIds| == |slots|
      requires Front(available, i + from, i) && Mapped(c, slots, ids, i)
      ensures i + 1 + offset <= |available| && Front(available, i + 1 + offset, i + 1) && Mapped(c, slots, ids', i + 1)
    {
      hide EmptySlots, Front, Mapped;
      offset := SkipFilled(i, from);
      FrontTake(available, i + offset, i);
      var k: Index16 := i + offset;
      MappedStep(c, slots, ids, i, k);
      ids' := ids[c.shortIds[i] := k];
    }

    /** One entry with the short id of slot k. Not defined where a placeholder's witness hash is asked for. */
    method OfferSlot(k: nat, have: seq<bool>, x: Candidate, ghost h: Held) returns (defined: bool, have': seq<bool>)
      requires k < |available| == |have| && SlotIs(h, available[k], have[k]) && mempoolCount >= h.Counted()
      modifies `available, `mempoolCount
      ensures defined <==> !(h.Holding? && x.Transaction().None?)
      ensures defined ==> available == old(available)[k := Offer(h, x).Slot()] && have' == have[k := true]
                          && mempoolCount == old(mempoolCount) + Offer(h, x).Counted() - h.Counted()
    {
      defined, have' := true, have;
      if !have[k] {
        available := available[k := x.Transaction()];
        have' := have[k := true];
        mempoolCount := mempoolCount + 1;
      } else if available[k].Some? {
        if x.InExtra? && x.ref.None? { return false, have; }
        if x.InPool? || available[k].value.witnessHash != x.ref.value.witnessHash {
          available := available[k := None];
          mempoolCount := mempoolCount - 1;
        }
      }
    }

    /** One entry of the pool or the extra list. */
    method OfferCandidate(c: CompactBlock, ids: map<nat, Index16>, have: seq<bool>, x: Candidate, ghost start: nat,
                          ghost base: Slots, ghost slots: seq<nat>, ghost seen: seq<Candidate>)
      returns (defined: bool, have': seq<bool>)
      requires Matched(c, base, slots, seen, available, have) && IdsOk(c, slots, ids)
      requires mempoolCount == start + Tally(c, seen)
      modifies `available, `mempoolCount
      ensures defined <==> !Clashes(c, seen, x)
      ensures defined ==>
          Matched(c, base, slots, seen + [x], available, have') && mempoolCount == start + Tally(c, seen + [x])
    {
      defined, have' := true, have;
      var id := c.ShortId(x.wtxid);
      if id in ids {
        var k := ids[id];
        ghost var j := IndexOf(c, slots, ids, id);
        ghost var h := Met(c, j, seen);
        assert SlotIs(h, available[k], have[k]);
        MatchedStep(c, base, slots, seen, available, have, x, j);
        TallyIncludes(c, seen, j, |c.shortIds|);
        hide Matched, Tally, IdsOk, Met, Clashes, Offer;
        defined, have' := OfferSlot(k, have, x, h);
      } else {
        MatchedOther(c, base, slots, ids, seen, available, have, x);
      }
    }

    /** A list of entries in turn, until the counter is the number of short ids. */
    method OfferAll(c: CompactBlock, ids: map<nat, Index16>, have: seq<bool>, xs: seq<Candidate>, ghost start: nat,
                    ghost base: Slots, ghost slots: seq<nat>, ghost seen: seq<Candidate>)
      returns (defined: bool, have': seq<bool>)
      requires Matched(c, base, slots, seen, available, have) && IdsOk(c, slots, ids) && |ids| == |c.shortIds|
      requires mempoolCount == start + Tally(c, seen)
      modifies `available, `mempoolCount
      ensures defined <==> Clear(c, seen, xs, Stop(c, seen, xs, start, 0))
      ensures defined ==>
          OfferedUpto(c, base, slots, seen, xs, Stop(c, seen, xs, start, 0), available, have', mempoolCount, start)
    {
      hide Matched, Tally, IdsOk, Clashes, OfferedUpto, Clear, Stop;
      have' := have;
      OfferedNone(c, base, slots, seen, xs, available, have, mempoolCount, start);
      for i := 0 to |xs|
        invariant OfferedUpto(c, base, slots, seen, xs, i, available, have', mempoolCount, start)
        invariant Clear(c, seen, xs, i) && Stop(c, seen, xs, start, i) == Stop(c, seen, xs, start, 0)
      {
        Looked(c, seen, xs, start, i);
        OfferedFacts(c, base, slots, seen, xs, i, available, have', mempoolCount, start);
        defined, have' := OfferCandidate(c, ids, have', xs[i], start, base, slots, seen + xs[..i]);
        if !defined { return; }
        OfferedNext(c, base, slots, seen, xs, i, available, have', mempoolCount, start);
        if mempoolCount == |ids| { return; }
      }
      StopAtEnd(c, seen, xs, start);
      defined := true;
    }

    /** Starts a reconstruction. The outcome is the status, where the call is defined at all. */
    method InitData(c: CompactBlock, pool: seq<PoolEntry>, extra: seq<ExtraEntry>, crowded: set<nat>)
      returns (defined: bool, r: ReadStatus)
      requires c.BlockTxCount() <= 0xffff
      modifies this
      ensures r == READ_STATUS_INVALID <==> !(Acceptable(c) && old(header).NullHeader? && old(available) == [])
      ensures r != READ_STATUS_INVALID ==> (r == READ_STATUS_OK <==> Distinct(c.shortIds) && Roomy(c, crowded))
      ensures defined <==> (r == READ_STATUS_OK ==> Defined(c, pool, extra, old(mempoolCount)))
      ensures r == READ_STATUS_OK && NoBlankListed(c, extra) ==> defined
      ensures r == READ_STATUS_OK && defined ==>
                header == c.header && prefilledCount == |c.prefilled|
                && Outcome(c, pool, extra, old(mempoolCount), available, mempoolCount)
      ensures !(old(header).NullHeader? && old(available) == []) ==>
                header == old(header) && available == old(available) && mempoolCount == old(mempoolCount)
    {
      defined := true;
      hide Outcome, Defined, NoBlankListed, Distinct, Roomy;
      if c.header.NullHeader? || (c.shortIds == [] && c.prefilled == []) { return true, READ_STATUS_INVALID; }
      if c.BlockTxCount() > MAX_BLOCK_TXS { return true, READ_STATUS_INVALID; }
      if !header.NullHeader? || available != [] { return true, READ_STATUS_INVALID; }
      header := c.header;
      available := seq(c.BlockTxCount(), _ => None);
      var ok := PlacePrefilled(c);
      if !ok { return true, READ_STATUS_INVALID; }
      prefilledCount := |c.prefilled|;
      defined, r := MatchEntries(c, pool, extra, crowded);
    }

    /** The part of InitData that looks for transactions, once prefilled ones are in place. */
    method MatchEntries(c: CompactBlock, pool: seq<PoolEntry>, extra: seq<ExtraEntry>, crowded: set<nat>)
      returns (defined: bool, r: ReadStatus)
      requires FirstFit(c, |c.prefilled|) && available == Layout(c, |c.prefilled|) && c.BlockTxCount() <= 0xffff
      modifies `available, `mempoolCount
      ensures r != READ_STATUS_INVALID && (r == READ_STATUS_OK <==> Distinct(c.shortIds) && Roomy(c, crowded))
      ensures defined <==> (r == READ_STATUS_OK ==> Defined(c, pool, extra, old(mempoolCount)))
      ensures r == READ_STATUS_OK && NoBlankListed(c, extra) ==> defined
      ensures r == READ_STATUS_OK && defined ==> Outcome(c, pool, extra, old(mempoolCount), available, mempoolCount)
    {
      hide FirstFit, ShortSlots, EmptySlots, Matched, Outcome, Tally, Defined, NoBlankListed, Distinct, Layout, IdsOk,
           Roomy;
      LayoutSlots(c);
      var roomy, ids := MapShortIds(c, crowded);
      if !roomy { return true, READ_STATUS_FAILED; }
      MatchedNone(c, available);
      if NoBlankListed(c, extra) { NoBlankDefined(c, pool, extra, mempoolCount); }
      defined := SearchBoth(c, ids, pool, extra, mempoolCount);
      r := READ_STATUS_OK;
    }

    /** The pool first, and then the extra list. */
    method SearchBoth(c: CompactBlock, ids: map<nat, Index16>, pool: seq<PoolEntry>, extra: seq<ExtraEntry>,
                      ghost start: nat)
      returns (defined: bool)
      requires FirstFit(c, |c.prefilled|) && available == Layout(c, |c.prefilled|) && mempoolCount == start
      requires Matched(c, available, ShortSlots(c), [], available, seq(|available|, _ => false)) && Tally(c, []) == 0
      requires IdsOk(c, ShortSlots(c), ids) && |ids| == |c.shortIds|
      modifies `available, `mempoolCount
      ensures defined <==> Defined(c, pool, extra, start)
      ensures defined ==> Outcome(c, pool, extra, start, available, mempoolCount)
    {
      hide FirstFit, ShortSlots, Matched, Outcome, Tally, Stop, Clear, Layout, IdsOk, OfferedUpto;
      ghost var base, slots := available, ShortSlots(c);
      ghost var a, b := PoolStop(c, pool, start), ExtraStop(c, pool, extra, start);
      PoolClear(c, [], pool, a);
      var have := seq(|available|, _ => false);
      defined, have := OfferAll(c, ids, have, pool, start, base, slots, []);
      OfferedFacts(c, base, slots, [], pool, a, available, have, mempoolCount, start);
      assert [] + pool[..a] == pool[..a];
      defined, have := OfferAll(c, ids, have, extra, start, base, slots, pool[..a]);
      if defined {
        OfferedFacts(c, base, slots, pool[..a], extra, b, available, have, mempoolCount, start);
        OutcomeFrom(c, pool, extra, start, available, have);
      }
    }

    method IsTxAvailable(index: nat) returns (b: bool)
      requires header.Header? ==> index < |available|
      ensures b <==> header.Header? && available[index].Some?
    {
      if header.NullHeader? { return false; }
      b := available[index].Some?;
    }

    /** Moves the available transactions out, filling the gaps in order. */
    method Collect(missing: seq<Tx>) returns (ok: bool, used: nat, vtx: seq<Tx>)
      modifies `available
      ensures ok <==> |missing| >= |EmptySlots(old(available))|
      ensures ok ==> used == |EmptySlots(old(available))| && vtx == Merge(old(available), missing)
    {
      vtx, used := [], 0;
      ghost var slots := available;
      CollectedNone(slots, missing);
      hide EmptySlots, Merge, Collected;
      for i := 0 to |available|
        invariant |available| == |slots| && available[i..] == slots[i..]
        invariant Collected(slots, i, missing, used, vtx)
      {
        assert available[i] == available[i..][0] == slots[i];
        CollectedStep(slots, i, missing, used, vtx);
        if available[i].None? {
          if used >= |missing| { return false, used, vtx; }
          vtx := vtx + [missing[used]];
          used := used + 1;
        } else {
          vtx := vtx + [available[i].value];
          available := available[i := None];
        }
      }
      CollectedAll(slots, missing, used, vtx);
      ok := true;
    }

    /** Completes the block with the transactions that were sent, in order, for the empty slots. */
    method FillBlock(missing: seq<Tx>, mutated: (Header, seq<Tx>) -> bool) returns (r: ReadStatus, vtx: seq<Tx>)
      modifies this
      ensures old(header).NullHeader? ==> r == READ_STATUS_INVALID && unchanged(this)
      ensures old(header).Header? && |missing| < |EmptySlots(old(available))| ==>
          r == READ_STATUS_INVALID && header == old(header)
      ensures old(header).Header? && |missing| >= |EmptySlots(old(available))| ==>
                header == NullHeader && available == [] && vtx == Merge(old(available), missing)
                && r == if |missing| > |EmptySlots(old(available))| then READ_STATUS_INVALID
                        else if mutated(old(header), vtx) then READ_STATUS_FAILED else READ_STATUS_OK
    {
      hide EmptySlots, Merge;
      if header.NullHeader? { return READ_STATUS_INVALID, []; }
      var ok, used;
      ok, used, vtx := Collect(missing);
      if !ok { return READ_STATUS_INVALID, vtx; }
      var done := header;
      header := NullHeader;
      available := [];
      if |missing| != used { return READ_STATUS_INVALID, vtx; }
      if mutated(done, vtx) { return READ_STATUS_FAILED, vtx; }
      r := READ_STATUS_OK;
    }
  }

  /** A whole relay: the sender's message, the receiver's reconstruction, and the missing transactions that the
      sender then supplies. Unless short ids collide, the table is crowded, or a placeholder of the extra list
      gets in the way, the receiver gets the block. */
  method Relay(header: Header, vtx: seq<Tx>, hasher: Wtxid -> nat, pool: seq<PoolEntry>, extra: seq<ExtraEntry>,
               crowded: set<nat>, mutated: (Header, seq<Tx>) -> bool)
    returns (c: CompactBlock, defined: bool, r: ReadStatus, rebuilt: seq<Tx>)
    requires header.Header? && 0 < |vtx| <= 0xffff && !vtx[0].isNull && !mutated(header, vtx)
    ensures Describes(c, vtx)
    ensures r == READ_STATUS_OK || r == READ_STATUS_FAILED
    ensures defined <==> (Distinct(c.shortIds) && Roomy(c, crowded) ==> Defined(c, pool, extra, 0))
    ensures NoBlankListed(c, extra) ==> defined
    ensures NoForeign(c, vtx, Both(pool, extra)) && defined ==>
        (r == READ_STATUS_OK <==> Distinct(c.shortIds) && Roomy(c, crowded))
    ensures NoForeign(c, vtx, Both(pool, extra)) && defined && r == READ_STATUS_OK ==> rebuilt == vtx
  {
    hide Merge, EmptySlots, Reconstructed, NoForeign, Describes, ShortSlots, Distinct, Roomy, Defined, NoBlankListed,
         Outcome;
    c := MakeCompactBlock(header, vtx, hasher);
    DescribesFits(c, vtx);
    var p := new PartiallyDownloadedBlock();
    defined, r := p.InitData(c, pool, extra, crowded);
    rebuilt := [];
    if defined && r == READ_STATUS_OK {
      OutcomeSlots(c, pool, extra, p.available, p.mempoolCount);
      var missing := Missing(p.available, vtx);
      if NoForeign(c, vtx, Both(pool, extra)) { Rebuilds(c, vtx, Both(pool, extra), p.available); }
      r, rebuilt := p.FillBlock(missing, mutated);
    }
  }

  /** No insertion leaves the table too crowded. */
  predicate Roomy(c: CompactBlock, crowded: set<nat>) {
    forall i | 0 <= i < |c.shortIds| :: i !in crowded
  }

  /** What the counter and the slots of a new object are worth. */
  ghost predicate Exact(c: CompactBlock, pool: seq<PoolEntry>, extra: seq<ExtraEntry>, avail: Slots, count: int) {
    FirstFit(c, |c.prefilled|) && |avail| == c.BlockTxCount()
    && count == Filled(avail, ShortSlots(c)) + Blanks(c, Both(pool, extra))
    && (count == Filled(avail, ShortSlots(c)) <==>
      forall j | 0 <= j < |c.shortIds| :: !FirstBlank(c, j, Both(pool, extra)))
    && (NothingOverlooked(c, Both(pool, extra), avail) <==>
        forall j | 0 <= j < |c.shortIds| :: !(FirstBlank(c, j, Both(pool, extra)) && OneTx(c, j, Both(pool, extra))))
  }

  /** What a search ends with, when the counter started at `start`. */
  ghost predicate Outcome(c: CompactBlock, pool: seq<PoolEntry>, extra: seq<ExtraEntry>, start: nat, avail: Slots,
                          count: int) {
    var seen := Seen(c, pool, extra, start);
    && Reconstructed(c, Both(pool, extra), avail) && Settled(c, seen, avail)
    && Answered(c, seen, avail) && LookedAt(c, pool, extra, start)
    && count == start + Tally(c, seen) && Tally(c, seen) == Filled(avail, ShortSlots(c)) + Blanks(c, seen)
    && (NothingOverlooked(c, Both(pool, extra), avail) <==> AllMet(c, pool, extra, start))
    && (start == 0 ==> Exact(c, pool, extra, avail, count))
  }

  /** Every short id's slot holds the first transaction listed under it, unless a placeholder comes first or two
      transactions conflict. */
  ghost predicate Answered(c: CompactBlock, seen: seq<Candidate>, avail: Slots)
    requires FirstFit(c, |c.prefilled|) && |avail| == c.BlockTxCount()
  {
    forall j | 0 <= j < |c.shortIds| :: SlotHolds(c, j, seen, avail[ShortSlots(c)[j]])
  }

  /** The lists are gone through exactly as far as the counter says. */
  ghost predicate LookedAt(c: CompactBlock, pool: seq<PoolEntry>, extra: seq<ExtraEntry>, start: int) {
    var a, b := PoolStop(c, pool, start), ExtraStop(c, pool, extra, start);
    GoneThrough(c, [], pool, start, a) && GoneThrough(c, pool[..a], extra, start, b)
  }

  lemma AnsweredFrom(c: CompactBlock, pool: seq<PoolEntry>, extra: seq<ExtraEntry>, start: int, avail: Slots)
    requires FirstFit(c, |c.prefilled|) && |avail| == c.BlockTxCount() && Settled(c, Seen(c, pool, extra, start), avail)
    ensures Answered(c, Seen(c, pool, extra, start), avail) && LookedAt(c, pool, extra, start)
  {
    hide FirstFit, ShortSlots, SlotHolds, Met, Stop, GoneThrough;
    var seen, a := Seen(c, pool, extra, start), PoolStop(c, pool, start);
    forall j | 0 <= j < |c.shortIds| ensures SlotHolds(c, j, seen, avail[ShortSlots(c)[j]]) {
      MetHolds(c, j, seen);
    }
    StopGoneThrough(c, [], pool, start, 0);
    StopGoneThrough(c, pool[..a], extra, start, 0);
  }

  lemma OutcomeFrom(c: CompactBlock, pool: seq<PoolEntry>, extra: seq<ExtraEntry>, start: nat, avail: Slots,
                    have: seq<bool>)
    requires FirstFit(c, |c.prefilled|)
    requires Matched(c, Layout(c, |c.prefilled|), ShortSlots(c), Seen(c, pool, extra, start), avail, have)
    ensures Outcome(c, pool, extra, start, avail, start + Tally(c, Seen(c, pool, extra, start)))
  {
    var base := Layout(c, |c.prefilled|);
    var a, b := PoolStop(c, pool, start), ExtraStop(c, pool, extra, start);
    hide FirstFit, ShortSlots, Matched, Exact, Settled, Tally, Blanks, Filled, Layout, Stop, NothingOverlooked, AllMet,
         Answered, LookedAt;
    MatchedReconstructed(c, pool, extra, a, b, avail, have);
    CounterIs(c, base, ShortSlots(c), Seen(c, pool, extra, start), avail, have);
    OverlookedAt(c, pool, extra, start, avail);
    AnsweredFrom(c, pool, extra, start, avail);
    if start == 0 { ExactFrom(c, base, pool, extra, avail, have); }
  }

  lemma ExactFrom(c: CompactBlock, base: Slots, pool: seq<PoolEntry>, extra: seq<ExtraEntry>, avail: Slots,
                  have: seq<bool>)
    requires FirstFit(c, |c.prefilled|) && |avail| == c.BlockTxCount() && Settled(c, Seen(c, pool, extra, 0), avail)
    requires Matched(c, base, ShortSlots(c), Seen(c, pool, extra, 0), avail, have)
    ensures Exact(c, pool, extra, avail, Tally(c, Seen(c, pool, extra, 0)))
  {
    hide FirstFit, ShortSlots, Seen, Tally, Blanks, Filled, FirstBlank, OneTx, NothingOverlooked, Matched, Settled;
    CounterExact(c, base, ShortSlots(c), pool, extra, avail, have);
    OverlookedExact(c, pool, extra, avail);
  }

  /** The first n entries of a list have been offered. */
  ghost predicate OfferedUpto(c: CompactBlock, base: Slots, slots: seq<nat>, seen: seq<Candidate>, xs: seq<Candidate>,
                              n: nat,
                              avail: Slots, have: seq<bool>, count: int, start: int) {
    n <= |xs| && Matched(c, base, slots, seen + xs[..n], avail, have) && count == start + Tally(c, seen + xs[..n])
  }

  lemma OfferedNone(c: CompactBlock, base: Slots, slots: seq<nat>, seen: seq<Candidate>, xs: seq<Candidate>,
                    avail: Slots, have: seq<bool>, count: int, start: int)
    requires Matched(c, base, slots, seen, avail, have) && count == start + Tally(c, seen)
    ensures OfferedUpto(c, base, slots, seen, xs, 0, avail, have, count, start) && Clear(c, seen, xs, 0)
  {
    assert seen + xs[..0] == seen;
  }

  lemma OfferedFacts(c: CompactBlock, base: Slots, slots: seq<nat>, seen: seq<Candidate>, xs: seq<Candidate>, n: nat,
                     avail: Slots, have: seq<bool>, count: int, start: int)
    requires OfferedUpto(c, base, slots, seen, xs, n, avail, have, count, start)
    ensures n <= |xs| && Matched(c, base, slots, seen + xs[..n], avail, have)
        && count == start + Tally(c, seen + xs[..n])
  {}

  lemma OfferedNext(c: CompactBlock, base: Slots, slots: seq<nat>, seen: seq<Candidate>, xs: seq<Candidate>, n: nat,
                    avail: Slots, have: seq<bool>, count: int, start: int)
    requires n < |xs| && Matched(c, base, slots, seen + xs[..n] + [xs[n]], avail, have)
    requires count == start + Tally(c, seen + xs[..n] + [xs[n]])
    ensures OfferedUpto(c, base, slots, seen, xs, n + 1, avail, have, count, start)
    ensures count == start + Tally(c, seen + xs[..n + 1])
  {
    hide Matched, Tally;
    assert seen + xs[..n + 1] == seen + xs[..n] + [xs[n]];
  }

  /** What looking at one more entry comes to. */
  lemma Looked(c: CompactBlock, seen: seq<Candidate>, xs: seq<Candidate>, start: int, i: nat)
    requires i < |xs| && Clear(c, seen, xs, i)
    ensures Clear(c, seen, xs, i + 1) <==> !Clashes(c, seen + xs[..i], xs[i])
    ensures Clashes(c, seen + xs[..i], xs[i]) ==> !Clear(c, seen, xs, Stop(c, seen, xs, start, i))
    ensures Stop(c, seen, xs, start, i) == if start + Tally(c, seen + xs[..i + 1]) == |c.shortIds| then i + 1
                                           else Stop(c, seen, xs, start, i + 1)
  {
    hide Clashes, Tally;
  }

  lemma StopAtEnd(c: CompactBlock, seen: seq<Candidate>, xs: seq<Candidate>, start: int)
    ensures Stop(c, seen, xs, start, |xs|) == |xs|
  {}

  lemma CounterIs(c: CompactBlock, base: Slots, slots: seq<nat>, xs: seq<Candidate>, avail: Slots, have: seq<bool>)
    requires Matched(c, base, slots, xs, avail, have)
    ensures Tally(c, xs) == Filled(avail, slots) + Blanks(c, xs)
  {
    hide Met, FirstBlank, EmptySlots;
    TallyIs(c, base, slots, xs, avail, have, |slots|);
    assert slots[..|slots|] == slots;
  }

  lemma PoolClear(c: CompactBlock, seen: seq<Candidate>, pool: seq<PoolEntry>, n: nat)
    requires n <= |pool|
    ensures Clear(c, seen, pool, n)
  {}

  lemma {:induction false} TallyIncludes(c: CompactBlock, xs: seq<Candidate>, j: nat, k: nat)
    requires j < k <= |c.shortIds|
    ensures Met(c, j, xs).Counted() <= TallyTo(c, xs, k)
    decreases k
  {
    hide Met;
    if j < k - 1 { TallyIncludes(c, xs, j, k - 1); }
  }

  // ---------------------------------------------------------------- where the promises end

  /** A message that names the given short ids and nothing else; hashes 0 and 1 share a short id. */
  function Naming(shortIds: seq<nat>): CompactBlock {
    CompactBlock(Header(1), shortIds, [], w => w / 2)
  }

  /** Every transaction is listed under its own witness hash, and placeholders under the null hash. */
  ghost predicate Own(xs: seq<Candidate>) {
    forall i | 0 <= i < |xs| ::
      xs[i].wtxid == if xs[i].Transaction().Some? then xs[i].Transaction().value.witnessHash else 0
  }

  lemma NamingAcceptable(shortIds: seq<nat>)
    requires shortIds != []
    ensures Acceptable(Naming(shortIds)) && FirstFit(Naming(shortIds), 0)
  {}

  /** A placeholder under the only short id: it is counted, though its slot stays empty, and the transaction that
      is listed behind it is overlooked. */
  lemma BlankCountedExample(avail: Slots)
    requires |avail| == 1
    ensures var c, extra := Naming([0]), [InExtra(0, None), InExtra(1, Some(Tx(7, 1, false)))];
      && Own(extra) && Acceptable(c) && Distinct(c.shortIds) && Defined(c, [], extra, 0)
      && Tally(c, Seen(c, [], extra, 0)) == 1
      && (Settled(c, Seen(c, [], extra, 0), avail) ==>
            Filled(avail, ShortSlots(c)) == 0 && !NothingOverlooked(c, Both([], extra), avail))
  {
    hide Seen, FirstBlank, OneTx, Met, NothingOverlooked, Tally, Defined, Acceptable, Filled, ShortSlots;
    var c: CompactBlock, extra: seq<ExtraEntry> := Naming([0]), [InExtra(0, None), InExtra(1, Some(Tx(7, 1, false)))];
    NamingAcceptable([0]);
    BlankTaken(c, extra);
    BlankBeforeTx(c, extra);
    if Settled(c, Seen(c, [], extra, 0), avail) {
      OverlookedExact(c, [], extra, avail);
      OneEmpty(avail, ShortSlots(c));
    }
  }

  lemma BlankTaken(c: CompactBlock, extra: seq<ExtraEntry>)
    requires |c.shortIds| == 1 && |extra| == 2 && extra[0].ref.None? && Listed(c, 0, extra[0])
    ensures Defined(c, [], extra, 0) && Tally(c, Seen(c, [], extra, 0)) == 1
        && Met(c, 0, Seen(c, [], extra, 0)) == Blank
  {
    hide Listed;
    var first: seq<Candidate> := [extra[0]];
    assert first[..0] == [];
    assert Met(c, 0, first) == Blank;
    assert TallyTo(c, first, 0) == 0;
    StoppedAt(c, extra, first);
    assert [] + extra[..0] == [];
    assert !Clashes(c, [] + extra[..0], extra[0]);
  }

  lemma BlankBeforeTx(c: CompactBlock, extra: seq<ExtraEntry>)
    requires |c.shortIds| == 1 && |extra| == 2 && extra[0].ref.None? && extra[1].ref.Some?
    requires Listed(c, 0, extra[0]) && Listed(c, 0, extra[1])
    ensures FirstBlank(c, 0, Both([], extra)) && OneTx(c, 0, Both([], extra))
  {
    hide Listed;
    var all := Both([], extra);
    assert all == extra;
    assert FirstAt(c, 0, all, 0) && HasTx(c, 0, all[1]);
  }

  lemma OneEmpty(avail: Slots, slots: seq<nat>)
    requires |slots| == 1 && slots[0] < |avail| && avail[slots[0]].None?
    ensures Filled(avail, slots) == 0
  {
    assert slots[..0] == [];
  }

  lemma StoppedAt(c: CompactBlock, extra: seq<ExtraEntry>, first: seq<Candidate>)
    requires |extra| > 0 && first == [extra[0]] && Tally(c, first) == |c.shortIds|
    ensures PoolStop(c, [], 0) == 0 && ExtraStop(c, [], extra, 0) == 1 && Seen(c, [], extra, 0) == first
  {
    hide Tally;
    assert [] + extra[..1] == first;
  }

  /** A placeholder listed under the short id of a transaction from the pool, while another one is still sought:
      the call is not defined. */
  lemma NotDefinedExample()
    ensures var c, pool, extra := Naming([0, 1]), [InPool(1, Tx(7, 1, false))], [InExtra(0, None)];
      Own(pool) && Own(extra) && Acceptable(c) && Distinct(c.shortIds) && !Defined(c, pool, extra, 0)
  {
    var c: CompactBlock, pool: seq<PoolEntry> := Naming([0, 1]), [InPool(1, Tx(7, 1, false))];
    var extra: seq<ExtraEntry> := [InExtra(0, None)];
    NamingAcceptable([0, 1]);
    assert Met(c, 0, pool) == Holding(Tx(7, 1, false)) by { assert pool[..0] == []; }
    assert PoolStop(c, pool, 0) == 1 && pool[..1] == pool;
    assert ExtraStop(c, pool, extra, 0) == 1;
    assert pool + extra[..0] == pool;
    assert Listed(c, 0, extra[0]);
    assert Clashes(c, pool + extra[..0], extra[0]);
  }

  /** An object used again, whose counter still stands at 1: the search ends after the first transaction and
      overlooks the second. */
  lemma ReusedExample(avail: Slots)
    requires |avail| == 2
    ensures var c, pool := Naming([0, 1]), [InPool(1, Tx(7, 1, false)), InPool(2, Tx(8, 2, false))];
      && Own(pool) && Acceptable(c) && Distinct(c.shortIds) && Defined(c, pool, [], 1)
      && (Settled(c, Seen(c, pool, [], 1), avail) ==> !NothingOverlooked(c, Both(pool, []), avail))
  {
    var c: CompactBlock := Naming([0, 1]);
    var pool: seq<PoolEntry> := [InPool(1, Tx(7, 1, false)), InPool(2, Tx(8, 2, false))];
    NamingAcceptable([0, 1]);
    var first: seq<Candidate> := [InPool(1, Tx(7, 1, false))];
    assert Met(c, 0, first) == Holding(Tx(7, 1, false)) && Met(c, 1, first) == Unmet by { assert first[..0] == []; }
    assert TallyTo(c, first, 0) == 0 && TallyTo(c, first, 1) == 1 && TallyTo(c, first, 2) == 1;
    assert [] + pool[..1] == first;
    assert PoolStop(c, pool, 1) == 1;
    assert Seen(c, pool, [], 1) == first;
    var all := Both(pool, []);
    assert all == pool;
    assert HasTx(c, 1, all[1]) && !Ambiguous(c, 1, all);
  }

  lemma DescribesFits(c: CompactBlock, vtx: seq<Tx>)
    requires Describes(c, vtx)
    ensures FirstFit(c, |c.prefilled|) && |vtx| == c.BlockTxCount()
  {}

  lemma OutcomeSlots(c: CompactBlock, pool: seq<PoolEntry>, extra: seq<ExtraEntry>, avail: Slots, count: int)
    requires Outcome(c, pool, extra, 0, avail, count)
    ensures Reconstructed(c, Both(pool, extra), avail) && |avail| == c.BlockTxCount()
  {}

  lemma LayoutSlots(c: CompactBlock)
    requires FirstFit(c, |c.prefilled|)
    ensures ShortSlots(c) == EmptySlots(Layout(c, |c.prefilled|)) && |ShortSlots(c)| == |c.shortIds|
  {}

  lemma MatchedNone(c: CompactBlock, base: Slots)
    requires |EmptySlots(base)| == |c.shortIds|
    ensures Matched(c, base, EmptySlots(base), [], base, seq(|base|, _ => false)) && Tally(c, []) == 0
  {
    TallyNone(c, |c.shortIds|);
  }

  /** The first i slots have been collected. */
  ghost predicate Collected(s: Slots, i: nat, missing: seq<Tx>, used: nat, vtx: seq<Tx>) {
    i <= |s| && used == |EmptySlots(s[..i])| <= |missing| && vtx == Merge(s[..i], missing)
  }

  lemma CollectedNone(s: Slots, missing: seq<Tx>)
    ensures Collected(s, 0, missing, 0, [])
  {}

  lemma CollectedStep(s: Slots, i: nat, missing: seq<Tx>, used: nat, vtx: seq<Tx>)
    requires i < |s| && Collected(s, i, missing, used, vtx)
    ensures s[i].Some? ==> Collected(s, i + 1, missing, used, vtx + [s[i].value])
    ensures s[i].None? && used < |missing| ==> Collected(s, i + 1, missing, used + 1, vtx + [missing[used]])
    ensures s[i].None? && used >= |missing| ==> |missing| < |EmptySlots(s)|
  {
    FrontStep(s, i);
    FrontExtends(s, i + 1, |s|);
    assert s[..|s|] == s;
    assert s[..i + 1][..i] == s[..i];
  }

  lemma CollectedAll(s: Slots, missing: seq<Tx>, used: nat, vtx: seq<Tx>)
    requires Collected(s, |s|, missing, used, vtx)
    ensures used == |EmptySlots(s)| <= |missing| && vtx == Merge(s, missing)
  {
    assert s[..|s|] == s;
  }

  /** The table after the first i short ids. */
  ghost predicate Mapped(c: CompactBlock, slots: seq<nat>, ids: map<nat, Index16>, i: nat) {
    i <= |c.shortIds| == |slots| && |ids| <= i && (|ids| == i <==> Distinct(c.shortIds[..i]))
    && (forall id :: id in ids <==> id in c.shortIds[..i])
    && (|ids| == i ==> forall j | 0 <= j < i :: c.shortIds[j] in ids && ids[c.shortIds[j]] == slots[j])
  }

  lemma MappedNone(c: CompactBlock, slots: seq<nat>)
    requires |c.shortIds| == |slots|
    ensures Mapped(c, slots, map[], 0)
  {}

  lemma KeyCount(ids: map<nat, Index16>, id: nat, k: Index16)
    ensures |ids[id := k]| == |ids| + if id in ids then 0 else 1
  {
    var next := ids[id := k];
    assert |next| == |next.Keys| && |ids| == |ids.Keys|;
    assert next.Keys == ids.Keys + {id};
  }

  lemma MappedStep(c: CompactBlock, slots: seq<nat>, ids: map<nat, Index16>, i: nat, k: Index16)
    requires Mapped(c, slots, ids, i) && i < |slots| && slots[i] == k
    ensures Mapped(c, slots, ids[c.shortIds[i] := k], i + 1)
  {
    hide Distinct;
    var id := c.shortIds[i];
    var front := c.shortIds[..i];
    assert c.shortIds[..i + 1] == front + [id];
    assert id in ids <==> id in front;
    DistinctStep(c.shortIds, i);
    KeyCount(ids, id, k);
    if |ids[id := k]| == i + 1 {
      forall j | 0 <= j < i ensures c.shortIds[j] != id { assert front[j] == c.shortIds[j]; }
    }
  }

  lemma MappedAll(c: CompactBlock, slots: seq<nat>, ids: map<nat, Index16>)
    requires Mapped(c, slots, ids, |c.shortIds|)
    ensures |ids| == |c.shortIds| <==> Distinct(c.shortIds)
    ensures |ids| == |c.shortIds| ==> IdsOk(c, slots, ids)
  {
    assert c.shortIds[..|c.shortIds|] == c.shortIds;
  }

  lemma DistinctStep(s: seq<nat>, i: nat)
    requires i < |s|
    ensures Distinct(s[..i + 1]) <==> Distinct(s[..i]) && s[i] !in s[..i]
  {
    var t := s[..i + 1];
    assert forall j | 0 <= j < i :: t[j] == s[..i][j];
    assert t[i] == s[i];
    if Distinct(t) {
      forall j | 0 <= j < i ensures s[..i][j] != s[i] { assert t[j] != t[i]; }
    }
  }

  lemma FrontStep(s: Slots, k: nat)
    requires k < |s|
    ensures EmptySlots(s[..k + 1]) == EmptySlots(s[..k]) + (if s[k].None? then [k] else [])
  {
    assert s[..k + 1][..k] == s[..k];
  }

  lemma {:induction false} FrontExtends(s: Slots, k: nat, n: nat)
    requires k <= n <= |s|
    ensures EmptySlots(s[..k]) <= EmptySlots(s[..n])
    decreases n
  {
    if k < n {
      FrontExtends(s, k, n - 1);
      FrontStep(s, n - 1);
    }
  }

  /** Exactly i empty slots lie before k. */
  ghost predicate Front(s: Slots, k: nat, i: nat) {
    k <= |s| && i <= |EmptySlots(s)| && EmptySlots(s[..k]) == EmptySlots(s)[..i]
  }

  lemma FrontNone(s: Slots)
    ensures Front(s, 0, 0)
  {}

  lemma FrontInside(s: Slots, k: nat, i: nat)
    requires Front(s, k, i) && i < |EmptySlots(s)|
    ensures k < |s|
  {
    assert s[..|s|] == s;
  }

  lemma FrontSkip(s: Slots, k: nat, i: nat)
    requires Front(s, k, i) && k < |s| && s[k].Some?
    ensures Front(s, k + 1, i)
  {
    FrontStep(s, k);
  }

  /** The next empty slot is the next in the list. */
  lemma FrontTake(s: Slots, k: nat, i: nat)
    requires Front(s, k, i) && k < |s| && i < |EmptySlots(s)| && s[k].None?
    ensures EmptySlots(s)[i] == k && Front(s, k + 1, i + 1)
  {
    FrontStep(s, k);
    FrontExtends(s, k + 1, |s|);
    assert s[..|s|] == s;
    hide EmptySlots;
    var all, some := EmptySlots(s), EmptySlots(s[..k + 1]);
    assert some == all[..i] + [k] && some <= all;
    assert some[i] == k == all[i];
    assert all[..i + 1] == all[..i] + [all[i]];
  }
}
