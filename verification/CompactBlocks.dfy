/** Compact blocks, sections "HeaderAndShortIDs" and "Short transaction IDs" of BIP 152: what a message says
    about a block, and what a receiver may put into the block's slots. */
module CompactBlocks {
  import opened Options

  type Index16 = i: int | 0 <= i < 0x10000

  type Wtxid = nat

  datatype Tx = Tx(data: nat, witnessHash: Wtxid, isNull: bool)

  datatype Header = NullHeader | Header(hash: nat)

  /** The index counts from the slot after the previous prefilled transaction. */
  datatype Prefilled = Prefilled(index: Index16, tx: Tx)

  datatype CompactBlock = CompactBlock(header: Header, shortIds: seq<nat>, prefilled: seq<Prefilled>,
                                       hasher: Wtxid -> nat)
  {
    function BlockTxCount(): nat { |shortIds| + |prefilled| }

    function ShortId(w: Wtxid): nat { hasher(w) % 0x1_0000_0000_0000 }
  }

  type Slots = seq<Option<Tx>>

  /** An entry of the memory pool or of the extra list, with the hash it is listed under. The extra list
      holds placeholders without a transaction until it has been filled once. */
  datatype Candidate = InPool(wtxid: Wtxid, tx: Tx) | InExtra(wtxid: Wtxid, ref: Option<Tx>)
  {
    function Transaction(): Option<Tx> { if InPool? then Some(tx) else ref }
  }

  type PoolEntry = x: Candidate | x.InPool? witness InPool(0, Tx(0, 0, false))

  type ExtraEntry = x: Candidate | x.InExtra? witness InExtra(0, None)

  /** Both lists, in the order in which they are gone through. */
  function Both(pool: seq<PoolEntry>, extra: seq<ExtraEntry>): seq<Candidate> {
    pool + extra
  }

  // ---------------------------------------------------------------- prefilled transactions

  /** The last slot taken by the first i prefilled transactions. */
  function After(p: seq<Prefilled>, i: nat): (r: int)
    requires i <= |p|
    ensures r >= i - 1
  {
    if i == 0 then -1 else After(p, i - 1) + p[i - 1].index + 1
  }

  /** The slot of the i-th prefilled transaction. */
  function Place(p: seq<Prefilled>, i: nat): nat
    requires i < |p|
  {
    After(p, i + 1)
  }

  ghost predicate Fits(c: CompactBlock, i: nat)
    requires i < |c.prefilled|
  {
    !c.prefilled[i].tx.isNull && Place(c.prefilled, i) <= 0xffff && Place(c.prefilled, i) <= |c.shortIds| + i
  }

  ghost predicate FirstFit(c: CompactBlock, n: nat) {
    n <= |c.prefilled| && forall i | 0 <= i < n :: Fits(c, i)
  }

  /** The block as far as its prefilled transactions go. */
  ghost function Layout(c: CompactBlock, i: nat): (s: Slots)
    requires FirstFit(c, i)
    ensures |s| == c.BlockTxCount()
  {
    if i == 0 then seq(c.BlockTxCount(), _ => None)
    else
      assert Fits(c, i - 1);
      Layout(c, i - 1)[Place(c.prefilled, i - 1) := Some(c.prefilled[i - 1].tx)]
  }

  /** The empty slots, in order. */
  function EmptySlots(s: Slots): (r: seq<nat>)
    ensures |r| <= |s| && forall j | 0 <= j < |r| :: r[j] < |s| && s[r[j]].None?
    ensures forall j, k | 0 <= j < k < |r| :: r[j] < r[k]
  {
    if s == [] then []
    else
      var n := |s| - 1;
      if s[n].None? then EmptySlots(s[..n]) + [n] else EmptySlots(s[..n])
  }

  lemma {:induction false} EmptyListed(s: Slots, k: nat)
    requires k < |s| && s[k].None?
    ensures k in EmptySlots(s)
  {
    var n := |s| - 1;
    if k < n {
      EmptyListed(s[..n], k);
    }
  }

  lemma {:induction false} EmptyUpdate(s: Slots, k: nat, tx: Tx)
    requires k < |s| && s[k].None?
    ensures |EmptySlots(s[k := Some(tx)])| == |EmptySlots(s)| - 1
  {
    var n := |s| - 1;
    var t := s[k := Some(tx)];
    if k < n {
      EmptyUpdate(s[..n], k, tx);
      assert t[..n] == s[..n][k := Some(tx)];
    } else {
      assert t[..n] == s[..n];
    }
  }

  lemma {:induction false} EmptyAll(n: nat)
    ensures |EmptySlots(seq(n, _ => None))| == n
  {
    if n > 0 {
      EmptyAll(n - 1);
      assert seq<Option<Tx>>(n, _ => None)[..n - 1] == seq<Option<Tx>>(n - 1, _ => None);
    }
  }

  /** Prefilled transactions take one slot each; the slots left over are one per short id. */
  lemma {:induction false} LayoutEmpty(c: CompactBlock, i: nat)
    requires FirstFit(c, i)
    ensures |EmptySlots(Layout(c, i))| == c.BlockTxCount() - i
    ensures forall k | After(c.prefilled, i) < k < c.BlockTxCount() :: Layout(c, i)[k].None?
    decreases i
  {
    if i == 0 {
      EmptyAll(c.BlockTxCount());
    } else {
      LayoutEmpty(c, i - 1);
      assert Fits(c, i - 1);
      EmptyUpdate(Layout(c, i - 1), Place(c.prefilled, i - 1), c.prefilled[i - 1].tx);
    }
  }

  lemma {:induction false} AfterRises(p: seq<Prefilled>, i: nat, j: nat)
    requires i < j <= |p|
    ensures After(p, i) < After(p, j)
    decreases j
  {
    if i < j - 1 { AfterRises(p, i, j - 1); }
  }

  lemma {:induction false} PlacesApart(p: seq<Prefilled>, i: nat, j: nat)
    requires i <= j < |p|
    ensures Place(p, j) >= Place(p, i) + (j - i)
    decreases j
  {
    if i < j { PlacesApart(p, i, j - 1); }
  }

  /** A prefilled transaction that is there, at a slot of the block. */
  ghost predicate Inside(c: CompactBlock, i: nat)
    requires i < |c.prefilled|
  {
    !c.prefilled[i].tx.isNull && Place(c.prefilled, i) < c.BlockTxCount() && Place(c.prefilled, i) <= 0xffff
  }

  /** The tests on prefilled transactions, one by one, accept exactly the messages that put all of them inside the
      block. */
  lemma FitInside(c: CompactBlock)
    ensures FirstFit(c, |c.prefilled|) <==> forall i | 0 <= i < |c.prefilled| :: Inside(c, i)
  {
    hide Place;
    if FirstFit(c, |c.prefilled|) {
      forall i | 0 <= i < |c.prefilled| ensures Inside(c, i) { assert Fits(c, i); }
    }
    if forall i | 0 <= i < |c.prefilled| :: Inside(c, i) {
      forall i | 0 <= i < |c.prefilled| ensures Fits(c, i) {
        assert Inside(c, i) && Inside(c, |c.prefilled| - 1);
        PlacesApart(c.prefilled, i, |c.prefilled| - 1);
      }
    }
  }

  /** What the layout holds: the prefilled transactions at their slots, and nothing else. */
  lemma {:induction false} LayoutAt(c: CompactBlock, i: nat, k: nat)
    requires FirstFit(c, i) && k < c.BlockTxCount()
    ensures forall m | 0 <= m < i && Place(c.prefilled, m) == k :: Layout(c, i)[k] == Some(c.prefilled[m].tx)
    ensures Layout(c, i)[k].Some? ==> exists m | 0 <= m < i :: Place(c.prefilled, m) == k
    decreases i
  {
    if i > 0 {
      LayoutAt(c, i - 1, k);
      assert Fits(c, i - 1);
      if Place(c.prefilled, i - 1) == k {
        forall m | 0 <= m < i - 1 ensures Place(c.prefilled, m) < k {
          AfterRises(c.prefilled, m + 1, i);
        }
      }
    }
  }

  // ---------------------------------------------------------------- matching by short id

  ghost predicate Distinct(s: seq<nat>) {
    forall j, k | 0 <= j < k < |s| :: s[j] != s[k]
  }

  /** The table from short ids to slots. */
  ghost predicate IdsOk(c: CompactBlock, slots: seq<nat>, ids: map<nat, Index16>) {
    |slots| == |c.shortIds| && Distinct(c.shortIds)
    && (forall j | 0 <= j < |slots| :: c.shortIds[j] in ids && ids[c.shortIds[j]] == slots[j])
    && forall id | id in ids :: id in c.shortIds
  }

  ghost predicate Listed(c: CompactBlock, j: nat, x: Candidate)
    requires j < |c.shortIds|
  {
    c.ShortId(x.wtxid) == c.shortIds[j]
  }

  /** Some entry is listed under the short id. */
  ghost predicate Mentioned(c: CompactBlock, j: nat, xs: seq<Candidate>)
    requires j < |c.shortIds|
  {
    exists m | 0 <= m < |xs| :: Listed(c, j, xs[m])
  }

  ghost predicate HasTx(c: CompactBlock, j: nat, x: Candidate)
    requires j < |c.shortIds|
  {
    Listed(c, j, x) && x.Transaction().Some?
  }

  /** Two transactions are listed under the short id, of which the second is in the pool or has another witness
      hash. One that is in the pool and in the extra list does not count twice. */
  ghost predicate Ambiguous(c: CompactBlock, j: nat, xs: seq<Candidate>)
    requires j < |c.shortIds|
  {
    exists m, n | 0 <= m < n < |xs| :: HasTx(c, j, xs[m]) && HasTx(c, j, xs[n]) && Conflict(xs[m], xs[n])
  }

  predicate Conflict(x: Candidate, y: Candidate) {
    x.Transaction().Some? && y.Transaction().Some?
    && (y.InPool? || x.Transaction().value.witnessHash != y.Transaction().value.witnessHash)
  }

  /** The first entry listed under the short id is a placeholder. */
  ghost predicate FirstBlank(c: CompactBlock, j: nat, xs: seq<Candidate>)
    requires j < |c.shortIds|
  {
    exists m | 0 <= m < |xs| :: FirstAt(c, j, xs, m) && xs[m].Transaction().None?
  }

  ghost predicate FirstAt(c: CompactBlock, j: nat, xs: seq<Candidate>, m: nat)
    requires j < |c.shortIds| && m < |xs|
  {
    Listed(c, j, xs[m]) && !Mentioned(c, j, xs[..m])
  }

  /** The transaction in a slot came from a candidate with the slot's short id. */
  ghost predicate FromCandidate(c: CompactBlock, j: nat, xs: seq<Candidate>, tx: Tx)
    requires j < |c.shortIds|
  {
    exists m | 0 <= m < |xs| :: Listed(c, j, xs[m]) && xs[m].Transaction() == Some(tx)
  }

  /** What has become of a short id's slot: no entry met, a transaction, emptied because of a second one, or
      taken by a placeholder. */
  datatype Held = Unmet | Holding(tx: Tx) | Dropped | Blank
  {
    function Slot(): Option<Tx> { if Holding? then Some(tx) else None }

    function Counted(): nat { if Holding? || Blank? then 1 else 0 }
  }

  /** One more entry with the slot's short id: a second transaction empties it, except that one from the extra
      list with the witness hash already there does not. */
  function Offer(h: Held, x: Candidate): Held {
    match h
    case Unmet => if x.Transaction().None? then Blank else Holding(x.Transaction().value)
    case Holding(tx) => if x.InPool? || (x.ref.Some? && x.ref.value.witnessHash != tx.witnessHash) then Dropped else h
    case _ => h
  }

  /** The slot of short id j once the entries have been gone through. */
  ghost function Met(c: CompactBlock, j: nat, xs: seq<Candidate>): Held
    requires j < |c.shortIds|
  {
    if xs == [] then Unmet
    else
      var n := |xs| - 1;
      if Listed(c, j, xs[n]) then Offer(Met(c, j, xs[..n]), xs[n]) else Met(c, j, xs[..n])
  }

  lemma MetSnoc(c: CompactBlock, j: nat, xs: seq<Candidate>, x: Candidate)
    requires j < |c.shortIds|
    ensures Met(c, j, xs + [x]) == if Listed(c, j, x) then Offer(Met(c, j, xs), x) else Met(c, j, xs)
  {
    assert (xs + [x])[..|xs|] == xs;
  }

  lemma MentionedSnoc(c: CompactBlock, j: nat, xs: seq<Candidate>, x: Candidate)
    requires j < |c.shortIds|
    ensures Mentioned(c, j, xs + [x]) <==> Mentioned(c, j, xs) || Listed(c, j, x)
  {
    hide Listed;
    var ys := xs + [x];
    assert ys[|xs|] == x && forall m | 0 <= m < |xs| :: ys[m] == xs[m];
    if Mentioned(c, j, xs) {
      var m :| 0 <= m < |xs| && Listed(c, j, xs[m]);
      assert Listed(c, j, ys[m]);
    }
  }

  lemma BlankSnoc(c: CompactBlock, j: nat, xs: seq<Candidate>, x: Candidate)
    requires j < |c.shortIds|
    ensures FirstBlank(c, j, xs + [x]) <==>
            if Mentioned(c, j, xs) then FirstBlank(c, j, xs) else Listed(c, j, x) && x.Transaction().None?
  {
    hide Listed;
    var ys := xs + [x];
    assert ys[|xs|] == x && ys[..|xs|] == xs;
    assert forall m | 0 <= m < |xs| :: ys[m] == xs[m] && ys[..m] == xs[..m];
    if FirstBlank(c, j, xs) {
      var m :| 0 <= m < |xs| && FirstAt(c, j, xs, m) && xs[m].Transaction().None?;
      assert FirstAt(c, j, ys, m);
    }
    if FirstBlank(c, j, ys) {
      var m :| 0 <= m < |ys| && FirstAt(c, j, ys, m) && ys[m].Transaction().None?;
      if m < |xs| { assert FirstAt(c, j, xs, m); }
    }
    if !Mentioned(c, j, xs) && Listed(c, j, x) { assert FirstAt(c, j, ys, |xs|); }
  }

  lemma AmbiguousSnoc(c: CompactBlock, j: nat, xs: seq<Candidate>, x: Candidate, tx: Tx)
    requires j < |c.shortIds|
    ensures Ambiguous(c, j, xs) || (FromCandidate(c, j, xs, tx) && HasTx(c, j, x) && Conflict(InPool(0, tx), x)) ==>
            Ambiguous(c, j, xs + [x])
  {
    var ys := xs + [x];
    assert ys[|xs|] == x && forall m | 0 <= m < |xs| :: ys[m] == xs[m];
    if Ambiguous(c, j, xs) {
      var m, n :| 0 <= m < n < |xs| && HasTx(c, j, xs[m]) && HasTx(c, j, xs[n]) && Conflict(xs[m], xs[n]);
      hide HasTx, Conflict;
      assert HasTx(c, j, ys[m]) && HasTx(c, j, ys[n]) && Conflict(ys[m], ys[n]);
    }
    if FromCandidate(c, j, xs, tx) && HasTx(c, j, x) && Conflict(InPool(0, tx), x) {
      var m :| 0 <= m < |xs| && Listed(c, j, xs[m]) && xs[m].Transaction() == Some(tx);
      assert HasTx(c, j, ys[m]) && HasTx(c, j, ys[|xs|]) && Conflict(ys[m], ys[|xs|]);
    }
  }

  /** The first entry listed under the short id is this transaction. */
  ghost predicate FirstTx(c: CompactBlock, j: nat, xs: seq<Candidate>, tx: Tx)
    requires j < |c.shortIds|
  {
    exists m | 0 <= m < |xs| :: FirstAt(c, j, xs, m) && xs[m].Transaction() == Some(tx)
  }

  lemma FirstSnoc(c: CompactBlock, j: nat, xs: seq<Candidate>, x: Candidate, tx: Tx)
    requires j < |c.shortIds|
    ensures FirstTx(c, j, xs, tx) ==> FirstTx(c, j, xs + [x], tx)
    ensures !Mentioned(c, j, xs) && Listed(c, j, x) && x.Transaction() == Some(tx) ==> FirstTx(c, j, xs + [x], tx)
  {
    hide Listed;
    var ys := xs + [x];
    assert ys[|xs|] == x && ys[..|xs|] == xs;
    if FirstTx(c, j, xs, tx) {
      var m :| 0 <= m < |xs| && FirstAt(c, j, xs, m) && xs[m].Transaction() == Some(tx);
      assert ys[..m] == xs[..m] && ys[m] == xs[m];
      assert FirstAt(c, j, ys, m);
    }
    if !Mentioned(c, j, xs) && Listed(c, j, x) { assert FirstAt(c, j, ys, |xs|); }
  }

  /** Without a conflict all transactions listed have the witness hash of the first. */
  lemma SameHash(c: CompactBlock, j: nat, xs: seq<Candidate>, tx: Tx, n: nat)
    requires j < |c.shortIds| && FirstTx(c, j, xs, tx) && !Ambiguous(c, j, xs) && n < |xs| && HasTx(c, j, xs[n])
    ensures xs[n].Transaction().value.witnessHash == tx.witnessHash
  {
    var m :| 0 <= m < |xs| && FirstAt(c, j, xs, m) && xs[m].Transaction() == Some(tx);
    forall k | 0 <= k < m ensures !Listed(c, j, xs[k]) { assert xs[..m][k] == xs[k]; }
    assert HasTx(c, j, xs[m]);
    assert m < n ==> !Conflict(xs[m], xs[n]);
  }

  /** A further entry makes a conflict exactly if it conflicts with the first. */
  lemma AmbiguousExact(c: CompactBlock, j: nat, xs: seq<Candidate>, x: Candidate, tx: Tx)
    requires j < |c.shortIds| && FirstTx(c, j, xs, tx) && !Ambiguous(c, j, xs)
    ensures Ambiguous(c, j, xs + [x]) <==> HasTx(c, j, x) && Conflict(InPool(0, tx), x)
  {
    var ys := xs + [x];
    FirstFrom(c, j, xs, tx);
    AmbiguousSnoc(c, j, xs, x, tx);
    forall m, n | 0 <= m < n < |xs| ensures !(HasTx(c, j, ys[m]) && HasTx(c, j, ys[n]) && Conflict(ys[m], ys[n])) {
      assert ys[m] == xs[m] && ys[n] == xs[n];
    }
    if Ambiguous(c, j, ys) {
      var m, n :| 0 <= m < n < |ys| && HasTx(c, j, ys[m]) && HasTx(c, j, ys[n]) && Conflict(ys[m], ys[n]);
      assert n == |xs| && ys[m] == xs[m];
      SameHash(c, j, xs, tx, m);
    }
  }

  lemma FirstFrom(c: CompactBlock, j: nat, xs: seq<Candidate>, tx: Tx)
    requires j < |c.shortIds| && FirstTx(c, j, xs, tx)
    ensures FromCandidate(c, j, xs, tx)
  {
    var m :| 0 <= m < |xs| && FirstAt(c, j, xs, m) && xs[m].Transaction() == Some(tx);
    assert Listed(c, j, xs[m]);
  }

  lemma UnlistedClear(c: CompactBlock, j: nat, xs: seq<Candidate>)
    requires j < |c.shortIds| && !Mentioned(c, j, xs)
    ensures !Ambiguous(c, j, xs)
  {
    hide Listed;
  }

  lemma SingleClear(c: CompactBlock, j: nat, xs: seq<Candidate>, x: Candidate)
    requires j < |c.shortIds| && !Mentioned(c, j, xs)
    ensures !Ambiguous(c, j, xs + [x])
  {
    var ys := xs + [x];
    forall m | 0 <= m < |xs| ensures !HasTx(c, j, ys[m]) { assert ys[m] == xs[m]; }
  }

  /** What each state says about the entries gone through, exactly. */
  lemma {:induction false} MetMeans(c: CompactBlock, j: nat, xs: seq<Candidate>)
    requires j < |c.shortIds|
    ensures Met(c, j, xs) == Unmet <==> !Mentioned(c, j, xs)
    ensures Met(c, j, xs) == Blank <==> FirstBlank(c, j, xs)
    ensures Met(c, j, xs) == Dropped <==> Ambiguous(c, j, xs) && !FirstBlank(c, j, xs)
    ensures Met(c, j, xs).Holding? ==> FirstTx(c, j, xs, Met(c, j, xs).tx)
  {
    if xs == [] {
      UnlistedClear(c, j, xs);
    } else {
      var front, x := xs[..|xs| - 1], xs[|xs| - 1];
      assert xs == front + [x];
      MetMeans(c, j, front);
      MetSnoc(c, j, front, x);
      MentionedSnoc(c, j, front, x);
      BlankSnoc(c, j, front, x);
      hide Met, Mentioned, FirstBlank, FirstTx, FromCandidate, Ambiguous, Listed;
      if Met(c, j, front).Holding? {
        FirstSnoc(c, j, front, x, Met(c, j, front).tx);
        AmbiguousExact(c, j, front, x, Met(c, j, front).tx);
      } else if Met(c, j, front).Unmet? {
        SingleClear(c, j, front, x);
        if x.Transaction().Some? { FirstSnoc(c, j, front, x, x.Transaction().value); }
      } else {
        AmbiguousSnoc(c, j, front, x, Tx(0, 0, false));
      }
    }
  }

  /** What a short id's slot holds, said of the entries alone: the first transaction listed, unless a placeholder
      comes first or two transactions conflict. */
  ghost predicate SlotHolds(c: CompactBlock, j: nat, xs: seq<Candidate>, slot: Option<Tx>)
    requires j < |c.shortIds|
  {
    && (slot.Some? <==> Mentioned(c, j, xs) && !FirstBlank(c, j, xs) && !Ambiguous(c, j, xs))
    && (slot.Some? ==> FirstTx(c, j, xs, slot.value))
  }

  lemma MetHolds(c: CompactBlock, j: nat, xs: seq<Candidate>)
    requires j < |c.shortIds|
    ensures SlotHolds(c, j, xs, Met(c, j, xs).Slot())
  {
    hide Met, Mentioned, FirstBlank, FirstTx, Ambiguous;
    MetMeans(c, j, xs);
  }

  // ---------------------------------------------------------------- the counter

  /** What the first k short ids contribute to the counter. */
  ghost function TallyTo(c: CompactBlock, xs: seq<Candidate>, k: nat): nat
    requires k <= |c.shortIds|
  {
    if k == 0 then 0 else TallyTo(c, xs, k - 1) + Met(c, k - 1, xs).Counted()
  }

  ghost function Tally(c: CompactBlock, xs: seq<Candidate>): nat {
    TallyTo(c, xs, |c.shortIds|)
  }

  /** How many of the first k short ids were met by a placeholder first. */
  ghost function BlanksTo(c: CompactBlock, xs: seq<Candidate>, k: nat): nat
    requires k <= |c.shortIds|
  {
    if k == 0 then 0 else BlanksTo(c, xs, k - 1) + if FirstBlank(c, k - 1, xs) then 1 else 0
  }

  ghost function Blanks(c: CompactBlock, xs: seq<Candidate>): nat {
    BlanksTo(c, xs, |c.shortIds|)
  }

  lemma {:induction false} TallyBound(c: CompactBlock, xs: seq<Candidate>, k: nat)
    requires k <= |c.shortIds|
    ensures TallyTo(c, xs, k) <= k
    ensures TallyTo(c, xs, k) == k ==> forall j | 0 <= j < k :: Met(c, j, xs) != Unmet
  {
    hide Met;
    if k > 0 { TallyBound(c, xs, k - 1); }
  }

  lemma {:induction false} TallySame(c: CompactBlock, xs: seq<Candidate>, ys: seq<Candidate>, k: nat)
    requires k <= |c.shortIds| && forall j | 0 <= j < k :: Met(c, j, xs) == Met(c, j, ys)
    ensures TallyTo(c, xs, k) == TallyTo(c, ys, k)
  {
    hide Met;
    if k > 0 { TallySame(c, xs, ys, k - 1); }
  }

  lemma {:induction false} TallyOne(c: CompactBlock, xs: seq<Candidate>, ys: seq<Candidate>, i: nat, k: nat)
    requires i < k <= |c.shortIds| && forall j | 0 <= j < k && j != i :: Met(c, j, xs) == Met(c, j, ys)
    ensures TallyTo(c, ys, k) == TallyTo(c, xs, k) + Met(c, i, ys).Counted() - Met(c, i, xs).Counted()
    decreases k
  {
    hide Met;
    if i < k - 1 { TallyOne(c, xs, ys, i, k - 1); } else { TallySame(c, xs, ys, i); }
  }

  lemma {:induction false} TallyNone(c: CompactBlock, k: nat)
    requires k <= |c.shortIds|
    ensures TallyTo(c, [], k) == 0
  {
    if k > 0 { TallyNone(c, k - 1); }
  }

  lemma {:induction false} BlanksZero(c: CompactBlock, xs: seq<Candidate>, k: nat)
    requires k <= |c.shortIds|
    ensures BlanksTo(c, xs, k) == 0 <==> forall j | 0 <= j < k :: !FirstBlank(c, j, xs)
  {
    hide FirstBlank;
    if k > 0 { BlanksZero(c, xs, k - 1); }
  }

  lemma {:induction false} BlanksSame(c: CompactBlock, xs: seq<Candidate>, ys: seq<Candidate>, k: nat)
    requires k <= |c.shortIds| && forall j | 0 <= j < k :: FirstBlank(c, j, xs) <==> FirstBlank(c, j, ys)
    ensures BlanksTo(c, xs, k) == BlanksTo(c, ys, k)
  {
    hide FirstBlank;
    if k > 0 { BlanksSame(c, xs, ys, k - 1); }
  }

  /** How many of the listed slots are filled. */
  function Filled(avail: Slots, slots: seq<nat>): (n: nat)
    requires forall j | 0 <= j < |slots| :: slots[j] < |avail|
    ensures n <= |slots|
  {
    if slots == [] then 0
    else
      var m := |slots| - 1;
      Filled(avail, slots[..m]) + if avail[slots[m]].Some? then 1 else 0
  }

  /** All slots: prefilled ones keep their transaction, the others are as the candidates leave them. */
  ghost predicate Matched(c: CompactBlock, base: Slots, slots: seq<nat>, xs: seq<Candidate>, avail: Slots,
                          have: seq<bool>) {
    slots == EmptySlots(base) && |slots| == |c.shortIds| && |avail| == |have| == |base|
    && (forall k | 0 <= k < |base| && base[k].Some? :: avail[k] == base[k])
    && forall j | 0 <= j < |slots| :: SlotIs(Met(c, j, xs), avail[slots[j]], have[slots[j]])
  }

  ghost predicate SlotIs(h: Held, slot: Option<Tx>, have: bool) {
    slot == h.Slot() && (have <==> h != Unmet)
  }

  /** The counter is the number of filled slots and of slots taken by placeholders. */
  lemma {:induction false} TallyIs(c: CompactBlock, base: Slots, slots: seq<nat>, xs: seq<Candidate>, avail: Slots,
                                   have: seq<bool>, k: nat)
    requires Matched(c, base, slots, xs, avail, have) && k <= |slots|
    ensures TallyTo(c, xs, k) == Filled(avail, slots[..k]) + BlanksTo(c, xs, k)
    decreases k
  {
    if k > 0 {
      TallyIs(c, base, slots, xs, avail, have, k - 1);
      assert slots[..k][..k - 1] == slots[..k - 1];
      assert SlotIs(Met(c, k - 1, xs), avail[slots[k - 1]], have[slots[k - 1]]);
      MetMeans(c, k - 1, xs);
    }
  }

  /** The short ids that the counter counts, said of the entries alone. */
  ghost function Taken(c: CompactBlock, xs: seq<Candidate>, k: nat): set<nat>
    requires k <= |c.shortIds|
  {
    set j | 0 <= j < k && TakenUp(c, j, xs)
  }

  ghost predicate TakenUp(c: CompactBlock, j: nat, xs: seq<Candidate>)
    requires j < |c.shortIds|
  {
    FirstBlank(c, j, xs) || (Mentioned(c, j, xs) && !Ambiguous(c, j, xs))
  }

  lemma CountedIs(c: CompactBlock, j: nat, xs: seq<Candidate>)
    requires j < |c.shortIds|
    ensures Met(c, j, xs).Counted() == if TakenUp(c, j, xs) then 1 else 0
  {
    hide FirstBlank, Mentioned, Ambiguous, Met;
    MetMeans(c, j, xs);
  }

  lemma {:induction false} TakenGrows(c: CompactBlock, xs: seq<Candidate>, k: nat)
    requires k < |c.shortIds|
    ensures |Taken(c, xs, k + 1)| == |Taken(c, xs, k)| + if TakenUp(c, k, xs) then 1 else 0
  {
    hide TakenUp;
    var was, now := Taken(c, xs, k), Taken(c, xs, k + 1);
    assert k !in was;
    if TakenUp(c, k, xs) {
      assert now == was + {k};
    } else {
      assert now == was;
    }
  }

  lemma {:induction false} TallyCounts(c: CompactBlock, xs: seq<Candidate>, k: nat)
    requires k <= |c.shortIds|
    ensures TallyTo(c, xs, k) == |Taken(c, xs, k)|
  {
    hide TakenUp, Met, Taken;
    if k == 0 {
      NoneTaken(c, xs);
    } else {
      TallyCounts(c, xs, k - 1);
      CountedIs(c, k - 1, xs);
      TakenGrows(c, xs, k - 1);
    }
  }

  lemma {:induction false} NoneTaken(c: CompactBlock, xs: seq<Candidate>)
    ensures |Taken(c, xs, 0)| == 0
  {
    assert Taken(c, xs, 0) == {};
  }

  // ---------------------------------------------------------------- one entry

  /** The entry lacks the transaction whose witness hash is asked for. */
  ghost predicate Clashes(c: CompactBlock, xs: seq<Candidate>, x: Candidate) {
    exists j | 0 <= j < |c.shortIds| :: Listed(c, j, x) && Met(c, j, xs).Holding? && x.Transaction().None?
  }

  lemma MatchedOther(c: CompactBlock, base: Slots, slots: seq<nat>, ids: map<nat, Index16>, xs: seq<Candidate>,
                     avail: Slots, have: seq<bool>, x: Candidate)
    requires Matched(c, base, slots, xs, avail, have) && IdsOk(c, slots, ids) && c.ShortId(x.wtxid) !in ids
    ensures Matched(c, base, slots, xs + [x], avail, have) && Tally(c, xs + [x]) == Tally(c, xs) && !Clashes(c, xs, x)
  {
    hide EmptySlots;
    forall j | 0 <= j < |slots| ensures !Listed(c, j, x) && Met(c, j, xs + [x]) == Met(c, j, xs) {
      assert c.shortIds[j] in ids;
      MetSnoc(c, j, xs, x);
    }
    TallySame(c, xs, xs + [x], |c.shortIds|);
  }

  lemma OnlyListed(c: CompactBlock, i: nat, j: nat, x: Candidate)
    requires Distinct(c.shortIds) && i < |c.shortIds| && j < |c.shortIds| && Listed(c, i, x) && Listed(c, j, x)
    ensures i == j
  {}

  lemma MatchedStep(c: CompactBlock, base: Slots, slots: seq<nat>, xs: seq<Candidate>, avail: Slots, have: seq<bool>,
                    x: Candidate, i: nat)
    requires Matched(c, base, slots, xs, avail, have) && Distinct(c.shortIds) && i < |slots| && Listed(c, i, x)
    ensures var h := Offer(Met(c, i, xs), x);
      && Matched(c, base, slots, xs + [x], avail[slots[i] := h.Slot()], have[slots[i] := true])
      && Tally(c, xs + [x]) == Tally(c, xs) + h.Counted() - Met(c, i, xs).Counted()
    ensures Clashes(c, xs, x) <==> Met(c, i, xs).Holding? && x.Transaction().None?
  {
    hide Distinct, Listed, Met, Offer, EmptySlots;
    forall j | 0 <= j < |slots|
      ensures Met(c, j, xs + [x]) == if j == i then Offer(Met(c, i, xs), x) else Met(c, j, xs)
      ensures j != i ==> !Listed(c, j, x)
    {
      if j != i && Listed(c, j, x) { OnlyListed(c, i, j, x); }
      MetSnoc(c, j, xs, x);
    }
    TallyOne(c, xs, xs + [x], i, |c.shortIds|);
    SlotsAfter(c, base, slots, xs, avail, have, x, i);
  }

  lemma SlotsAfter(c: CompactBlock, base: Slots, slots: seq<nat>, xs: seq<Candidate>, avail: Slots, have: seq<bool>,
                   x: Candidate, i: nat)
    requires Matched(c, base, slots, xs, avail, have) && i < |slots|
    requires forall j | 0 <= j < |slots| ::
        Met(c, j, xs + [x]) == if j == i then Offer(Met(c, i, xs), x) else Met(c, j, xs)
    ensures Matched(c, base, slots, xs + [x], avail[slots[i] := Offer(Met(c, i, xs), x).Slot()], have[slots[i] := true])
  {
    hide Met;
    var avail', have' := avail[slots[i] := Offer(Met(c, i, xs), x).Slot()], have[slots[i] := true];
    forall j | 0 <= j < |slots| ensures SlotIs(Met(c, j, xs + [x]), avail'[slots[j]], have'[slots[j]]) {
      assert i < j ==> slots[i] < slots[j];
      assert j < i ==> slots[j] < slots[i];
      assert SlotIs(Met(c, j, xs), avail[slots[j]], have[slots[j]]);
    }
  }

  lemma IndexOf(c: CompactBlock, slots: seq<nat>, ids: map<nat, Index16>, id: nat) returns (j: nat)
    requires IdsOk(c, slots, ids) && id in ids
    ensures j < |slots| && c.shortIds[j] == id && ids[id] == slots[j]
  {
    assert id in c.shortIds;
    j :| 0 <= j < |c.shortIds| && c.shortIds[j] == id;
  }

  // ---------------------------------------------------------------- how far the lists are gone through

  /** How many of the entries are looked at: all, or up to the first after which the counter, which started
      at `start`, is the number of short ids. */
  ghost function Stop(c: CompactBlock, seen: seq<Candidate>, xs: seq<Candidate>, start: int, i: nat): (n: nat)
    requires i <= |xs|
    ensures i <= n <= |xs|
    decreases |xs| - i
  {
    if i == |xs| then i
    else if start + Tally(c, seen + xs[..i + 1]) == |c.shortIds| then i + 1
    else Stop(c, seen, xs, start, i + 1)
  }

  lemma {:induction false} StopEarly(c: CompactBlock, seen: seq<Candidate>, xs: seq<Candidate>, start: int, i: nat)
    requires i <= |xs|
    ensures var n := Stop(c, seen, xs, start, i); n < |xs| ==> start + Tally(c, seen + xs[..n]) == |c.shortIds|
    decreases |xs| - i
  {
    hide Tally;
    if i < |xs| { StopEarly(c, seen, xs, start, i + 1); }
  }

  /** A list is gone through to its end, or to the first entry after which the counter is the number of short ids. */
  ghost predicate GoneThrough(c: CompactBlock, seen: seq<Candidate>, xs: seq<Candidate>, start: int, n: nat) {
    n <= |xs|
    && (n < |xs| ==> n > 0 && Counts(c, seen + xs[..n], start) == |c.shortIds|)
    && forall i | 0 < i < n :: Counts(c, seen + xs[..i], start) != |c.shortIds|
  }

  ghost function Counts(c: CompactBlock, xs: seq<Candidate>, start: int): int {
    start + |Taken(c, xs, |c.shortIds|)|
  }

  lemma {:induction false} StopGoneThrough(c: CompactBlock, seen: seq<Candidate>, xs: seq<Candidate>, start: int,
                                           i: nat)
    requires i <= |xs| && forall k | 0 < k <= i && k < |xs| :: Counts(c, seen + xs[..k], start) != |c.shortIds|
    ensures GoneThrough(c, seen, xs, start, Stop(c, seen, xs, start, i))
    decreases |xs| - i
  {
    hide Taken, TallyTo;
    if i < |xs| {
      TallyCounts(c, seen + xs[..i + 1], |c.shortIds|);
      if start + Tally(c, seen + xs[..i + 1]) != |c.shortIds| { StopGoneThrough(c, seen, xs, start, i + 1); }
    }
  }

  /** The entries of both lists that are looked at, when the counter starts at `start`. */
  ghost function PoolStop(c: CompactBlock, pool: seq<PoolEntry>, start: int): (n: nat)
    ensures n <= |pool|
  {
    Stop(c, [], pool, start, 0)
  }

  ghost function ExtraStop(c: CompactBlock, pool: seq<PoolEntry>, extra: seq<ExtraEntry>, start: int): (n: nat)
    ensures n <= |extra|
  {
    Stop(c, pool[..PoolStop(c, pool, start)], extra, start, 0)
  }

  ghost function Seen(c: CompactBlock, pool: seq<PoolEntry>, extra: seq<ExtraEntry>, start: int): seq<Candidate> {
    Both(pool[..PoolStop(c, pool, start)], extra[..ExtraStop(c, pool, extra, start)])
  }

  /** No placeholder is reached whose slot holds a transaction. */
  ghost predicate Clear(c: CompactBlock, seen: seq<Candidate>, xs: seq<Candidate>, n: nat)
    requires n <= |xs|
  {
    forall i | 0 <= i < n :: !Clashes(c, seen + xs[..i], xs[i])
  }

  ghost predicate Defined(c: CompactBlock, pool: seq<PoolEntry>, extra: seq<ExtraEntry>, start: int) {
    Clear(c, pool[..PoolStop(c, pool, start)], extra, ExtraStop(c, pool, extra, start))
  }

  /** No placeholder's short id occurs in the message. */
  ghost predicate NoBlankListed(c: CompactBlock, extra: seq<ExtraEntry>) {
    forall i | 0 <= i < |extra| && extra[i].ref.None? :: c.ShortId(extra[i].wtxid) !in c.shortIds
  }

  lemma NoBlankDefined(c: CompactBlock, pool: seq<PoolEntry>, extra: seq<ExtraEntry>, start: int)
    requires NoBlankListed(c, extra)
    ensures Defined(c, pool, extra, start)
    ensures forall j | 0 <= j < |c.shortIds| :: !FirstBlank(c, j, Both(pool, extra))
  {
    hide Stop, Met;
    var xs := Both(pool, extra);
    forall j | 0 <= j < |c.shortIds| ensures !FirstBlank(c, j, xs) {
      forall m | 0 <= m < |xs| && xs[m].Transaction().None? ensures !Listed(c, j, xs[m]) {
        assert xs[m] == extra[m - |pool|];
      }
    }
  }

  // ---------------------------------------------------------------- what a receiver ends up with

  ghost predicate Acceptable(c: CompactBlock) {
    c.header.Header? && c.BlockTxCount() > 0 && FirstFit(c, |c.prefilled|)
  }

  /** The slots that short ids stand for, in order. */
  ghost function ShortSlots(c: CompactBlock): (r: seq<nat>)
    requires FirstFit(c, |c.prefilled|)
    ensures |r| == |c.shortIds| && forall j | 0 <= j < |r| :: r[j] < c.BlockTxCount()
  {
    LayoutEmpty(c, |c.prefilled|);
    EmptySlots(Layout(c, |c.prefilled|))
  }

  /** Every slot is accounted for: prefilled ones hold the prefilled transaction, and every other one holds a
      candidate listed under its short id, or nothing. */
  ghost predicate Reconstructed(c: CompactBlock, xs: seq<Candidate>, avail: Slots) {
    FirstFit(c, |c.prefilled|) && |avail| == c.BlockTxCount()
    && (forall i | 0 <= i < |c.prefilled| ::
          Place(c.prefilled, i) < |avail| && avail[Place(c.prefilled, i)] == Some(c.prefilled[i].tx))
    && (forall j | 0 <= j < |c.shortIds| :: SlotFrom(c, j, xs, avail[ShortSlots(c)[j]]))
  }

  ghost predicate SlotFrom(c: CompactBlock, j: nat, xs: seq<Candidate>, slot: Option<Tx>)
    requires j < |c.shortIds|
  {
    slot.Some? ==> FromCandidate(c, j, xs, slot.value)
  }

  /** A slot stays empty only if no transaction is listed under its short id, or two that conflict are. */
  ghost predicate NothingOverlooked(c: CompactBlock, xs: seq<Candidate>, avail: Slots)
    requires FirstFit(c, |c.prefilled|) && |avail| == c.BlockTxCount()
  {
    forall j | 0 <= j < |c.shortIds| && avail[ShortSlots(c)[j]].None? :: !OneTx(c, j, xs)
  }

  /** A transaction is listed under the short id, and no two that conflict. */
  ghost predicate OneTx(c: CompactBlock, j: nat, xs: seq<Candidate>)
    requires j < |c.shortIds|
  {
    !Ambiguous(c, j, xs) && exists m | 0 <= m < |xs| :: HasTx(c, j, xs[m])
  }

  /** A slot holds what the entries that were looked at leave in it. */
  ghost predicate Settled(c: CompactBlock, seen: seq<Candidate>, avail: Slots)
    requires FirstFit(c, |c.prefilled|) && |avail| == c.BlockTxCount()
  {
    forall j | 0 <= j < |c.shortIds| :: avail[ShortSlots(c)[j]] == Met(c, j, seen).Slot()
  }

  lemma SeenWithin(c: CompactBlock, j: nat, pool: seq<PoolEntry>, extra: seq<ExtraEntry>, a: nat, b: nat, tx: Tx)
    requires j < |c.shortIds| && a <= |pool| && b <= |extra|
    ensures FromCandidate(c, j, Both(pool[..a], extra[..b]), tx) ==> FromCandidate(c, j, Both(pool, extra), tx)
    ensures Ambiguous(c, j, Both(pool[..a], extra[..b])) ==> Ambiguous(c, j, Both(pool, extra))
  {
    hide Listed, HasTx, Conflict;
    var seen, all := Both(pool[..a], extra[..b]), Both(pool, extra);
    forall m | 0 <= m < |seen| ensures Moved(pool, a, m) < |all| && all[Moved(pool, a, m)] == seen[m] {}
    if FromCandidate(c, j, seen, tx) {
      var m :| 0 <= m < |seen| && Listed(c, j, seen[m]) && seen[m].Transaction() == Some(tx);
      assert Listed(c, j, all[Moved(pool, a, m)]);
    }
    if Ambiguous(c, j, seen) {
      var m, n :| 0 <= m < n < |seen| && HasTx(c, j, seen[m]) && HasTx(c, j, seen[n]) && Conflict(seen[m], seen[n]);
      var p, q := Moved(pool, a, m), Moved(pool, a, n);
      assert HasTx(c, j, all[p]) && HasTx(c, j, all[q]) && Conflict(all[p], all[q]);
    }
  }

  /** Where an entry that was looked at stands in both lists. */
  ghost function Moved(pool: seq<PoolEntry>, a: nat, m: nat): nat
    requires a <= |pool|
  {
    if m < a then m else m - a + |pool|
  }

  lemma MatchedReconstructed(c: CompactBlock, pool: seq<PoolEntry>, extra: seq<ExtraEntry>, a: nat, b: nat,
                             avail: Slots, have: seq<bool>)
    requires FirstFit(c, |c.prefilled|) && a <= |pool| && b <= |extra|
    requires Matched(c, Layout(c, |c.prefilled|), ShortSlots(c), Both(pool[..a], extra[..b]), avail, have)
    ensures Reconstructed(c, Both(pool, extra), avail) && Settled(c, Both(pool[..a], extra[..b]), avail)
  {
    forall i | 0 <= i < |c.prefilled|
      ensures Place(c.prefilled, i) < |avail| && avail[Place(c.prefilled, i)] == Some(c.prefilled[i].tx)
    {
      assert Fits(c, i);
      LayoutAt(c, |c.prefilled|, Place(c.prefilled, i));
    }
    hide FirstFit, Layout, ShortSlots, FromCandidate, Met;
    var seen := Both(pool[..a], extra[..b]);
    forall j | 0 <= j < |c.shortIds|
      ensures avail[ShortSlots(c)[j]] == Met(c, j, seen).Slot()
          && SlotFrom(c, j, Both(pool, extra), avail[ShortSlots(c)[j]])
    {
      assert SlotIs(Met(c, j, seen), avail[ShortSlots(c)[j]], have[ShortSlots(c)[j]]);
      MetMeans(c, j, seen);
      if Met(c, j, seen).Holding? {
        FirstFrom(c, j, seen, Met(c, j, seen).tx);
        SeenWithin(c, j, pool, extra, a, b, Met(c, j, seen).tx);
      }
    }
  }

  // ---------------------------------------------------------------- new objects, whose counter starts at 0

  lemma {:induction false} MentionedMore(c: CompactBlock, j: nat, xs: seq<Candidate>, ys: seq<Candidate>)
    requires j < |c.shortIds| && Mentioned(c, j, xs)
    ensures Mentioned(c, j, xs + ys) && (FirstBlank(c, j, xs + ys) <==> FirstBlank(c, j, xs))
    decreases ys
  {
    if ys == [] {
      assert xs + ys == xs;
    } else {
      var front, y := ys[..|ys| - 1], ys[|ys| - 1];
      MentionedMore(c, j, xs, front);
      assert xs + ys == (xs + front) + [y];
      MentionedSnoc(c, j, xs + front, y);
      BlankSnoc(c, j, xs + front, y);
    }
  }

  lemma FullSeen(c: CompactBlock, xs: seq<Candidate>, j: nat)
    requires Tally(c, xs) == |c.shortIds| && j < |c.shortIds|
    ensures Mentioned(c, j, xs)
  {
    TallyBound(c, xs, |c.shortIds|);
    MetMeans(c, j, xs);
  }

  /** Going through the lists only in part overlooks no short id: it is met exactly if it occurs at all, and by
      a placeholder first exactly if its first entry in both lists is one. */
  lemma SeenEnough(c: CompactBlock, pool: seq<PoolEntry>, extra: seq<ExtraEntry>, j: nat)
    requires j < |c.shortIds|
    ensures var seen, all := Seen(c, pool, extra, 0), Both(pool, extra);
      && (Mentioned(c, j, seen) <==> Mentioned(c, j, all)) && (FirstBlank(c, j, seen) <==> FirstBlank(c, j, all))
  {
    var a, b := PoolStop(c, pool, 0), ExtraStop(c, pool, extra, 0);
    PoolEnough(c, pool, j);
    ExtraEnough(c, pool[..a], extra, j);
    hide PoolStop, ExtraStop, Mentioned, FirstBlank;
    if Mentioned(c, j, pool[..a]) {
      MentionedMore(c, j, pool[..a], extra[..b]);
      SplitPool(pool, extra, a);
      MentionedMore(c, j, pool[..a], Both(pool[a..], extra));
    } else {
      SplitPool(pool, extra, a);
    }
  }

  lemma PoolEnough(c: CompactBlock, pool: seq<PoolEntry>, j: nat)
    requires j < |c.shortIds|
    ensures var a := PoolStop(c, pool, 0); a == |pool| || Mentioned(c, j, pool[..a])
  {
    var a := PoolStop(c, pool, 0);
    StopEarly(c, [], pool, 0, 0);
    hide Stop, Tally;
    if a < |pool| {
      assert [] + pool[..a] == pool[..a];
      FullSeen(c, pool[..a], j);
    }
  }

  lemma ExtraEnough(c: CompactBlock, front: seq<PoolEntry>, extra: seq<ExtraEntry>, j: nat)
    requires j < |c.shortIds|
    ensures var b := Stop(c, front, extra, 0, 0);
      && (Mentioned(c, j, Both(front, extra[..b])) <==> Mentioned(c, j, Both(front, extra)))
      && (FirstBlank(c, j, Both(front, extra[..b])) <==> FirstBlank(c, j, Both(front, extra)))
  {
    var b := Stop(c, front, extra, 0, 0);
    StopEarly(c, front, extra, 0, 0);
    hide Stop, Tally, Mentioned, FirstBlank;
    if b < |extra| {
      FullSeen(c, Both(front, extra[..b]), j);
      MentionedMore(c, j, Both(front, extra[..b]), extra[b..]);
      assert extra == extra[..b] + extra[b..];
      assert Both(front, extra) == Both(front, extra[..b]) + extra[b..];
    } else {
      assert extra[..b] == extra;
    }
  }

  lemma SplitPool(pool: seq<PoolEntry>, extra: seq<ExtraEntry>, a: nat)
    requires a <= |pool|
    ensures Both(pool, extra) == pool[..a] + Both(pool[a..], extra)
    ensures a == |pool| ==> pool[..a] == pool
  {}

  /** On a new object the counter is the number of filled slots exactly if no short id's first entry in the pool
      and the extra list is a placeholder. */
  lemma CounterExact(c: CompactBlock, base: Slots, slots: seq<nat>, pool: seq<PoolEntry>, extra: seq<ExtraEntry>,
                     avail: Slots, have: seq<bool>)
    requires Matched(c, base, slots, Seen(c, pool, extra, 0), avail, have)
    ensures Tally(c, Seen(c, pool, extra, 0)) == Filled(avail, slots) + Blanks(c, Both(pool, extra))
    ensures Blanks(c, Both(pool, extra)) == 0 <==>
        forall j | 0 <= j < |c.shortIds| :: !FirstBlank(c, j, Both(pool, extra))
  {
    var seen, all := Seen(c, pool, extra, 0), Both(pool, extra);
    hide Seen, FirstBlank, Met, EmptySlots;
    TallyIs(c, base, slots, seen, avail, have, |slots|);
    assert slots[..|slots|] == slots;
    forall j | 0 <= j < |c.shortIds| ensures FirstBlank(c, j, seen) <==> FirstBlank(c, j, all) {
      SeenEnough(c, pool, extra, j);
    }
    BlanksSame(c, seen, all, |c.shortIds|);
    BlanksZero(c, all, |c.shortIds|);
  }

  /** Wherever the counter starts, nothing is overlooked exactly if every short id with one transaction is met
      among the entries that are looked at, and not by a placeholder first. */
  lemma OverlookedAt(c: CompactBlock, pool: seq<PoolEntry>, extra: seq<ExtraEntry>, start: int, avail: Slots)
    requires FirstFit(c, |c.prefilled|) && |avail| == c.BlockTxCount() && Settled(c, Seen(c, pool, extra, start), avail)
    ensures NothingOverlooked(c, Both(pool, extra), avail) <==> AllMet(c, pool, extra, start)
  {
    var seen, all := Seen(c, pool, extra, start), Both(pool, extra);
    hide FirstFit, ShortSlots, FirstBlank, Met, Ambiguous, HasTx, Stop, Mentioned;
    forall j | 0 <= j < |c.shortIds| && OneTx(c, j, all)
      ensures avail[ShortSlots(c)[j]].Some? <==> Mentioned(c, j, seen) && !FirstBlank(c, j, seen)
    {
      MetMeans(c, j, seen);
      SeenWithin(c, j, pool, extra, PoolStop(c, pool, start), ExtraStop(c, pool, extra, start), Tx(0, 0, false));
    }
  }

  ghost predicate AllMet(c: CompactBlock, pool: seq<PoolEntry>, extra: seq<ExtraEntry>, start: int) {
    forall j | 0 <= j < |c.shortIds| && OneTx(c, j, Both(pool, extra)) ::
      Mentioned(c, j, Seen(c, pool, extra, start)) && !FirstBlank(c, j, Seen(c, pool, extra, start))
  }

  /** On a new object nothing is overlooked exactly if no placeholder comes before the only transaction of a
      short id. */
  lemma OverlookedExact(c: CompactBlock, pool: seq<PoolEntry>, extra: seq<ExtraEntry>, avail: Slots)
    requires FirstFit(c, |c.prefilled|) && |avail| == c.BlockTxCount() && Settled(c, Seen(c, pool, extra, 0), avail)
    ensures NothingOverlooked(c, Both(pool, extra), avail) <==>
            forall j | 0 <= j < |c.shortIds| :: !(FirstBlank(c, j, Both(pool, extra)) && OneTx(c, j, Both(pool, extra)))
  {
    hide FirstFit, NothingOverlooked, Settled, FirstBlank, OneTx, Seen, Mentioned;
    OverlookedAt(c, pool, extra, 0, avail);
    forall j | 0 <= j < |c.shortIds|
      ensures OneTx(c, j, Both(pool, extra)) ==> Mentioned(c, j, Seen(c, pool, extra, 0))
      ensures FirstBlank(c, j, Seen(c, pool, extra, 0)) <==> FirstBlank(c, j, Both(pool, extra))
    {
      SeenEnough(c, pool, extra, j);
      OneMentioned(c, j, Both(pool, extra));
    }
  }

  lemma OneMentioned(c: CompactBlock, j: nat, xs: seq<Candidate>)
    requires j < |c.shortIds|
    ensures OneTx(c, j, xs) ==> Mentioned(c, j, xs)
  {
    if OneTx(c, j, xs) {
      var m :| 0 <= m < |xs| && HasTx(c, j, xs[m]);
      assert Listed(c, j, xs[m]);
    }
  }

  // ---------------------------------------------------------------- rebuilding the block

  /** The message describes the block. */
  ghost predicate Describes(c: CompactBlock, vtx: seq<Tx>) {
    FirstFit(c, |c.prefilled|) && |vtx| == c.BlockTxCount()
    && (forall i | 0 <= i < |c.prefilled| ::
      Place(c.prefilled, i) < |vtx| && c.prefilled[i].tx == vtx[Place(c.prefilled, i)])
    && forall j | 0 <= j < |c.shortIds| :: c.shortIds[j] == c.ShortId(vtx[ShortSlots(c)[j]].witnessHash)
  }

  /** No candidate transaction shares a short id with another transaction of the block. */
  ghost predicate NoForeign(c: CompactBlock, vtx: seq<Tx>, xs: seq<Candidate>)
    requires Describes(c, vtx)
  {
    forall j, m | 0 <= j < |c.shortIds| && 0 <= m < |xs| && HasTx(c, j, xs[m]) ::
      xs[m].Transaction() == Some(vtx[ShortSlots(c)[j]])
  }

  /** Available transactions where there are any, and the missing ones in order elsewhere. */
  function Merge(avail: Slots, missing: seq<Tx>): (vtx: seq<Tx>)
    requires |EmptySlots(avail)| <= |missing|
    ensures |vtx| == |avail|
  {
    if avail == [] then []
    else
      var n := |avail| - 1;
      Merge(avail[..n], missing) + [if avail[n].Some? then avail[n].value else missing[|EmptySlots(avail[..n])|]]
  }

  /** The transactions of a block that are still to be asked for, in order. */
  function Missing(avail: Slots, vtx: seq<Tx>): (r: seq<Tx>)
    requires |avail| == |vtx|
    ensures |r| == |EmptySlots(avail)|
  {
    seq(|EmptySlots(avail)|, i requires 0 <= i < |EmptySlots(avail)| => vtx[EmptySlots(avail)[i]])
  }

  ghost predicate Agrees(avail: Slots, vtx: seq<Tx>) {
    |avail| == |vtx| && forall k | 0 <= k < |avail| && avail[k].Some? :: avail[k].value == vtx[k]
  }

  lemma {:induction false} MergePrefix(avail: Slots, vtx: seq<Tx>, missing: seq<Tx>)
    requires Agrees(avail, vtx) && |EmptySlots(avail)| <= |missing|
    requires forall i | 0 <= i < |EmptySlots(avail)| :: missing[i] == vtx[EmptySlots(avail)[i]]
    ensures Merge(avail, missing) == vtx
    decreases avail
  {
    if avail != [] {
      var n := |avail| - 1;
      var e, front := EmptySlots(avail), EmptySlots(avail[..n]);
      assert forall i | 0 <= i < |front| :: e[i] == front[i];
      MergePrefix(avail[..n], vtx[..n], missing);
      assert vtx == vtx[..n] + [vtx[n]];
    }
  }

  /** A receiver that sees no foreign transaction under a short id, and is sent exactly the missing
      transactions, rebuilds the block. */
  lemma Rebuilds(c: CompactBlock, vtx: seq<Tx>, xs: seq<Candidate>, avail: Slots)
    requires Describes(c, vtx) && NoForeign(c, vtx, xs) && Reconstructed(c, xs, avail)
    ensures Merge(avail, Missing(avail, vtx)) == vtx
  {
    forall k | 0 <= k < |avail| && avail[k].Some? ensures avail[k].value == vtx[k] {
      SlotRight(c, vtx, xs, avail, k);
    }
    MergePrefix(avail, vtx, Missing(avail, vtx));
  }

  /** Every slot is a prefilled one or stands for a short id. */
  lemma SlotKinds(c: CompactBlock, k: nat)
    requires FirstFit(c, |c.prefilled|) && k < c.BlockTxCount()
    ensures (exists i | 0 <= i < |c.prefilled| :: Place(c.prefilled, i) == k) || k in ShortSlots(c)
  {
    LayoutAt(c, |c.prefilled|, k);
    if Layout(c, |c.prefilled|)[k].None? {
      EmptyListed(Layout(c, |c.prefilled|), k);
    }
  }

  lemma SlotRight(c: CompactBlock, vtx: seq<Tx>, xs: seq<Candidate>, avail: Slots, k: nat)
    requires Describes(c, vtx) && NoForeign(c, vtx, xs) && Reconstructed(c, xs, avail)
    requires k < |avail| && avail[k].Some?
    ensures avail[k].value == vtx[k]
  {
    SlotKinds(c, k);
    hide Listed, FirstFit, ShortSlots;
    if k in ShortSlots(c) {
      var j :| 0 <= j < |c.shortIds| && ShortSlots(c)[j] == k;
      assert SlotFrom(c, j, xs, avail[ShortSlots(c)[j]]);
      var m :| 0 <= m < |xs| && Listed(c, j, xs[m]) && xs[m].Transaction() == Some(avail[k].value);
      assert HasTx(c, j, xs[m]);
    } else {
      var i :| 0 <= i < |c.prefilled| && Place(c.prefilled, i) == k;
    }
  }
}
