/** How exact the FRESH flags are,
  over whole runs: an entry is FRESH exactly if the layer below shows no coin. So a coin
    that is created and spent above the database leaves no trace, and the database is asked to erase only coins
    that it holds. */
module CoinsFresh {
  import opened Options
  import opened CoinsView
  import opened CoinsRun

  /** An entry is FRESH exactly if the layer below shows nothing there. */
  ghost predicate Sharp(v: View) {
    v.Cache? ==>
      && Sharp(v.base)
      && forall o | o in v.layer.entries :: v.layer.entries[o].isFresh <==> Peek(v.base, o) == None
  }

  /** A coin is added without looking: overwriting is allowed, the layer has no entry, and the layers below show
      nothing. */
  predicate Blind(v: View, o: OutPoint, c: Coin, overwrite: bool)
    requires v.Cache?
  {
    !c.IsUnspendable() && overwrite && o !in v.layer.entries && Peek(v.base, o) == None
  }

  predicate Looks(v: View, op: Op)
    requires Enabled(v, op)
  {
    op.AddCoin? ==> !Blind(v, op.o, op.coin, op.overwrite)
  }

  ghost predicate RunLooks(v: View, ops: seq<Op>)
    requires RunEnabled(v, ops)
    decreases ops
  {
    ops == [] || (Looks(v, ops[0]) && RunLooks(Step(v, ops[0]), ops[1..]))
  }

  /** Adding keeps the flags exact if and only if it is not blind. */
  lemma AddSharpIff(v: View, o: OutPoint, c: Coin, overwrite: bool)
    requires v.Cache? && Inv(v) && Sharp(v) && !c.IsSpent() && !AddMisused(v, o, c, overwrite)
    ensures Sharp(Add(v, o, c, overwrite)) <==> !Blind(v, o, c, overwrite)
  {
    var w := Add(v, o, c, overwrite);
    if Blind(v, o, c, overwrite) {
      assert o in w.layer.entries && !w.layer.entries[o].isFresh;
    } else {
      forall p | p in w.layer.entries ensures w.layer.entries[p].isFresh <==> Peek(w.base, p) == None {
        if p in v.layer.entries { assert EntryOk(v.layer.entries[p], Peek(v.base, p)); }
      }
    }
  }

  /** A blind addition that is then spent: the database is to erase a coin that it never held. */
  lemma BlindExample()
    ensures var o, c := OutPoint(7, 0), Coin(50, [], false, 1);
      var v := Cache(Layer(map[], 0, false), Db(map[], 1));
      var w := CoinsView.Spend(Add(v, o, c, true), o);
      Inv(v) && Sharp(v) && Blind(v, o, c, true) && o in w.layer.entries && w.layer.entries[o].coin.IsSpent()
  {}

  lemma {:induction false} FetchSharp(v: View, o: OutPoint)
    requires Inv(v) && Sharp(v)
    ensures Sharp(Fetch(v, o))
  {
    if v.Cache? && o !in v.layer.entries {
      FetchSharp(v.base, o);
      FetchKeeps(v.base, o);
    }
  }

  lemma SpendSharp(v: View, o: OutPoint)
    requires v.Cache? && Inv(v) && Sharp(v)
    ensures Sharp(CoinsView.Spend(v, o))
  {
    FetchSharp(v, o);
    FetchKeeps(v, o);
  }

  /** A merged entry is FRESH exactly if the grandparent shows nothing, and is kept only if it is needed there. */
  lemma MergeEntrySharp(p: Option<Entry>, c: Entry, grand: Option<Coin>)
    requires PairOk(p, c, grand)
    requires p.Some? ==> (p.value.isFresh <==> grand == None)
    requires c.isFresh <==> if p.None? then grand == None else p.value.coin.IsSpent()
    ensures var m := MergeEntry(p, c); m.Some? ==> (m.value.isFresh <==> grand == None)
    ensures c.isDirty ==> (MergeEntry(p, c).None? <==> c.coin.IsSpent() && grand == None)
  {}

  lemma BatchWriteSharp(child: Layer, v: View, hash: Hash)
    requires Inv(Cache(child, v)) && Sharp(Cache(child, v))
    ensures Sharp(BatchWrite(v, child.entries, hash))
  {
    if v.Cache? {
      var es, w := child.entries, BatchWrite(v, child.entries, hash);
      forall o | o in w.layer.entries ensures w.layer.entries[o].isFresh <==> Peek(w.base, o) == None {
        assert Merged(v.layer.entries, es, es.Keys, o) == Some(w.layer.entries[o]);
        if o in es {
          PeekUnspent(v.base, o);
          MergeEntrySharp(Get(v.layer.entries, o), es[o], Peek(v.base, o));
        }
      }
    }
  }

  lemma FlushSharp(v: View)
    requires v.Cache? && Inv(v) && Sharp(v)
    ensures Sharp(CoinsView.Flush(v)) && Sharp(CoinsView.Sync(v))
  {
    BatchWriteSharp(v.layer, v.base, v.layer.best);
    SyncKeeps(v);
    var w := CoinsView.Sync(v);
    forall o | o in w.layer.entries ensures !w.layer.entries[o].isFresh && Peek(w.base, o) != None {
      assert Peek(w, o) == Some(w.layer.entries[o].coin);
    }
  }

  lemma {:induction false} AtSharp(v: View, d: nat)
    requires Sharp(v) && d <= Depth(v)
    ensures Sharp(At(v, d))
  {
    if d > 0 { AtSharp(v.base, d - 1); }
  }

  /** A layer in the middle may be replaced by one that shows the same. */
  lemma {:induction false} PutSharp(v: View, d: nat, w: View)
    requires d <= Depth(v) && Sharp(v) && Sharp(w) && forall o :: Peek(w, o) == Peek(At(v, d), o)
    ensures Sharp(Put(v, d, w)) && forall o :: Peek(Put(v, d, w), o) == Peek(v, o)
  {
    if d > 0 { PutSharp(v.base, d - 1, w); }
  }

  lemma StepSharp(v: View, op: Op)
    requires Inv(v) && Sharp(v) && Enabled(v, op) && Looks(v, op)
    ensures Sharp(Step(v, op))
  {
    match op
    case AddCoin(o, c, overwrite) =>
      AddSharpIff(v, o, c, overwrite);
    case SpendCoin(o) =>
      SpendSharp(v, o);
    case GetCoin(d, o) =>
      AtInv(v, d);
      AtSharp(v, d);
      FetchSharp(At(v, d), o);
      FetchKeeps(At(v, d), o);
      PutSharp(v, d, Fetch(At(v, d), o));
    case Uncache(d, o) =>
      AtCache(v, d);
      AtInv(v, d);
      AtSharp(v, d);
      UncacheKeeps(At(v, d), o);
      PutSharp(v, d, CoinsView.Uncache(At(v, d), o));
    case Flush(d) =>
      AtInv(v, d);
      AtSharp(v, d);
      FlushSharp(At(v, d));
      FlushKeeps(At(v, d));
      PutSharp(v, d, CoinsView.Flush(At(v, d)));
    case Sync(d) =>
      AtInv(v, d);
      AtSharp(v, d);
      FlushSharp(At(v, d));
      SyncKeeps(At(v, d));
      PutSharp(v, d, CoinsView.Sync(At(v, d)));
    case _ =>
  }

  /** Over every run without blind additions the FRESH flags of all layers stay exact. */
  lemma {:induction false} RunSharp(v: View, ops: seq<Op>)
    requires Inv(v) && Sharp(v) && RunEnabled(v, ops) && RunLooks(v, ops)
    ensures Inv(Run(v, ops)) && Sharp(Run(v, ops))
    decreases ops
  {
    if ops != [] {
      StepSharp(v, ops[0]);
      StackRefines(v);
      StepRefines(v, Stack(v), ops[0]);
      RunSharp(Step(v, ops[0]), ops[1..]);
    }
  }

  /** No layer shows a coin. */
  ghost predicate Nowhere(v: View, o: OutPoint) {
    Peek(v, o) == None && (v.Cache? ==> Nowhere(v.base, o))
  }

  /** No layer has an entry, and the database has no coin. */
  ghost predicate Traceless(v: View, o: OutPoint) {
    if v.Db? then o !in v.coins else o !in v.layer.entries && Traceless(v.base, o)
  }

  /** With exact flags, an outpoint that no layer shows has no entry in any layer. */
  lemma {:induction false} NowhereTraceless(v: View, o: OutPoint)
    requires Inv(v) && Sharp(v)
    ensures Nowhere(v, o) <==> Traceless(v, o)
  {
    if v.Cache? {
      NowhereTraceless(v.base, o);
      if o in v.layer.entries { assert EntryOk(v.layer.entries[o], Peek(v.base, o)); }
    }
  }

  /** A coin that a run creates and spends again, whatever was flushed, synced, pushed or popped in between, leaves
      no entry behind if it is shown nowhere at the end. */
  lemma RunTraceless(v: View, ops: seq<Op>, o: OutPoint)
    requires Inv(v) && Sharp(v) && RunEnabled(v, ops) && RunLooks(v, ops) && Nowhere(Run(v, ops), o)
    ensures Traceless(Run(v, ops), o)
  {
    RunSharp(v, ops);
    NowhereTraceless(Run(v, ops), o);
  }

  /** What the lowest cache sends to the database: it erases only coins that the database holds. */
  lemma {:induction false} ErasesHeld(v: View, d: nat, o: OutPoint)
    requires Inv(v) && Sharp(v) && d < Depth(v)
    ensures var u := At(v, d);
      u.Cache? && (u.base.Db? && o in u.layer.entries && u.layer.entries[o].coin.IsSpent() ==> o in u.base.coins)
  {
    AtCache(v, d);
    AtInv(v, d);
    AtSharp(v, d);
  }

  lemma FlushDepth(v: View)
    requires v.Cache?
    ensures CoinsView.Flush(v).Cache? && Depth(CoinsView.Flush(v).base) == Depth(v.base)
  {}

  /** Moves what the top layer holds down through `k` layers, one Flush at a time. */
  function Down(v: View, k: nat): (w: View)
    requires k < Depth(v)
    ensures Depth(w) == Depth(v)
    decreases k
  {
    if k == 0 then v
    else
      FlushDepth(v);
      var w := CoinsView.Flush(v);
      Cache(w.layer, Down(w.base, k - 1))
  }

  /** A FRESH coin is still FRESH after a Flush into a layer without an entry. */
  lemma FreshFlushed(v: View, o: OutPoint, c: Coin)
    requires v.Cache? && v.base.Cache? && !c.IsSpent()
    requires o in v.layer.entries && v.layer.entries[o] == Entry(c, true, true) && o !in v.base.layer.entries
    ensures var w := CoinsView.Flush(v);
      && w.base.Cache? && o !in w.layer.entries && w.base.base == v.base.base
      && o in w.base.layer.entries && w.base.layer.entries[o] == Entry(c, true, true)
  {
    assert Merged(v.base.layer.entries, v.layer.entries, v.layer.entries.Keys, o) == Some(Entry(c, true, true));
  }

  /** A coin added where nothing is shown is still FRESH when it has been flushed down through any number of layers,
      and spending it there drops its entry: nothing is left for the database to write or erase. */
  lemma {:induction false} SpentBelow(v: View, o: OutPoint, c: Coin, k: nat)
    requires k < Depth(v) && !c.IsSpent()
    requires o in v.layer.entries && v.layer.entries[o] == Entry(c, true, true) && Traceless(v.base, o)
    ensures At(Down(v, k), k).Cache?
    ensures Traceless(Put(Down(v, k), k, CoinsView.Spend(At(Down(v, k), k), o)), o)
    decreases k
  {
    if k == 0 {
      assert Fetch(v, o) == v;
    } else {
      FreshFlushed(v, o, c);
      FlushDepth(v);
      var w := CoinsView.Flush(v);
      hide CoinsView.Flush, CoinsView.Spend;
      SpentBelow(w.base, o, c, k - 1);
    }
  }

  /** In the words of the calls: AddCoin, any number of Flush calls, SpendCoin. */
  lemma AddedAndSpent(v: View, o: OutPoint, c: Coin, k: nat)
    requires k < Depth(v) && !c.IsSpent() && !c.IsUnspendable() && Traceless(v, o)
    ensures var w := Down(Add(v, o, c, false), k);
      At(w, k).Cache? && Traceless(Put(w, k, CoinsView.Spend(At(w, k), o)), o)
  {
    SpentBelow(Add(v, o, c, false), o, c, k);
  }
}
