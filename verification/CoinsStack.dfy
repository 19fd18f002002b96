/** Stacks of `CCoinsViewCache` objects: calls on any layer, and whole runs. */
module CoinsStack {
  import opened Options
  import opened CoinsView
  import opened CoinsCache
  import opened CoinsRun
  import opened CoinsFresh

  /** What a valid stack looks like from its top object. */
  lemma Layers(c: CoinsViewCache)
    requires c.Valid()
    ensures c.AsView().Cache? && Inv(c.AsView()) && c.AsView().base == c.BaseView()
    ensures c.base == null ==> c.BaseView().Db? && Depth(c.AsView()) == 1
    ensures c.base != null ==>
        c.base.Valid() && c.BaseView() == c.base.AsView() && c.base.repr <= c.repr && c.base.depth < c.depth
  {
    if c.base != null { c.Below(); }
  }

  /** A call on a lower layer that keeps what it promises to keep leaves the layers above valid. */
  lemma Above(v: View, op: Op)
    requires Inv(v) && Enabled(v, op)
    ensures Inv(Step(v, op))
  {
    hide Inv, Refines;
    StackRefines(v);
    StepRefines(v, Stack(v), op);
  }

  method FlushAt(c: CoinsViewCache, d: nat)
    requires c.Valid() && Enabled(c.AsView(), Op.Flush(d))
    modifies c.repr
    ensures c.Valid() && c.AsView() == Step(old(c.AsView()), Op.Flush(d))
    decreases c.depth
  {
    Layers(c);
    Above(c.AsView(), Op.Flush(d));
    hide Inv, CoinsView.Flush;
    if d == 0 {
      c.Flush();
    } else {
      FlushAt(c.base, d - 1);
      c.AboveBase();
    }
  }

  method SyncAt(c: CoinsViewCache, d: nat)
    requires c.Valid() && Enabled(c.AsView(), Op.Sync(d))
    modifies c.repr
    ensures c.Valid() && c.AsView() == Step(old(c.AsView()), Op.Sync(d))
    decreases c.depth
  {
    Layers(c);
    Above(c.AsView(), Op.Sync(d));
    hide Inv, CoinsView.Sync;
    if d == 0 {
      c.Sync();
    } else {
      SyncAt(c.base, d - 1);
      c.AboveBase();
    }
  }

  method UncacheAt(c: CoinsViewCache, d: nat, o: OutPoint)
    requires c.Valid() && Enabled(c.AsView(), Op.Uncache(d, o))
    modifies c.repr
    ensures c.Valid() && c.AsView() == Step(old(c.AsView()), Op.Uncache(d, o))
    decreases c.depth
  {
    Layers(c);
    Above(c.AsView(), Op.Uncache(d, o));
    hide Inv, CoinsView.Uncache;
    if d == 0 {
      c.Uncache(o);
    } else {
      UncacheAt(c.base, d - 1, o);
      c.AboveBase();
    }
  }

  /** The coin that the layer at depth `d` shows; the database is the last layer. */
  method GetAt(c: CoinsViewCache, d: nat, o: OutPoint) returns (coin: Option<Coin>)
    requires c.Valid() && Enabled(c.AsView(), Op.GetCoin(d, o))
    modifies c.repr
    ensures c.Valid() && c.AsView() == Step(old(c.AsView()), Op.GetCoin(d, o))
    ensures coin == Peek(At(old(c.AsView()), d), o)
    decreases c.depth
  {
    Layers(c);
    Above(c.AsView(), Op.GetCoin(d, o));
    hide Inv;
    if d == 0 {
      coin := c.GetCoin(o);
    } else if c.base == null {
      ghost var v := c.AsView();
      assert d == 1 && At(v, 1) == v.base && Put(v, 1, v.base) == v by { assert At(v.base, 0) == v.base; }
      coin := Get(c.db.coins, o);
    } else {
      coin := GetAt(c.base, d - 1, o);
      c.AboveBase();
    }
  }

  /** One call on a stack of objects does to every layer what it does to the stack as a value. The last cache is
      never taken off. */
  method Do(c: CoinsViewCache, op: Op) returns (top: CoinsViewCache)
    requires c.Valid() && Enabled(c.AsView(), op) && (op.Pop? ==> c.base != null)
    modifies c.repr
    ensures top.Valid() && top.AsView() == Step(old(c.AsView()), op) && fresh(top.repr - c.repr)
  {
    Layers(c);
    top := c;
    match op
    case AddCoin(o, coin, overwrite) => var thrown := c.AddCoin(o, coin, overwrite);
    case SpendCoin(o) => var spent, moveout := c.SpendCoin(o);
    case GetCoin(d, o) => var coin := GetAt(c, d, o);
    case Uncache(d, o) => UncacheAt(c, d, o);
    case Flush(d) => FlushAt(c, d);
    case Sync(d) => SyncAt(c, d);
    case SetBestBlock(h) => c.SetBestBlock(h);
    case Reset => c.Reset();
    case Push(overlay) => top := new CoinsViewCache(c, c.db, overlay);
    case Pop => top := c.base;
  }

  /** No call of the run takes off the last cache. */
  ghost predicate KeepsOne(v: View, ops: seq<Op>)
    requires RunEnabled(v, ops)
    decreases ops
  {
    ops == [] || ((ops[0].Pop? ==> Depth(v) > 1) && KeepsOne(Step(v, ops[0]), ops[1..]))
  }

  /** A run on a stack of objects of any depth: every layer shows what a plain map given the same calls holds. */
  method RunOn(c: CoinsViewCache, ops: seq<Op>) returns (top: CoinsViewCache)
    requires c.Valid() && RunEnabled(c.AsView(), ops) && KeepsOne(c.AsView(), ops)
    modifies c.repr
    ensures top.Valid() && top.AsView() == Run(old(c.AsView()), ops)
    ensures Stack(top.AsView()) == PlainRun(Stack(old(c.AsView())), ops)
    ensures Bests(top.AsView()) == PlainBestsRun(Bests(old(c.AsView())), ops)
    ensures Sharp(old(c.AsView())) && RunLooks(old(c.AsView()), ops) ==> Sharp(top.AsView())
  {
    Layers(c);
    hide Stack, PlainRun, Sharp, RunLooks, Bests, PlainBestsRun;
    RunRefines(c.AsView(), ops);
    RunBests(c.AsView(), ops);
    if Sharp(c.AsView()) && RunLooks(c.AsView(), ops) { RunSharp(c.AsView(), ops); }
    top := c;
    var i := 0;
    while i < |ops|
      invariant 0 <= i <= |ops| && top.Valid() && fresh(top.repr - c.repr)
      invariant RunEnabled(top.AsView(), ops[i..]) && KeepsOne(top.AsView(), ops[i..])
      invariant Run(top.AsView(), ops[i..]) == Run(old(c.AsView()), ops)
    {
      Layers(top);
      assert ops[i..][0] == ops[i] && ops[i..][1..] == ops[i + 1..];
      hide Step, Enabled;
      top := Do(top, ops[i]);
      i := i + 1;
    }
  }
}
