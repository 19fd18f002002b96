/** Whole runs on a stack of coin caches, compared with a stack of plain maps. */
module CoinsRun {
  import opened Options
  import opened CoinsView

  type Utxo = map<OutPoint, Coin>

  /** One call on the stack. Depth 0 is the top layer. Coins are added and spent at the top only: a
      base changes what it shows only through its child's flush. */
  datatype Op =
    | AddCoin(o: OutPoint, coin: Coin, overwrite: bool)
    | SpendCoin(o: OutPoint)
    | GetCoin(d: nat, o: OutPoint)
    | Uncache(d: nat, o: OutPoint)
    | Flush(d: nat)
    | Sync(d: nat)
    | SetBestBlock(hash: Hash)
    | Reset
    | Push(overlay: bool)
    | Pop

  function Depth(v: View): nat {
    if v.Db? then 0 else 1 + Depth(v.base)
  }

  function At(v: View, d: nat): View
    requires d <= Depth(v)
  {
    if d == 0 then v else At(v.base, d - 1)
  }

  function Put(v: View, d: nat, w: View): View
    requires d <= Depth(v)
  {
    if d == 0 then w else Cache(v.layer, Put(v.base, d - 1, w))
  }

  /** What the code demands of its callers. The database refuses a flush with a null block hash. */
  predicate Enabled(v: View, op: Op) {
    match op
    case AddCoin(o, c, overwrite) => v.Cache? && !c.IsSpent() && !AddMisused(v, o, c, overwrite)
    case GetCoin(d, _) => d <= Depth(v)
    case Uncache(d, _) => d < Depth(v)
    case Flush(d) => d < Depth(v) && FlushAllowed(At(v, d))
    case Sync(d) => d < Depth(v) && FlushAllowed(At(v, d))
    case Push(_) => true
    case _ => v.Cache?
  }

  predicate FlushAllowed(v: View) {
    v.Cache? && (v.base.Db? ==> v.layer.best != 0)
  }

  lemma AtCache(v: View, d: nat)
    requires d <= Depth(v)
    ensures At(v, d).Cache? <==> d < Depth(v)
  {}

  function Step(v: View, op: Op): View
    requires Enabled(v, op)
  {
    match op
    case AddCoin(o, c, overwrite) => Add(v, o, c, overwrite)
    case SpendCoin(o) => CoinsView.Spend(v, o)
    case GetCoin(d, o) => Put(v, d, Fetch(At(v, d), o))
    case Uncache(d, o) => AtCache(v, d); Put(v, d, CoinsView.Uncache(At(v, d), o))
    case Flush(d) => Put(v, d, CoinsView.Flush(At(v, d)))
    case Sync(d) => Put(v, d, CoinsView.Sync(At(v, d)))
    case SetBestBlock(h) => v.(layer := v.layer.(best := h))
    case Reset => CoinsView.Reset(v)
    case Push(overlay) => Cache(Layer(map[], 0, overlay), v)
    case Pop => v.base
  }

  ghost predicate RunEnabled(v: View, ops: seq<Op>)
    decreases ops
  {
    ops == [] || (Enabled(v, ops[0]) && RunEnabled(Step(v, ops[0]), ops[1..]))
  }

  function Run(v: View, ops: seq<Op>): View
    requires RunEnabled(v, ops)
    decreases ops
  {
    if ops == [] then v else Run(Step(v, ops[0]), ops[1..])
  }

  // ---------------------------------------------------------------- the plain maps

  /** The same calls on a stack of plain maps, top first: no flags, no caching. */
  function PlainStep(ms: seq<Utxo>, op: Op): seq<Utxo>
    requires |ms| > 0
  {
    match op
    case AddCoin(o, c, overwrite) =>
      if c.IsUnspendable() || (!overwrite && o in ms[0]) then ms else ms[0 := ms[0][o := c]]
    case SpendCoin(o) => ms[0 := ms[0] - {o}]
    case Flush(d) => if d + 1 < |ms| then ms[d + 1 := ms[d]] else ms
    case Sync(d) => if d + 1 < |ms| then ms[d + 1 := ms[d]] else ms
    case Reset => if |ms| > 1 then ms[0 := ms[1]] else ms
    case Push(_) => [ms[0]] + ms
    case Pop => if |ms| > 1 then ms[1..] else ms
    case _ => ms
  }

  function PlainRun(ms: seq<Utxo>, ops: seq<Op>): (r: seq<Utxo>)
    requires |ms| > 0
    ensures |r| > 0
    decreases ops
  {
    if ops == [] then ms else PlainRun(PlainStep(ms, ops[0]), ops[1..])
  }

  ghost predicate Shows(v: View, m: Utxo) {
    forall o :: Peek(v, o) == Get(m, o)
  }

  /** Every layer shows its plain map. */
  ghost predicate Refines(v: View, ms: seq<Utxo>) {
    && |ms| == Depth(v) + 1
    && Shows(v, ms[0])
    && (v.Cache? ==> Refines(v.base, ms[1..]))
  }

  /** The coins a view shows, as a map, for every layer from the top down. */
  function Stack(v: View): (ms: seq<Utxo>)
    ensures |ms| == Depth(v) + 1
    ensures forall o :: Peek(v, o) == Get(ms[0], o)
  {
    if v.Db? then [v.coins]
    else
      var below := Stack(v.base);
      [map o | o in v.layer.entries.Keys + below[0].Keys && Peek(v, o).Some? :: Peek(v, o).value] + below
  }

  lemma {:induction false} StackRefines(v: View)
    ensures Refines(v, Stack(v))
  {
    if v.Cache? {
      StackRefines(v.base);
      assert Stack(v)[1..] == Stack(v.base);
    }
  }

  lemma {:induction false} RefinesUnique(v: View, ms: seq<Utxo>)
    requires Refines(v, ms)
    ensures ms == Stack(v)
  {
    assert forall o :: Get(ms[0], o) == Get(Stack(v)[0], o);
    assert ms[0] == Stack(v)[0] by {
      assert forall o :: o in ms[0] <==> Get(ms[0], o).Some?;
      assert forall o :: o in Stack(v)[0] <==> Get(Stack(v)[0], o).Some?;
    }
    if v.Cache? {
      RefinesUnique(v.base, ms[1..]);
      assert ms == [ms[0]] + ms[1..];
    }
  }

  lemma {:induction false} AgreeRefines(v: View, w: View, ms: seq<Utxo>)
    requires Agree(v, w) && Refines(v, ms)
    ensures Refines(w, ms)
    decreases v
  {
    if v.Cache? { AgreeRefines(v.base, w.base, ms[1..]); }
  }

  /** What the layer at depth `d` shows. */
  lemma {:induction false} AtRefines(v: View, ms: seq<Utxo>, d: nat)
    requires Refines(v, ms) && d <= Depth(v)
    ensures Refines(At(v, d), ms[d..])
  {
    if d > 0 {
      AtRefines(v.base, ms[1..], d - 1);
      assert ms[1..][d - 1..] == ms[d..];
    } else {
      assert ms[0..] == ms;
    }
  }

  lemma {:induction false} AtInv(v: View, d: nat)
    requires Inv(v) && d <= Depth(v)
    ensures Inv(At(v, d))
  {
    if d > 0 { AtInv(v.base, d - 1); }
  }

  /** A layer in the middle may be replaced by one that shows the same, whatever lies below it:
      the layers above it keep their invariant and keep showing what they showed. */
  lemma {:induction false} PutRefines(v: View, ms: seq<Utxo>, d: nat, w: View, ws: seq<Utxo>)
    requires d <= Depth(v) && Inv(v) && Inv(w) && Refines(v, ms) && Refines(w, ws)
    requires ws[0] == ms[d]
    ensures Inv(Put(v, d, w)) && Refines(Put(v, d, w), ms[..d] + ws)
  {
    if d == 0 {
      assert ms[..0] + ws == ws;
    } else {
      PutRefines(v.base, ms[1..], d - 1, w, ws);
      var ms' := ms[1..][..d - 1] + ws;
      assert ms[..d] + ws == [ms[0]] + ms';
      assert ([ms[0]] + ms')[1..] == ms';
      var b := Put(v.base, d - 1, w);
      assert ms'[0] == ms[1];
      assert forall o :: Peek(b, o) == Peek(v.base, o) by {
        assert Shows(b, ms'[0]) && Shows(v.base, ms[1]);
      }
    }
  }

  lemma AddRefines(v: View, ms: seq<Utxo>, o: OutPoint, c: Coin, overwrite: bool)
    requires Inv(v) && Refines(v, ms) && v.Cache? && !c.IsSpent() && !AddMisused(v, o, c, overwrite)
    ensures Inv(Add(v, o, c, overwrite))
    ensures Refines(Add(v, o, c, overwrite), PlainStep(ms, AddCoin(o, c, overwrite)))
  {
    AddKeepsIff(v, o, c, overwrite);
    AddShows(v, o, c, overwrite);
    assert ms[1..] == PlainStep(ms, AddCoin(o, c, overwrite))[1..];
  }

  lemma SpendRefines(v: View, ms: seq<Utxo>, o: OutPoint)
    requires Inv(v) && Refines(v, ms) && v.Cache?
    ensures Inv(CoinsView.Spend(v, o))
    ensures Refines(CoinsView.Spend(v, o), PlainStep(ms, SpendCoin(o)))
  {
    var w := CoinsView.Spend(v, o);
    SpendKeeps(v, o);
    AgreeRefines(v.base, w.base, ms[1..]);
    assert ms[1..] == PlainStep(ms, SpendCoin(o))[1..];
  }

  /** A lookup or an eviction at depth `d`. */
  lemma FillRefines(v: View, ms: seq<Utxo>, d: nat, w: View)
    requires Inv(v) && Refines(v, ms) && d <= Depth(v) && Inv(w) && Agree(At(v, d), w)
    ensures Inv(Put(v, d, w)) && Refines(Put(v, d, w), ms)
  {
    AtRefines(v, ms, d);
    AgreeRefines(At(v, d), w, ms[d..]);
    PutRefines(v, ms, d, w, ms[d..]);
    assert ms[..d] + ms[d..] == ms;
  }

  /** Each call keeps the invariant and does to every layer what the plain maps say. */
  lemma StepRefines(v: View, ms: seq<Utxo>, op: Op)
    requires Inv(v) && Refines(v, ms) && Enabled(v, op)
    ensures Inv(Step(v, op)) && Refines(Step(v, op), PlainStep(ms, op))
  {
    var w := Step(v, op);
    match op
    case AddCoin(o, c, overwrite) =>
      AddRefines(v, ms, o, c, overwrite);
    case SpendCoin(o) =>
      SpendRefines(v, ms, o);
    case GetCoin(d, o) =>
      AtInv(v, d);
      FetchKeeps(At(v, d), o);
      FillRefines(v, ms, d, Fetch(At(v, d), o));
    case Uncache(d, o) =>
      AtCache(v, d);
      AtInv(v, d);
      UncacheKeeps(At(v, d), o);
      FillRefines(v, ms, d, CoinsView.Uncache(At(v, d), o));
    case Flush(d) =>
      AtInv(v, d);
      FlushKeeps(At(v, d));
      WriteRefines(v, ms, d, CoinsView.Flush(At(v, d)));
    case Sync(d) =>
      AtInv(v, d);
      SyncKeeps(At(v, d));
      WriteRefines(v, ms, d, CoinsView.Sync(At(v, d)));
    case SetBestBlock(h) =>
      assert forall o :: Peek(w, o) == Peek(v, o);
    case Reset =>
      ResetKeeps(v);
      assert ms[0 := ms[1]][1..] == ms[1..];
    case Push(overlay) =>
      assert ([ms[0]] + ms)[1..] == ms;
    case Pop =>
  }

  /** The common part of Flush and Sync at depth `d`. */
  lemma WriteRefines(v: View, ms: seq<Utxo>, d: nat, w: View)
    requires Inv(v) && Refines(v, ms) && d < Depth(v) && Inv(w) && w.Cache?
    requires var u := At(v, d);
      && u.Cache?
      && (forall o :: Peek(w, o) == Peek(u, o))
      && (forall o :: Peek(w.base, o) == Peek(u, o))
      && (u.base.Db? <==> w.base.Db?) && (u.base.Cache? ==> w.base.base == u.base.base)
    ensures Inv(Put(v, d, w)) && Refines(Put(v, d, w), ms[d + 1 := ms[d]])
  {
    var u := At(v, d);
    AtRefines(v, ms, d);
    var us := ms[d..];
    var ws := us[1 := us[0]];
    assert us[1..][1..] == ws[1..][1..];
    assert Refines(w.base, ws[1..]) by {
      assert Refines(u.base, us[1..]);
    }
    assert Refines(w, ws);
    PutRefines(v, ms, d, w, ws);
    assert ms[..d] + ws == ms[d + 1 := ms[d]];
  }

  lemma {:induction false} RunKeepsRefines(v: View, ms: seq<Utxo>, ops: seq<Op>)
    requires Inv(v) && Refines(v, ms) && RunEnabled(v, ops)
    ensures Inv(Run(v, ops)) && Refines(Run(v, ops), PlainRun(ms, ops))
    decreases ops
  {
    if ops != [] {
      StepRefines(v, ms, ops[0]);
      RunKeepsRefines(Step(v, ops[0]), PlainStep(ms, ops[0]), ops[1..]);
    }
  }

  /** For every run, on a stack of any depth, each layer shows what a plain map given the same calls
      holds, and the FRESH and DIRTY discipline survives. */
  lemma RunRefines(v: View, ops: seq<Op>)
    requires Inv(v) && RunEnabled(v, ops)
    ensures Inv(Run(v, ops))
    ensures Stack(Run(v, ops)) == PlainRun(Stack(v), ops)
  {
    StackRefines(v);
    RunKeepsRefines(v, Stack(v), ops);
    RefinesUnique(Run(v, ops), PlainRun(Stack(v), ops));
  }

  /** A lookup that finds a coin leaves an entry for it in every layer that it goes through, overlays excepted: one
      more lookup at any of these layers goes no further. */
  lemma {:induction false} FetchFills(v: View, o: OutPoint, d: nat)
    requires Peek(v, o).Some? && d < Depth(v)
    requires forall e | 0 <= e < d :: PassedOn(At(v, e), o)
    ensures Depth(Fetch(v, o)) == Depth(v) && At(Fetch(v, o), d).Cache? && o in At(Fetch(v, o), d).layer.entries
    decreases d
  {
    FetchDepth(v, o);
    if d > 0 {
      assert PassedOn(At(v, 0), o);
      forall e | 0 <= e < d - 1 ensures PassedOn(At(v.base, e), o) {
        assert At(v, e + 1) == At(v.base, e);
      }
      FetchFills(v.base, o, d - 1);
    }
  }

  /** An ordinary cache that has to ask its base. */
  predicate PassedOn(v: View, o: OutPoint) {
    v.Cache? && !v.layer.overlay && o !in v.layer.entries
  }

  lemma {:induction false} FetchDepth(v: View, o: OutPoint)
    ensures Depth(Fetch(v, o)) == Depth(v)
  {
    if v.Cache? { FetchDepth(v.base, o); }
  }

  // ---------------------------------------------------------------- overlays

  /** Calls on the top layer that do not write it back. */
  predicate IsLocal(op: Op) {
    match op
    case AddCoin(_, _, _) => true
    case SpendCoin(_) => true
    case GetCoin(d, _) => d == 0
    case Uncache(d, _) => d == 0
    case SetBestBlock(_) => true
    case Reset => true
    case _ => false
  }

  /** Any local calls on an overlay leave every layer below exactly as it was, and a final Reset
      leaves the overlay showing its base again. */
  lemma {:induction false} OverlayFrame(v: View, ops: seq<Op>)
    requires v.Cache? && v.layer.overlay && RunEnabled(v, ops)
    requires forall i | 0 <= i < |ops| :: IsLocal(ops[i])
    ensures Run(v, ops).Cache? && Run(v, ops).layer.overlay && Run(v, ops).base == v.base
    ensures CoinsView.Reset(Run(v, ops)) == Cache(Layer(map[], 0, true), v.base)
    decreases ops
  {
    if ops != [] {
      assert IsLocal(ops[0]);
      OverlayFrame(Step(v, ops[0]), ops[1..]);
    }
  }

  /** Two caches with the same entries over bases that show the same. */
  ghost predicate Twins(a: View, b: View) {
    && a.Cache? && b.Cache? && Inv(a.base) && Inv(b.base)
    && a.layer.entries == b.layer.entries && a.layer.best == b.layer.best
    && forall o :: Peek(a.base, o) == Peek(b.base, o)
  }

  lemma FetchTwins(a: View, b: View, o: OutPoint)
    requires Twins(a, b)
    ensures Twins(Fetch(a, o), Fetch(b, o))
  {
    FetchKeeps(a.base, o);
    FetchKeeps(b.base, o);
  }

  lemma StepTwins(a: View, b: View, op: Op)
    requires Twins(a, b) && IsLocal(op) && Enabled(a, op)
    ensures Enabled(b, op) && Twins(Step(a, op), Step(b, op))
  {
    if op.GetCoin? || op.SpendCoin? { FetchTwins(a, b, op.o); }
  }

  /** An overlay answers every lookup as an ordinary cache with the same entries would, after any
      local calls: both accept the same calls and end with the same entries. */
  lemma {:induction false} OverlayAnswers(a: View, b: View, ops: seq<Op>)
    requires Twins(a, b) && RunEnabled(a, ops)
    requires forall i | 0 <= i < |ops| :: IsLocal(ops[i])
    ensures RunEnabled(b, ops) && Twins(Run(a, ops), Run(b, ops))
    ensures forall o :: Peek(Run(a, ops), o) == Peek(Run(b, ops), o)
    decreases ops
  {
    if ops != [] {
      assert IsLocal(ops[0]);
      StepTwins(a, b, ops[0]);
      OverlayAnswers(Step(a, ops[0]), Step(b, ops[0]), ops[1..]);
    }
  }

  // ---------------------------------------------------------------- best block

  /** GetBestBlock: the layer's own hash, or the base's while it is null. */
  function BestBlock(v: View): Hash {
    if v.Db? then v.tip else if v.layer.best == 0 then BestBlock(v.base) else v.layer.best
  }

  /** Flush forwards the layer's hash even when it is null. It keeps the best block exactly when the
      hash has been set or the base was not relied on for one of its own. */
  lemma FlushKeepsBestIff(v: View)
    requires FlushAllowed(v)
    ensures BestBlock(CoinsView.Flush(v)) == BestBlock(v) <==>
            v.layer.best != 0 || BestBlock(v.base.base) == BestBlock(v.base)
    ensures v.layer.best != 0 ==> BestBlock(CoinsView.Flush(v).base) == BestBlock(v)
  {}

  /** So does Sync. */
  lemma SyncKeepsBestIff(v: View)
    requires FlushAllowed(v)
    ensures BestBlock(CoinsView.Sync(v)) == BestBlock(v) <==>
            v.layer.best != 0 || BestBlock(v.base.base) == BestBlock(v.base)
    ensures v.layer.best != 0 ==> BestBlock(CoinsView.Sync(v).base) == BestBlock(v)
  {}

  /** The best blocks of all layers, null ones included, from the top down to the database. */
  function Bests(v: View): (bs: seq<Hash>)
    ensures |bs| == Depth(v) + 1
  {
    if v.Db? then [v.tip] else [v.layer.best] + Bests(v.base)
  }

  /** What a call does to the best blocks: writing a layer back hands its hash down, and nothing but setting and
      resetting changes a layer's own. */
  function PlainBests(bs: seq<Hash>, op: Op): seq<Hash>
    requires |bs| > 0
  {
    match op
    case Flush(d) => if d + 1 < |bs| then bs[d + 1 := bs[d]] else bs
    case Sync(d) => if d + 1 < |bs| then bs[d + 1 := bs[d]] else bs
    case SetBestBlock(h) => bs[0 := h]
    case Reset => bs[0 := 0]
    case Push(_) => [0] + bs
    case Pop => bs[1..]
    case _ => bs
  }

  lemma {:induction false} FetchBests(v: View, o: OutPoint)
    ensures Bests(Fetch(v, o)) == Bests(v)
  {
    if v.Cache? && o !in v.layer.entries { FetchBests(v.base, o); }
  }

  lemma {:induction false} PutBests(v: View, d: nat, w: View)
    requires d <= Depth(v)
    ensures Bests(Put(v, d, w)) == Bests(v)[..d] + Bests(w) && Bests(At(v, d)) == Bests(v)[d..]
  {
    if d > 0 { PutBests(v.base, d - 1, w); }
  }

  lemma SameBests(v: View, d: nat, w: View)
    requires d <= Depth(v) && Bests(w) == Bests(At(v, d))
    ensures Bests(Put(v, d, w)) == Bests(v)
  {
    hide Bests;
    PutBests(v, d, w);
    assert Bests(v)[..d] + Bests(v)[d..] == Bests(v);
  }

  lemma StepBests(v: View, op: Op)
    requires Enabled(v, op)
    ensures Bests(Step(v, op)) == PlainBests(Bests(v), op)
  {
    match op
    case SpendCoin(o) =>
      FetchBests(v, o);
    case GetCoin(d, o) =>
      FetchBests(At(v, d), o);
      SameBests(v, d, Fetch(At(v, d), o));
    case Uncache(d, o) =>
      AtCache(v, d);
      SameBests(v, d, CoinsView.Uncache(At(v, d), o));
    case Flush(d) =>
      WriteBests(v, d, CoinsView.Flush(At(v, d)));
    case Sync(d) =>
      WriteBests(v, d, CoinsView.Sync(At(v, d)));
    case _ =>
  }

  lemma WriteBests(v: View, d: nat, w: View)
    requires d < Depth(v) && FlushAllowed(At(v, d))
    requires w.Cache? && w.layer.best == At(v, d).layer.best
          && w.base == BatchWrite(At(v, d).base, At(v, d).layer.entries, At(v, d).layer.best)
    ensures Bests(Put(v, d, w)) == Bests(v)[d + 1 := Bests(v)[d]]
  {
    PutBests(v, d, w);
    var bs, us := Bests(v), Bests(At(v, d));
    assert Bests(w) == us[1 := us[0]];
  }

  /** Over every run the best block of every layer is what these rules make it. */
  lemma {:induction false} RunBests(v: View, ops: seq<Op>)
    requires RunEnabled(v, ops)
    ensures Bests(Run(v, ops)) == PlainBestsRun(Bests(v), ops)
    decreases ops
  {
    if ops != [] {
      StepBests(v, ops[0]);
      RunBests(Step(v, ops[0]), ops[1..]);
    }
  }

  function PlainBestsRun(bs: seq<Hash>, ops: seq<Op>): seq<Hash>
    decreases ops
  {
    if ops == [] || bs == [] then bs else PlainBestsRun(PlainBests(bs, ops[0]), ops[1..])
  }

  /** A cache without a best block of its own, flushed into one that has block 5 over a database at block 3. */
  lemma BestLostExample()
    ensures var v := Cache(Layer(map[], 0, false), Cache(Layer(map[], 5, false), Db(map[], 3)));
      BestBlock(v) == 5 && BestBlock(CoinsView.Flush(v)) == 3
  {}
}
