/** The layered UTXO view as values: what each cache layer stores, what it shows, and how the
    operations of `CCoinsViewCache` change a whole stack of layers.

    `CoinsCache.dfy` implements the same operations in place, with the intrusive list of flagged
    entries, and proves that its methods compute exactly the functions of this module. */
module CoinsView {
  import opened Options

  datatype OutPoint = OutPoint(txid: nat, n: nat)

  /** A block hash; 0 is the null hash. */
  type Hash = nat

  const OP_RETURN := 0x6a
  const MAX_SCRIPT_SIZE := 10000
  /** Scripts up to this length are stored inside the coin and own no heap memory. */
  const DIRECT_SCRIPT_SIZE := 36

  datatype Coin = Coin(value: int, script: seq<nat>, coinBase: bool, height: nat) {
    predicate IsSpent() { value == -1 }

    predicate IsUnspendable() {
      (|script| > 0 && script[0] == OP_RETURN) || |script| > MAX_SCRIPT_SIZE
    }

    function DynamicMemoryUsage(): nat {
      if |script| <= DIRECT_SCRIPT_SIZE then 0 else (|script| + 31) / 16 * 16
    }
  }

  /** A default-constructed or cleared coin. */
  const NULL_COIN := Coin(-1, [], false, 0)

  datatype Entry = Entry(coin: Coin, isDirty: bool, isFresh: bool)

  type Entries = map<OutPoint, Entry>

  /** One `CCoinsViewCache`. An overlay looks through the layers below without filling them. */
  datatype Layer = Layer(entries: Entries, best: Hash, overlay: bool)

  /** A stack of caches on top of the coin database. */
  datatype View =
    | Db(coins: map<OutPoint, Coin>, tip: Hash)
    | Cache(layer: Layer, base: View)

  /** PeekCoin: what a view shows at an outpoint. */
  function Peek(v: View, o: OutPoint): Option<Coin> {
    match v
    case Db(coins, _) => if o in coins then Some(coins[o]) else None
    case Cache(layer, base) =>
      if o in layer.entries then
        if layer.entries[o].coin.IsSpent() then None else Some(layer.entries[o].coin)
      else Peek(base, o)
  }

  /** The legal flag combinations of a cached entry, relative to what the parent shows. */
  predicate EntryOk(e: Entry, parent: Option<Coin>) {
    && (e.coin.IsSpent() ==> e.coin == NULL_COIN && e.isDirty && !e.isFresh)
    && (e.isFresh ==> e.isDirty && parent == None)
    && (!e.isDirty ==> parent == Some(e.coin))
  }

  ghost predicate Inv(v: View) {
    match v
    case Db(coins, _) => forall o | o in coins :: !coins[o].IsSpent()
    case Cache(layer, base) =>
      && Inv(base)
      && forall o | o in layer.entries :: EntryOk(layer.entries[o], Peek(base, o))
  }

  // ---------------------------------------------------------------- operations

  /** GetCoin / FetchCoin: look a coin up, filling the layers on the way back. */
  function Fetch(v: View, o: OutPoint): View {
    match v
    case Db(_, _) => v
    case Cache(layer, base) =>
      if o in layer.entries then v
      else
        var base' := if layer.overlay then base else Fetch(base, o);
        match Peek(base, o)
        case None => Cache(layer, base')
        case Some(c) => Cache(layer.(entries := layer.entries[o := Entry(c, false, false)]), base')
  }

  predicate AddThrows(es: Entries, o: OutPoint, c: Coin, overwrite: bool) {
    !c.IsUnspendable() && !overwrite && o in es && !es[o].coin.IsSpent()
  }

  /** AddCoin on one layer's entries. */
  function AddEntry(es: Entries, o: OutPoint, c: Coin, overwrite: bool): Entries {
    if c.IsUnspendable() || AddThrows(es, o, c, overwrite) then es
    else
      var wasFresh := o in es && es[o].isFresh;
      var nowFresh := !overwrite && !(o in es && es[o].isDirty);
      es[o := Entry(c, true, wasFresh || nowFresh)]
  }

  function Add(v: View, o: OutPoint, c: Coin, overwrite: bool): View
    requires v.Cache?
  {
    v.(layer := v.layer.(entries := AddEntry(v.layer.entries, o, c, overwrite)))
  }

  /** SpendCoin once the coin has been fetched. */
  function SpendEntry(es: Entries, o: OutPoint): Entries {
    if o !in es then es
    else if es[o].isFresh then es - {o}
    else es[o := Entry(NULL_COIN, true, es[o].isFresh)]
  }

  function Spend(v: View, o: OutPoint): View
    requires v.Cache?
  {
    var w := Fetch(v, o);
    w.(layer := w.layer.(entries := SpendEntry(w.layer.entries, o)))
  }

  function UncacheEntry(es: Entries, o: OutPoint): Entries {
    if o in es && !es[o].isDirty then es - {o} else es
  }

  function Uncache(v: View, o: OutPoint): View
    requires v.Cache?
  {
    v.(layer := v.layer.(entries := UncacheEntry(v.layer.entries, o)))
  }

  function Reset(v: View): View
    requires v.Cache?
  {
    v.(layer := v.layer.(entries := map[], best := 0))
  }

  /** The logic error raised when a FRESH child coin already exists in the parent. */
  predicate MergeThrows(parent: Option<Entry>, child: Entry) {
    parent.Some? && child.isFresh && !parent.value.coin.IsSpent()
  }

  /** One iteration of `CCoinsViewCache::BatchWrite`: the parent's entry after taking the child's. */
  function MergeEntry(parent: Option<Entry>, child: Entry): Option<Entry> {
    if !child.isDirty then parent
    else match parent
      case None =>
        if child.isFresh && child.coin.IsSpent() then None else Some(Entry(child.coin, true, child.isFresh))
      case Some(p) =>
        if p.isFresh && child.coin.IsSpent() then None else Some(Entry(child.coin, true, p.isFresh))
  }

  /** The parent's entry at `o` after the child entries whose outpoints are in `done` were written. */
  function Merged(parent: Entries, child: Entries, done: set<OutPoint>, o: OutPoint): Option<Entry> {
    if o in done && o in child then MergeEntry(Get(parent, o), child[o]) else Get(parent, o)
  }

  function Merge(parent: Entries, child: Entries, done: set<OutPoint>): Entries {
    map o | o in parent.Keys + child.Keys && Merged(parent, child, done, o).Some?
      :: Merged(parent, child, done, o).value
  }

  /** `CCoinsViewDB::BatchWrite`: erase spent coins, write the others. */
  function DbWritten(coins: map<OutPoint, Coin>, child: Entries, done: set<OutPoint>, o: OutPoint): Option<Coin> {
    if o in done && o in child && child[o].isDirty then
      if child[o].coin.IsSpent() then None else Some(child[o].coin)
    else Get(coins, o)
  }

  function DbMerge(coins: map<OutPoint, Coin>, child: Entries, done: set<OutPoint>): map<OutPoint, Coin> {
    map o | o in coins.Keys + child.Keys && DbWritten(coins, child, done, o).Some?
      :: DbWritten(coins, child, done, o).value
  }

  function BatchWrite(v: View, child: Entries, hash: Hash): View {
    match v
    case Db(coins, _) => Db(DbMerge(coins, child, child.Keys), hash)
    case Cache(layer, base) =>
      Cache(layer.(entries := Merge(layer.entries, child, child.Keys), best := hash), base)
  }

  /** What remains of a layer's entries when Sync has unflagged the unspent and erased the spent ones. */
  function Cleaned(es: Entries): Entries {
    map o | o in es && !es[o].coin.IsSpent() :: Entry(es[o].coin, false, false)
  }

  function Flush(v: View): View
    requires v.Cache?
  {
    Cache(v.layer.(entries := map[]), BatchWrite(v.base, v.layer.entries, v.layer.best))
  }

  function Sync(v: View): View
    requires v.Cache?
  {
    Cache(v.layer.(entries := Cleaned(v.layer.entries)), BatchWrite(v.base, v.layer.entries, v.layer.best))
  }

  // ---------------------------------------------------------------- what a view shows

  /** Both stacks have the same layers and every layer shows the same coins. */
  ghost predicate Agree(v: View, w: View) {
    && (forall o :: Peek(v, o) == Peek(w, o))
    && (v.Db? <==> w.Db?)
    && (v.Cache? ==> Agree(v.base, w.base))
  }

  lemma AgreeRefl(v: View)
    ensures Agree(v, v)
  {}

  /** A view never shows a spent coin. */
  lemma {:induction false} PeekUnspent(v: View, o: OutPoint)
    requires Inv(v)
    ensures Peek(v, o).Some? ==> !Peek(v, o).value.IsSpent()
  {
    if v.Cache? && o !in v.layer.entries { PeekUnspent(v.base, o); }
  }

  /** A lookup, however deep it fills the stack, changes nothing that any layer shows. */
  lemma {:induction false} FetchKeeps(v: View, o: OutPoint)
    requires Inv(v)
    ensures Inv(Fetch(v, o)) && Agree(v, Fetch(v, o))
  {
    AgreeRefl(v);
    if v.Cache? && o !in v.layer.entries {
      FetchKeeps(v.base, o);
      AgreeRefl(v.base);
      PeekUnspent(v.base, o);
    }
  }

  /** After a lookup the top layer holds an entry exactly when it held one or shows a coin. */
  lemma FetchedEntry(v: View, o: OutPoint)
    requires v.Cache?
    ensures var w := Fetch(v, o);
      && w.Cache? && (o in w.layer.entries <==> o in v.layer.entries || Peek(v, o).Some?)
      && w.layer.best == v.layer.best && w.layer.overlay == v.layer.overlay
      && forall p | p != o :: p in w.layer.entries <==> p in v.layer.entries
  {}

  /** Adding shows the coin at `o`, and nothing else changes, unless the script can never be spent
      or the call throws. */
  lemma AddShows(v: View, o: OutPoint, c: Coin, overwrite: bool)
    requires v.Cache? && !c.IsSpent()
    ensures Add(v, o, c, overwrite).base == v.base
    ensures forall p | p != o :: Peek(Add(v, o, c, overwrite), p) == Peek(v, p)
    ensures Peek(Add(v, o, c, overwrite), o) ==
            if c.IsUnspendable() || AddThrows(v.layer.entries, o, c, overwrite) then Peek(v, o) else Some(c)
  {}

  /** The one way AddCoin can break the cache: `possible_overwrite` is false, the layer holds no
      entry, yet the parent shows a coin, so the FRESH flag is misapplied. */
  predicate AddMisused(v: View, o: OutPoint, c: Coin, overwrite: bool)
    requires v.Cache?
  {
    !c.IsUnspendable() && !overwrite && o !in v.layer.entries && Peek(v.base, o).Some?
  }

  /** AddCoin keeps the invariant if and only if it is not misused. */
  lemma AddKeepsIff(v: View, o: OutPoint, c: Coin, overwrite: bool)
    requires v.Cache? && Inv(v) && !c.IsSpent()
    ensures Inv(Add(v, o, c, overwrite)) <==> !AddMisused(v, o, c, overwrite)
  {
    var w := Add(v, o, c, overwrite);
    if AddMisused(v, o, c, overwrite) {
      assert w.layer.entries[o].isFresh && !EntryOk(w.layer.entries[o], Peek(w.base, o));
    } else {
      forall p | p in w.layer.entries
        ensures EntryOk(w.layer.entries[p], Peek(w.base, p))
      {
        if p != o { assert p in v.layer.entries; }
      }
    }
  }

  /** What misuse leads to: spending the added coin does not hide the outpoint, and the coin below shows again. */
  lemma MisusedShowsAgain(v: View, o: OutPoint, c: Coin)
    requires v.Cache? && AddMisused(v, o, c, false)
    ensures Peek(Spend(Add(v, o, c, false), o), o) == Peek(v.base, o) != None
  {
    var w := Add(v, o, c, false);
    assert w.layer.entries[o] == Entry(c, true, true) && Fetch(w, o) == w;
  }

  /** A coin added with overwriting ruled out over one that only the database holds. */
  lemma MisuseExample()
    ensures var o, c := OutPoint(7, 0), Coin(50, [], false, 1);
      var v := Cache(Layer(map[], 0, false), Db(map[o := c], 1));
      Inv(v) && AddMisused(v, o, c, false) && !Inv(Add(v, o, c, false))
  {
    var o, c := OutPoint(7, 0), Coin(50, [], false, 1);
    AddKeepsIff(Cache(Layer(map[], 0, false), Db(map[o := c], 1)), o, c, false);
  }

  /** Adding a coin that is not shown never throws and is never a misuse. */
  lemma AddWhenHidden(v: View, o: OutPoint, c: Coin, overwrite: bool)
    requires v.Cache? && (overwrite || Peek(v, o) == None)
    ensures !AddThrows(v.layer.entries, o, c, overwrite) && !AddMisused(v, o, c, overwrite)
  {}

  /** Spending hides `o`, changes nothing else that any layer shows or this one holds, and keeps the invariant. */
  lemma SpendKeeps(v: View, o: OutPoint)
    requires v.Cache? && Inv(v)
    ensures var w := Spend(v, o);
      && w.Cache? && Inv(w) && Agree(v.base, w.base)
      && Peek(w, o) == None && (forall p | p != o :: Peek(w, p) == Peek(v, p))
      && forall p | p != o :: Get(w.layer.entries, p) == Get(v.layer.entries, p)
  {
    FetchKeeps(v, o);
    var f := Fetch(v, o);
    var w := Spend(v, o);
    FetchedEntry(v, o);
    forall p | p in w.layer.entries
      ensures EntryOk(w.layer.entries[p], Peek(w.base, p))
    {
      assert p in f.layer.entries;
    }
    forall p | p != o ensures Peek(w, p) == Peek(v, p) {
      assert Peek(w, p) == Peek(f, p);
    }
  }

  /** Evicting an entry drops it exactly if it is unmodified, which changes nothing that any layer shows. */
  lemma UncacheKeeps(v: View, o: OutPoint)
    requires v.Cache? && Inv(v)
    ensures Inv(Uncache(v, o)) && Agree(v, Uncache(v, o))
    ensures var w := Uncache(v, o);
      && (o in w.layer.entries <==> o in v.layer.entries && v.layer.entries[o].isDirty)
      && forall p | p in w.layer.entries || p != o :: Get(w.layer.entries, p) == Get(v.layer.entries, p)
  {
    AgreeRefl(v.base);
    var w := Uncache(v, o);
    forall p ensures Peek(v, p) == Peek(w, p) {}
  }

  lemma ResetKeeps(v: View)
    requires v.Cache? && Inv(v)
    ensures Inv(Reset(v)) && Reset(v).base == v.base
    ensures forall o :: Peek(Reset(v), o) == Peek(v.base, o)
  {}

  /** What the parent entry and the child entry must satisfy at one outpoint: both flag disciplines,
      the child's against the parent layer and the parent's against the grandparent. */
  predicate PairOk(p: Option<Entry>, c: Entry, grand: Option<Coin>) {
    var shown := if p.None? then grand else if p.value.coin.IsSpent() then None else Some(p.value.coin);
    EntryOk(c, shown) && (p.Some? ==> EntryOk(p.value, grand)) && (grand.Some? ==> !grand.value.IsSpent())
  }

  /** BatchWrite in every combination of child and parent flags: it does not throw, the parent's
      entry obeys the flag discipline against the grandparent, and the parent then shows the child's
      coin. */
  lemma MergeEntryOk(p: Option<Entry>, c: Entry, grand: Option<Coin>)
    requires PairOk(p, c, grand)
    ensures !MergeThrows(p, c)
    ensures var m := MergeEntry(p, c);
      && (m.Some? ==> EntryOk(m.value, grand))
      && (if m.None? then grand else if m.value.coin.IsSpent() then None else Some(m.value.coin))
         == (if c.coin.IsSpent() then None else Some(c.coin))
  {}

  /** Writing a child's entries to its parent: no logic error, the parent's invariant against the
      grandparent is re-established, and the parent now shows exactly what the child showed. */
  lemma BatchWriteOk(child: Layer, v: View, hash: Hash)
    requires Inv(Cache(child, v))
    ensures var w := BatchWrite(v, child.entries, hash);
      && Inv(w) && (v.Db? <==> w.Db?) && (v.Cache? ==> w.base == v.base)
      && forall o :: Peek(w, o) == Peek(Cache(child, v), o)
    ensures v.Cache? ==> forall o | o in child.entries :: !MergeThrows(Get(v.layer.entries, o), child.entries[o])
  {
    var es := child.entries;
    var w := BatchWrite(v, es, hash);
    if v.Cache? {
      forall o | o in es
        ensures PairOk(Get(v.layer.entries, o), es[o], Peek(v.base, o))
      {
        PeekUnspent(v.base, o);
      }
      forall o
        ensures Peek(w, o) == Peek(Cache(child, v), o)
        ensures o in w.layer.entries ==> EntryOk(w.layer.entries[o], Peek(v.base, o))
      {
        if o in es { MergeEntryOk(Get(v.layer.entries, o), es[o], Peek(v.base, o)); }
        assert o in w.layer.entries <==> Merged(v.layer.entries, es, es.Keys, o).Some?;
      }
    } else {
      forall o
        ensures Peek(w, o) == Peek(Cache(child, v), o)
        ensures o in w.coins ==> !w.coins[o].IsSpent()
      {
        assert o in w.coins <==> DbWritten(v.coins, es, es.Keys, o).Some?;
      }
    }
  }

  /** Flush keeps what the layer shows and makes its base show the same. */
  lemma FlushKeeps(v: View)
    requires v.Cache? && Inv(v)
    ensures var w := Flush(v);
      && Inv(w) && (v.base.Db? <==> w.base.Db?) && (v.base.Cache? ==> w.base.base == v.base.base)
      && (forall o :: Peek(w, o) == Peek(v, o))
      && (forall o :: Peek(w.base, o) == Peek(v, o))
      && w.layer.entries == map[]
  {
    BatchWriteOk(v.layer, v.base, v.layer.best);
  }

  /** So does Sync, which keeps exactly the unspent entries cached, all of them unmodified. */
  lemma SyncKeeps(v: View)
    requires v.Cache? && Inv(v)
    ensures var w := Sync(v);
      && Inv(w) && (v.base.Db? <==> w.base.Db?) && (v.base.Cache? ==> w.base.base == v.base.base)
      && (forall o :: Peek(w, o) == Peek(v, o))
      && (forall o :: Peek(w.base, o) == Peek(v, o))
      && (forall o :: o in w.layer.entries <==> o in v.layer.entries && !v.layer.entries[o].coin.IsSpent())
      && forall o | o in w.layer.entries :: !w.layer.entries[o].isDirty
  {
    BatchWriteOk(v.layer, v.base, v.layer.best);
  }
}
