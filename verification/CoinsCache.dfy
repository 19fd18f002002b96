/** `CCoinsViewCache` in place: the entry map with its intrusive list of flagged entries, the running
    counters, and the layers below. Every method is proved to compute the function of the same name
    in `CoinsView`. */
module CoinsCache {
  import opened Options
  import opened CoinsView
  import opened CoinsDisk
  import opened CoinsRing

  class CoinsViewDb {
    /** A batch is written early after the entries with these numbers. */
    const fullAfter: set<nat>
    var coins: map<OutPoint, Coin>
    var tip: Hash
    var heads: Option<Heads>
    /** The states that have been on disk. */
    ghost var history: seq<Disk>

    ghost function State(): Disk
      reads this
    {
      Disk(coins, tip, heads)
    }

    constructor (coins: map<OutPoint, Coin>, tip: Hash, fullAfter: set<nat>)
      ensures State() == Disk(coins, tip, None) && history == [] && this.fullAfter == fullAfter
    {
      this.coins, this.tip, heads, this.fullAfter := coins, tip, None, fullAfter;
      history := [];
    }

    /** Writes a batch as a whole. */
    method WriteBatch(batch: seq<Write>)
      modifies this
      ensures State() == WrittenAll(old(State()), batch) && history == old(history) + [State()]
    {
      var d := WrittenAll(Disk(coins, tip, heads), batch);
      coins, tip, heads := d.coins, d.tip, d.heads;
      history := history + [State()];
    }

    /** Erases or writes each dirty coin as the cursor over `child` passes it, in one or several batches. */
    method BatchWrite(child: CoinsViewCache, willErase: bool, hash: Hash)
      requires child.Consistent() && hash != 0 && Resumable(State(), hash)
      modifies this, child`ring, child`order, child`dirtyCount
      ensures State() == Disk(DbMerge(old(coins), old(child.Entries()), old(child.Entries()).Keys), hash, None)
      ensures |history| > |old(history)| && history[..|old(history)|] == old(history)
      ensures Passed(old(State()), old(child.Entries()), hash, history[|old(history)|..])
      ensures Draining(child.ring, child.order, child.dirtyCount, willErase,
                       old(child.ring), old(child.order), |old(child.order)|)
    {
      hide Linked, Draining, DbMerge, Passed, Collecting;
      ghost var r0, order0, d0, past, i := child.ring, child.order, State(), history, 0;
      ghost var es := EntriesOf(r0.nodes);
      var oldTip := tip;
      if tip == 0 && heads.Some? { oldTip := heads.value.oldTip; }
      DrainingStart(r0, order0, willErase);
      var batch := [EraseBest, WriteHeads(Heads(hash, oldTip))];
      CollectingStart(State(), es, hash, batch, past);
      assert Members(order0[..0]) == {};
      var it := child.ring.sentinel.next;
      var count := 0;
      while it != Sentinel
        invariant 0 <= i <= |order0| && it == Stop(order0, i)
        invariant Draining(child.ring, child.order, child.dirtyCount, willErase, r0, order0, i)
        invariant Collecting(d0, es, hash, State(), batch, Members(order0[..i]), past, history)
        decreases |order0| - i
      {
        var o := it.o;
        DrainingAt(child.ring, child.order, child.dirtyCount, willErase, r0, order0, i);
        MembersNext(order0, i);
        CollectingNext(d0, es, hash, State(), batch, Members(order0[..i]), past, history, o);
        var n := child.ring.nodes[o];
        if n.isDirty {
          if n.coin.IsSpent() {
            batch := batch + [EraseCoin(o)];
          } else {
            batch := batch + [WriteCoin(o, n.coin)];
          }
        }
        count := count + 1;
        it := child.NextAndMaybeErase(o, willErase, r0, order0, i);
        i := i + 1;
        if count in fullAfter {
          CollectingWritten(d0, es, hash, State(), batch, Members(order0[..i]), past, history);
          WriteBatch(batch);
          batch := [];
        }
      }
      assert order0[..i] == order0;
      DbMergeListed(d0.coins, r0, order0);
      CollectingDone(d0, es, hash, State(), batch, Members(order0), past, history);
      batch := batch + [EraseHeads] + [WriteBest(hash)];
      WriteBatch(batch);
    }
  }

  /** While entries are collected: with the batch at hand written, the disk holds those of `done`, and every state
      since `past` is one a crash may leave. */
  ghost predicate Collecting(d0: Disk, child: CoinsView.Entries, hash: Hash, d: Disk, batch: seq<Write>,
                             done: set<OutPoint>,
                             past: seq<Disk>, history: seq<Disk>) {
    && WrittenAll(d, batch) == Disk(DbMerge(d0.coins, child, done), 0, Some(Heads(hash, Origin(d0))))
    && Since(d0, child, hash, past, history)
  }

  ghost predicate Since(d0: Disk, child: CoinsView.Entries, hash: Hash, past: seq<Disk>, history: seq<Disk>) {
    && |past| <= |history| && history[..|past|] == past
    && forall k | |past| <= k < |history| :: Interrupted(history[k], d0.coins, child, Heads(hash, Origin(d0)))
  }

  lemma {:induction false} CollectingStart(d: Disk, child: CoinsView.Entries, hash: Hash, batch: seq<Write>,
                                           past: seq<Disk>)
    requires batch == [EraseBest, WriteHeads(Heads(hash, Origin(d)))]
    ensures Collecting(d, child, hash, d, batch, {}, past, past)
  {
    DbMergeNone(d.coins, child);
    hide DbMerge;
    assert batch == ([] + [EraseBest]) + [WriteHeads(Heads(hash, Origin(d)))];
    WrittenMore(d, [], EraseBest);
    WrittenMore(d, [] + [EraseBest], WriteHeads(Heads(hash, Origin(d))));
  }

  lemma {:induction false} CollectingNext(d0: Disk, child: CoinsView.Entries, hash: Hash, d: Disk, batch: seq<Write>,
                                          done: set<OutPoint>,
                       past: seq<Disk>, history: seq<Disk>, o: OutPoint)
    requires Collecting(d0, child, hash, d, batch, done, past, history) && o in child && o !in done && child[o].isDirty
    ensures Collecting(d0, child, hash, d,
        batch + [if child[o].coin.IsSpent() then EraseCoin(o) else WriteCoin(o, child[o].coin)],
                       done + {o}, past, history)
  {
    hide DbMerge, WrittenAll, Since;
    var w := if child[o].coin.IsSpent() then EraseCoin(o) else WriteCoin(o, child[o].coin);
    WrittenMore(d, batch, w);
    DbMergeNext(d0.coins, child, done, o);
  }

  lemma {:induction false} CollectingWritten(d0: Disk, child: CoinsView.Entries, hash: Hash, d: Disk, batch: seq<Write>,
                          done: set<OutPoint>,
                          past: seq<Disk>, history: seq<Disk>)
    requires Collecting(d0, child, hash, d, batch, done, past, history)
    ensures Collecting(d0, child, hash, WrittenAll(d, batch), [], done, past, history + [WrittenAll(d, batch)])
  {
    hide DbMerge;
    var now := WrittenAll(d, batch);
    assert Interrupted(now, d0.coins, child, Heads(hash, Origin(d0)));
    assert WrittenAll(now, []) == now;
    hide Interrupted, WrittenAll;
    assert (history + [now])[..|past|] == past;
  }

  lemma {:induction false} CollectingDone(d0: Disk, child: CoinsView.Entries, hash: Hash, d: Disk, batch: seq<Write>,
                                          done: set<OutPoint>,
                       past: seq<Disk>, history: seq<Disk>)
    requires Collecting(d0, child, hash, d, batch, done, past, history)
    requires DbMerge(d0.coins, child, done) == DbMerge(d0.coins, child, child.Keys)
    ensures var last := WrittenAll(d, batch + [EraseHeads] + [WriteBest(hash)]);
      && last == Disk(DbMerge(d0.coins, child, child.Keys), hash, None)
      && |past| <= |history| && (history + [last])[..|past|] == past
      && Passed(d0, child, hash, (history + [last])[|past|..])
  {
    hide DbMerge, Interrupted, WrittenAll;
    WrittenMore(d, batch, EraseHeads);
    WrittenMore(d, batch + [EraseHeads], WriteBest(hash));
    var last := WrittenAll(d, batch + [EraseHeads] + [WriteBest(hash)]);
    var states := (history + [last])[|past|..];
    forall k | 0 <= k < |states| - 1 ensures Interrupted(states[k], d0.coins, child, Heads(hash, Origin(d0))) {
      assert states[k] == history[|past| + k];
    }
  }

  class CoinsViewCache {
    const overlay: bool
    /** The layer below, or null when this cache sits on the database. */
    const base: CoinsViewCache?
    const db: CoinsViewDb
    var ring: Ring
    var dirtyCount: nat
    var usage: nat
    var hashBlock: Hash
    /** The flagged outpoints in list order. */
    ghost var order: seq<OutPoint>
    ghost const repr: set<object>
    ghost const depth: nat

    // -------------------------------------------------------------- shape and abstraction

    ghost predicate Shape()
      decreases depth
    {
      && this in repr && db in repr
      && (base == null ==> repr == {this, db})
      && (base != null ==>
            base.depth < depth && base.db == db && this !in base.repr && repr == {this} + base.repr && base.Shape())
    }

    ghost function Entries(): CoinsView.Entries
      reads this
    {
      EntriesOf(ring.nodes)
    }

    /** The bookkeeping of one layer: the list, the dirty count and the memory sum. */
    ghost predicate Consistent()
      reads this
    {
      && Linked(ring, order)
      && dirtyCount == |order|
      && usage == Usage(Entries())
      && FreshIsDirty(Entries())
    }

    /** What the layers below hold; nothing this layer does to itself can change it. */
    ghost function BaseView(): View
      requires Shape()
      reads repr - {this}
      decreases depth, 0
    {
      if base == null then Db(db.coins, db.tip) else base.AsView()
    }

    ghost function AsView(): View
      requires Shape()
      reads repr
      decreases depth, 1
    {
      Cache(Layer(Entries(), hashBlock, overlay), BaseView())
    }

    ghost predicate BaseValid()
      requires Shape()
      reads repr - {this}
      decreases depth, 0
    {
      if base == null then Inv(BaseView()) && db.heads.None? else base.Valid()
    }

    ghost predicate Valid()
      reads repr
      decreases depth, 1
    {
      Shape() && Consistent() && BaseValid() && Inv(AsView())
    }

    /** The layer below a valid layer is valid, and is what the view says it is. */
    lemma Below()
      requires Valid() && base != null
      ensures base.Valid() && BaseView() == base.AsView()
      ensures Inv(Cache(AsView().layer, base.AsView()))
    {}

    lemma AboveBase()
      requires Shape() && base != null && base.Valid()
      ensures BaseValid() && BaseView() == base.AsView()
    {}

    lemma SpentNull()
      requires Valid()
      ensures SpentIsNull(Entries())
    {
      assert AsView().layer.entries == Entries();
    }

    constructor (base: CoinsViewCache?, db: CoinsViewDb, overlay: bool)
      requires base != null ==> base.Valid() && base.db == db
      requires base == null ==> Inv(Db(db.coins, db.tip)) && db.heads.None?
      ensures Valid() && this.base == base && this.db == db && this.overlay == overlay
      ensures AsView() == Cache(Layer(map[], 0, overlay), if base == null then Db(db.coins, db.tip) else base.AsView())
    {
      this.overlay, this.base, this.db := overlay, base, db;
      ring := Ring(map[], Links(Sentinel, Sentinel));
      dirtyCount, usage, hashBlock, order := 0, 0, 0, [];
      repr := {this} + if base == null then {db} else base.repr;
      depth := if base == null then 0 else base.depth + 1;
    }

    // -------------------------------------------------------------- the flagged list

    /** SetDirty and SetFresh. */
    method AddFlags(o: OutPoint, dirty: bool, nowFresh: bool)
      requires Linked(ring, order) && o in Entries() && (dirty || nowFresh)
      modifies `ring, `order
      ensures Linked(ring, order)
      ensures order == if old(ring.nodes[o].Flagged()) then old(order) else old(order) + [o]
      ensures var e := old(Entries())[o];
        Entries() == old(Entries())[o := Entry(e.coin, e.isDirty || dirty, e.isFresh || nowFresh)]
    {
      hide Linked;
      if !ring.nodes[o].Flagged() {
        LinkLastLinked(ring, order, o, dirty, nowFresh);
        LinkLastEntries(ring, o, dirty, nowFresh);
        var last := ring.sentinel.prev;
        ring := SetLinks(ring, Pair(o), Links(last, Sentinel));
        ring := SetPrev(ring, Sentinel, Pair(o));
        ring := SetNext(ring, last, Pair(o));
        ring := ring.(nodes := ring.nodes[o := ring.nodes[o].(isDirty := dirty, isFresh := nowFresh)]);
        order := order + [o];
      } else {
        var n := ring.nodes[o];
        FlagLinked(ring, order, o, n.isDirty || dirty, n.isFresh || nowFresh);
        ring := ring.(nodes := ring.nodes[o := n.(isDirty := n.isDirty || dirty, isFresh := n.isFresh || nowFresh)]);
      }
    }

    method SetClean(o: OutPoint)
      requires Linked(ring, order) && o in Entries()
      modifies `ring, `order
      ensures Linked(ring, order) && order == Without(old(order), o)
      ensures o in Entries() && !ring.nodes[o].Flagged()
      ensures |order| == |old(order)| - if old(ring.nodes[o].Flagged()) then 1 else 0
      ensures Entries() == old(Entries())[o := Entry(old(Entries())[o].coin, false, false)]
    {
      hide Linked, Without;
      CleanRing(ring, order, o);
      if !ring.nodes[o].Flagged() {
        return;
      }
      var l := ring.nodes[o].links;
      ring := SetPrev(ring, l.next, l.prev);
      ring := SetNext(ring, l.prev, l.next);
      ring := ring.(nodes := ring.nodes[o := Node(ring.nodes[o].coin, false, false, NO_LINKS)]);
      order := Without(order, o);
    }

    /** Erasing an entry runs its destructor, which takes it off the list. */
    method Erase(o: OutPoint)
      requires Linked(ring, order) && o in Entries()
      modifies `ring, `order
      ensures Linked(ring, order) && order == Without(old(order), o)
      ensures |order| == |old(order)| - if old(ring.nodes[o].Flagged()) then 1 else 0
      ensures Entries() == old(Entries()) - {o}
    {
      hide Linked;
      SetClean(o);
      DropLinked(ring, order, o);
      ring := ring.(nodes := ring.nodes - {o});
      assert Entries() == old(Entries())[o := Entry(old(Entries())[o].coin, false, false)] - {o};
    }

    // -------------------------------------------------------------- entries and counters

    /** try_emplace of a missing entry: a default coin without flags. */
    method Emplace(o: OutPoint)
      requires Consistent() && o !in ring.nodes
      modifies `ring
      ensures Consistent()
      ensures Entries() == old(Entries())[o := Entry(NULL_COIN, false, false)]
    {
      InsertLinked(ring, order, o, NULL_COIN);
      hide Linked;
      UsagePut(Entries(), o, Entry(NULL_COIN, false, false));
      ring := ring.(nodes := ring.nodes[o := Node(NULL_COIN, false, false, NO_LINKS)]);
      assert Entries() == old(Entries())[o := Entry(NULL_COIN, false, false)];
    }

    /** Replaces a coin and keeps the memory sum. */
    method SetCoin(o: OutPoint, c: Coin)
      requires Consistent() && o in Entries()
      modifies `ring, `usage
      ensures Consistent()
      ensures Entries() == old(Entries())[o := old(Entries())[o].(coin := c)]
    {
      hide Linked;
      CoinLinked(ring, order, o, c);
      ghost var es := Entries();
      UsageRemove(es, o);
      UsagePut(es, o, es[o].(coin := c));
      usage := usage - ring.nodes[o].coin.DynamicMemoryUsage();
      ring := ring.(nodes := ring.nodes[o := ring.nodes[o].(coin := c)]);
      usage := usage + c.DynamicMemoryUsage();
      assert Entries() == es[o := es[o].(coin := c)];
    }

    /** SetDirty with the dirty count kept. */
    method MarkDirty(o: OutPoint)
      requires Consistent() && o in Entries()
      modifies `ring, `order, `dirtyCount
      ensures Consistent()
      ensures Entries() == old(Entries())[o := old(Entries())[o].(isDirty := true)]
    {
      DirtyListed(ring, order, o);
      hide Linked;
      ghost var es := Entries();
      UsageFlags(es, o, true, es[o].isFresh);
      dirtyCount := dirtyCount - if ring.nodes[o].isDirty then 1 else 0;
      AddFlags(o, true, false);
      dirtyCount := dirtyCount + 1;
      assert Entries() == es[o := Entry(es[o].coin, true, es[o].isFresh)];
    }

    method MarkFresh(o: OutPoint)
      requires Consistent() && o in Entries() && Entries()[o].isDirty
      modifies `ring, `order
      ensures Consistent()
      ensures Entries() == old(Entries())[o := old(Entries())[o].(isFresh := true)]
    {
      hide Linked;
      ghost var es := Entries();
      UsageFlags(es, o, true, true);
      AddFlags(o, false, true);
      assert Entries() == es[o := Entry(es[o].coin, true, true)];
    }

    /** Puts a dirty coin into an existing entry. */
    method Store(o: OutPoint, c: Coin, nowFresh: bool)
      requires Consistent() && o in Entries()
      modifies `ring, `order, `dirtyCount, `usage
      ensures Consistent()
      ensures Entries() == old(Entries())[o := Entry(c, true, old(Entries())[o].isFresh || nowFresh)]
    {
      hide Linked, Consistent, EntriesOf;
      ghost var es := Entries();
      SetCoin(o, c);
      PutPut(es, o, es[o].(coin := c), Entry(c, true, es[o].isFresh));
      MarkDirty(o);
      if nowFresh {
        PutPut(es, o, Entry(c, true, es[o].isFresh), Entry(c, true, true));
        MarkFresh(o);
      }
    }

    /** Erases an entry and takes it out of both counters. */
    method EraseEntry(o: OutPoint)
      requires Consistent() && o in Entries()
      modifies `ring, `order, `dirtyCount, `usage
      ensures Consistent() && Entries() == old(Entries()) - {o}
    {
      DirtyListed(ring, order, o);
      hide Linked;
      UsageRemove(Entries(), o);
      dirtyCount := dirtyCount - if ring.nodes[o].isDirty then 1 else 0;
      usage := usage - ring.nodes[o].coin.DynamicMemoryUsage();
      Erase(o);
    }

    // -------------------------------------------------------------- lookups

    method PeekCoin(o: OutPoint) returns (c: Option<Coin>)
      requires Valid()
      ensures c == Peek(AsView(), o)
      decreases depth
    {
      if o in ring.nodes {
        return if ring.nodes[o].coin.IsSpent() then None else Some(ring.nodes[o].coin);
      }
      if base == null {
        c := Get(db.coins, o);
      } else {
        c := base.PeekCoin(o);
      }
    }

    /** An overlay peeks at its base; an ordinary cache lets the base fill itself. */
    method FetchCoinFromBase(o: OutPoint) returns (c: Option<Coin>)
      requires Shape() && BaseValid()
      modifies repr - {this}
      ensures c == Peek(old(BaseView()), o)
      ensures BaseView() == if overlay then old(BaseView()) else Fetch(old(BaseView()), o)
      ensures BaseValid() && (overlay ==> unchanged(repr - {this}))
      decreases depth, 0
    {
      if base == null {
        c := Get(db.coins, o);
      } else if overlay {
        c := base.PeekCoin(o);
      } else {
        c := base.GetCoin(o);
      }
    }

    /** Returns whether the cache now holds an entry for `o`. */
    method FetchCoin(o: OutPoint) returns (found: bool)
      requires Valid()
      modifies repr
      ensures Valid() && AsView() == Fetch(old(AsView()), o)
      ensures found <==> o in ring.nodes
      ensures overlay ==> unchanged(repr - {this})
      decreases depth, 1
    {
      hide Linked, Inv, Consistent, BaseValid, BaseView;
      ghost var v := AsView();
      FetchKeeps(v, o);
      if o in ring.nodes {
        return true;
      }
      ghost var es := Entries();
      Emplace(o);
      var c := FetchCoinFromBase(o);
      PutPut(es, o, Entry(NULL_COIN, false, false), Entry(if c.Some? then c.value else NULL_COIN, false, false));
      if c.Some? {
        SetCoin(o, c.value);
      } else {
        EraseEntry(o);
      }
      found := c.Some?;
      assert AsView() == Fetch(v, o);
    }

    method GetCoin(o: OutPoint) returns (c: Option<Coin>)
      requires Valid()
      modifies repr
      ensures Valid() && AsView() == Fetch(old(AsView()), o)
      ensures c == Peek(old(AsView()), o)
      ensures overlay ==> unchanged(repr - {this})
      decreases depth, 2
    {
      hide Linked;
      FetchKeeps(AsView(), o);
      var found := FetchCoin(o);
      c := if found && !ring.nodes[o].coin.IsSpent() then Some(ring.nodes[o].coin) else None;
      assert c == Peek(AsView(), o);
    }

    // -------------------------------------------------------------- changes to the top layer

    /** Returns whether the call throws because it would overwrite an unspent coin. */
    method AddCoin(o: OutPoint, c: Coin, overwrite: bool) returns (thrown: bool)
      requires Valid() && !c.IsSpent()
      modifies `ring, `order, `dirtyCount, `usage
      ensures AsView() == Add(old(AsView()), o, c, overwrite)
      ensures thrown <==> AddThrows(old(Entries()), o, c, overwrite)
      ensures Shape() && Consistent() && BaseValid()
      ensures Valid() <==> !AddMisused(old(AsView()), o, c, overwrite)
    {
      hide Linked, Inv, Consistent, BaseView, BaseValid;
      AddKeepsIff(AsView(), o, c, overwrite);
      ghost var es := Entries();
      thrown := false;
      if c.IsUnspendable() {
        return;
      }
      if o !in ring.nodes {
        Emplace(o);
      }
      var nowFresh := false;
      if !overwrite {
        if !ring.nodes[o].coin.IsSpent() {
          return true;
        }
        nowFresh := !ring.nodes[o].isDirty;
      }
      ghost var es1 := Entries();
      Store(o, c, nowFresh);
      PutPut(es, o, es1[o], Entries()[o]);
    }

    /** Returns whether an entry was there to spend, and the coin that was in it. */
    method SpendCoin(o: OutPoint) returns (spent: bool, moveout: Coin)
      requires Valid()
      modifies repr
      ensures Valid() && AsView() == Spend(old(AsView()), o)
      ensures spent <==> o in Fetch(old(AsView()), o).layer.entries
      ensures spent ==> moveout == Fetch(old(AsView()), o).layer.entries[o].coin
      ensures overlay ==> unchanged(repr - {this})
    {
      hide Linked, Inv, Consistent, BaseView, BaseValid, Fetch;
      ghost var v := AsView();
      SpendKeeps(v, o);
      moveout := NULL_COIN;
      spent := FetchCoin(o);
      if !spent {
        assert SpendEntry(Entries(), o) == Entries();
        return;
      }
      ghost var es := Entries();
      moveout := ring.nodes[o].coin;
      if ring.nodes[o].isFresh {
        EraseEntry(o);
      } else {
        MarkDirty(o);
        SetCoin(o, NULL_COIN);
      }
      assert Entries() == SpendEntry(es, o);
    }

    method Uncache(o: OutPoint)
      requires Valid()
      modifies `ring, `order, `dirtyCount, `usage
      ensures Valid() && AsView() == CoinsView.Uncache(old(AsView()), o)
    {
      hide Linked, Inv, Consistent, BaseView, BaseValid;
      UncacheKeeps(AsView(), o);
      if o in ring.nodes && !ring.nodes[o].isDirty {
        EraseEntry(o);
      }
    }

    method SetBestBlock(hash: Hash)
      requires Valid()
      modifies `hashBlock
      ensures Valid() && AsView() == old(AsView()).(layer := old(AsView()).layer.(best := hash))
    {
      hashBlock := hash;
    }

    /** Destroys every entry, in any order; the list unwinds to the bare sentinel. */
    method Clear()
      requires Linked(ring, order)
      modifies `ring, `order
      ensures Linked(ring, order) && order == [] && Entries() == map[]
    {
      while ring.nodes != map[]
        invariant Linked(ring, order)
        decreases Entries().Keys
      {
        hide Linked;
        var o :| o in ring.nodes;
        Erase(o);
      }
      EmptyRing(ring, order);
    }

    method Reset()
      requires Valid()
      modifies this
      ensures Valid() && AsView() == CoinsView.Reset(old(AsView()))
    {
      hide Linked, Inv, BaseView, BaseValid;
      ResetKeeps(AsView());
      Clear();
      usage, dirtyCount, hashBlock := 0, 0, 0;
      assert AsView() == CoinsView.Reset(old(AsView()));
    }

    // -------------------------------------------------------------- writing back

    /** Steps a cursor over this cache: counts the entry off and, unless the whole cache is about to
        be erased, erases it when spent and unflags it otherwise. */
    method NextAndMaybeErase(o: OutPoint, willErase: bool, ghost r0: Ring, ghost order0: seq<OutPoint>, ghost i: nat)
        returns (next: Ptr)
      requires Draining(ring, order, dirtyCount, willErase, r0, order0, i) && i < |order0| && o == order0[i]
      modifies `ring, `order, `dirtyCount
      ensures Draining(ring, order, dirtyCount, willErase, r0, order0, i + 1)
      ensures next == Stop(order0, i + 1)
    {
      hide Linked, Without;
      DrainingAt(ring, order, dirtyCount, willErase, r0, order0, i);
      MembersNext(order0, i);
      next := ring.nodes[o].links.next;
      dirtyCount := dirtyCount - if ring.nodes[o].isDirty then 1 else 0;
      if !willErase {
        CleanedUptoNext(EntriesOf(r0.nodes), Members(order0[..i]), o);
        WithoutHead(order);
        if ring.nodes[o].coin.IsSpent() {
          Erase(o);
        } else {
          SetClean(o);
        }
      }
    }

    /** The dirty entries of `child` move into this cache. */
    method BatchWrite(child: CoinsViewCache, willErase: bool, hash: Hash)
      requires child.Valid() && child.base == this
      modifies this, child`ring, child`order, child`dirtyCount
      ensures Valid() && AsView() == CoinsView.BatchWrite(old(AsView()), old(child.Entries()), hash)
      ensures Draining(child.ring, child.order, child.dirtyCount, willErase,
                       old(child.ring), old(child.order), |old(child.order)|)
    {
      hide Linked, Draining, Merge, Inv, BaseValid, BaseView;
      child.Below();
      BatchWriteOk(child.AsView().layer, AsView(), hash);
      ghost var r0, order0, es0, i := child.ring, child.order, Entries(), 0;
      ghost var es := EntriesOf(r0.nodes);
      DrainingStart(r0, order0, willErase);
      MergeNone(es0, es);
      assert Members(order0[..0]) == {};
      var it := child.ring.sentinel.next;
      while it != Sentinel
        invariant 0 <= i <= |order0| && it == Stop(order0, i)
        invariant Draining(child.ring, child.order, child.dirtyCount, willErase, r0, order0, i)
        invariant Consistent() && Entries() == Merge(es0, es, Members(order0[..i]))
        decreases |order0| - i
      {
        var o := it.o;
        DrainingAt(child.ring, child.order, child.dirtyCount, willErase, r0, order0, i);
        MembersNext(order0, i);
        MergeNext(es0, es, Members(order0[..i]), o);
        var n := child.ring.nodes[o];
        if n.isDirty {
          WriteOne(o, n.coin, n.isFresh);
        }
        it := child.NextAndMaybeErase(o, willErase, r0, order0, i);
        i := i + 1;
      }
      hashBlock := hash;
      assert order0[..i] == order0;
      MergeListed(es0, r0, order0);
    }

    /** One dirty child entry. The logic error for a misapplied FRESH flag cannot be raised here. */
    method WriteOne(o: OutPoint, c: Coin, childFresh: bool)
      requires Consistent() && !MergeThrows(Get(Entries(), o), Entry(c, true, childFresh))
      modifies `ring, `order, `dirtyCount, `usage
      ensures Consistent()
      ensures Entries() == match MergeEntry(Get(old(Entries()), o), Entry(c, true, childFresh))
                           case None => old(Entries()) - {o}
                           case Some(e) => old(Entries())[o := e]
    {
      hide Linked, Consistent;
      if o !in ring.nodes {
        PutPut(Entries(), o, Entry(NULL_COIN, false, false), Entry(c, true, childFresh));
        Emplace(o);
        if childFresh && c.IsSpent() {
          EraseEntry(o);
        } else {
          Store(o, c, childFresh);
        }
      } else {
        assert ring.nodes[o].coin.IsSpent() || !childFresh;
        if ring.nodes[o].isFresh && c.IsSpent() {
          EraseEntry(o);
        } else {
          Store(o, c, false);
        }
      }
    }

    /** Passes the cursor to the base. Only the base itself changes, not the layers below it. */
    method WriteBase(willErase: bool)
      requires Valid() && (base == null ==> hashBlock != 0)
      modifies repr
      ensures Shape() && BaseValid() && usage == old(usage) && hashBlock == old(hashBlock)
      ensures BaseView() == CoinsView.BatchWrite(old(BaseView()), old(Entries()), hashBlock)
      ensures Draining(ring, order, dirtyCount, willErase, old(ring), old(order), |old(order)|)
    {
      hide Linked, Draining, Inv;
      BatchWriteOk(AsView().layer, BaseView(), hashBlock);
      if base == null {
        db.BatchWrite(this, willErase, hashBlock);
      } else {
        hide BaseValid, BaseView;
        Below();
        base.BatchWrite(this, willErase, hashBlock);
        AboveBase();
      }
    }

    method Flush()
      requires Valid() && (base == null ==> hashBlock != 0)
      modifies repr
      ensures Valid() && AsView() == CoinsView.Flush(old(AsView()))
    {
      hide Inv, BaseValid, BaseView;
      FlushKeeps(AsView());
      WriteBase(true);
      assert dirtyCount == 0;
      Clear();
      usage := 0;
      assert AsView() == CoinsView.Flush(old(AsView()));
    }

    /** The flagged list is empty afterwards, so the logic error for leftover flags cannot be raised. */
    method Sync()
      requires Valid() && (base == null ==> hashBlock != 0)
      modifies repr
      ensures Valid() && AsView() == CoinsView.Sync(old(AsView()))
      ensures ring.sentinel.next == Sentinel && dirtyCount == 0
    {
      SpentNull();
      hide Inv, BaseValid, BaseView;
      SyncKeeps(AsView());
      WriteBase(false);
      assert dirtyCount == 0;
      DrainedEntries(ring, order, old(ring), old(order));
      assert AsView() == CoinsView.Sync(old(AsView()));
    }

    // -------------------------------------------------------------- self check

    /** Recounts everything; a failed assertion would return false. */
    method SanityCheck() returns (ok: bool)
      requires Valid()
      ensures ok
    {
      ghost var es := Entries();
      assert forall o | o in es :: EntryOk(es[o], Peek(BaseView(), o)) by {
        assert AsView().layer.entries == es;
      }
      DirtyCount(ring, order);
      FirstStop(ring, order);
      hide Linked, Inv, Usage, Dirties;
      var recomputedUsage, countDirty := 0, 0;
      var rest := ring.nodes.Keys;
      assert Restricted(es, rest) == es;
      while rest != {}
        invariant rest <= ring.nodes.Keys
        invariant recomputedUsage + Usage(Restricted(es, rest)) == Usage(es)
        invariant countDirty + |Dirties(es, rest)| == |order|
      {
        var o :| o in rest;
        var n := ring.nodes[o];
        assert EntryOk(es[o], Peek(BaseView(), o));
        if n.coin.IsSpent() {
          if !n.isDirty || n.isFresh { return false; }
        } else {
          if !n.isDirty && n.isFresh { return false; }
        }
        RecountStep(es, rest, o);
        recomputedUsage := recomputedUsage + n.coin.DynamicMemoryUsage();
        if n.isDirty { countDirty := countDirty + 1; }
        rest := rest - {o};
      }
      NothingLeft(es);
      var countLinked := 0;
      var it := ring.sentinel.next;
      while it != Sentinel
        invariant 0 <= countLinked <= |order| && it == Stop(order, countLinked)
        decreases |order| - countLinked
      {
        WalkAt(ring, order, countLinked);
        var l := LinksAt(ring, it);
        if LinksAt(ring, l.next).prev != it || LinksAt(ring, l.prev).next != it { return false; }
        assert es[it.o].isFresh ==> es[it.o].isDirty;
        if !ring.nodes[it.o].isDirty { return false; }
        countLinked := countLinked + 1;
        it := l.next;
      }
      return countDirty == countLinked == dirtyCount && recomputedUsage == usage;
    }
  }
}
