/** The elementary changes of the address manager's tables, and that each keeps the invariant. */
module AddrSteps {
  import opened AddrBook

  // ---------------------------------------------------------------- new slots

  function SetRef(b: Book, s: Slot, id: Id): Book
    requires id in b.info
  {
    b.(info := WithRefs(b.info, id, b.info[id].refCount + 1), news := b.news[s := id])
  }

  function DropRef(b: Book, s: Slot): Book
    requires s in b.news && b.news[s] in b.info
  {
    b.(info := WithRefs(b.info, b.news[s], b.info[b.news[s]].refCount - 1), news := b.news - {s})
  }

  lemma NewKept(env: Env, key: Key, info: map<Id, Info>, info': map<Id, Info>, news: map<Slot, Id>)
    requires NewOk(env, key, info, news) && SameBody(info, info')
    requires forall id | id in info :: info[id].inTried == info'[id].inTried
    ensures NewOk(env, key, info', news)
  {
    hide NewSlotIn;
  }

  lemma TriedKept(env: Env, key: Key, info: map<Id, Info>, info': map<Id, Info>, tried: map<Slot, Id>)
    requires TriedOk(env, key, info, tried) && SameBody(info, info')
    requires forall id | id in info :: info[id].inTried == info'[id].inTried
    ensures TriedOk(env, key, info', tried)
  {
    hide TriedSlot;
  }

  /** Changing only reference counts keeps everything but the counts themselves. */
  lemma RefChangeOk(env: Env, key: Key, b: Book, moving: set<Id>, bare: set<Id>, id: Id, n: int)
    requires TablesOk(env, key, b, moving, bare) && id in b.info
    ensures var info' := WithRefs(b.info, id, n);
            RandomOk(info', b.random) && NewOk(env, key, info', b.news) && TriedOk(env, key, info', b.tried)
            && CountsOk(env, info', moving, b.nNew, b.nTried, b.counts) && IdsOk(info', b.nextId)
            && (AddrOk(b.info, b.addrs) ==> AddrOk(info', b.addrs)) && (TimesOk(b.info) ==> TimesOk(info'))
  {
    hide RandomOk, AddrOk, NewOk, RefsOk, TriedOk, CountsOk, TimesOk, IdsOk, SameBody;
    var info' := WithRefs(b.info, id, n);
    RefChange(b.info, id, n);
    BodyOk(b.info, info', b.random, b.addrs, b.nextId);
    NewKept(env, key, b.info, info', b.news);
    TriedKept(env, key, b.info, info', b.tried);
    CountsBody(env, b.info, info', moving, b.nNew, b.nTried, b.counts);
  }

  lemma NewMore(env: Env, key: Key, info: map<Id, Info>, news: map<Slot, Id>, s: Slot, id: Id)
    requires NewOk(env, key, info, news) && id in info && !info[id].inTried
    requires s.bucket < NEW_BUCKET_COUNT && s == NewSlotIn(env, key, info[id].addr, s.bucket)
    ensures NewOk(env, key, info, news[s := id])
  {
    hide NewSlotIn;
  }

  lemma SetRefTables(env: Env, key: Key, b: Book, moving: set<Id>, bare: set<Id>, s: Slot, id: Id)
    requires TablesOk(env, key, b, moving, bare) && s !in b.news && id in b.info && id !in moving
    requires !b.info[id].inTried && b.info[id].refCount < NEW_BUCKETS_PER_ADDRESS
    requires s.bucket < NEW_BUCKET_COUNT && s == NewSlotIn(env, key, b.info[id].addr, s.bucket)
    ensures TablesOk(env, key, SetRef(b, s, id), moving, bare - {id})
    ensures Inv(env, key, b, moving, bare) ==> Inv(env, key, SetRef(b, s, id), moving, bare - {id})
  {
    hide RandomOk, AddrOk, NewOk, RefsOk, TriedOk, CountsOk, TimesOk, IdsOk;
    hide NewSlotIn;
    var n := b.info[id].refCount + 1;
    RefChangeOk(env, key, b, moving, bare, id, n);
    RefsOkMore(b.info, b.news, moving, bare, s, id);
    NewMore(env, key, WithRefs(b.info, id, n), b.news, s, id);
  }

  lemma SetRefOk(env: Env, key: Key, b: Book, moving: set<Id>, bare: set<Id>, s: Slot, id: Id)
    requires Inv(env, key, b, moving, bare) && s !in b.news && id in b.info && id !in moving
    requires !b.info[id].inTried && b.info[id].refCount < NEW_BUCKETS_PER_ADDRESS
    requires s.bucket < NEW_BUCKET_COUNT && s == NewSlotIn(env, key, b.info[id].addr, s.bucket)
    ensures Inv(env, key, SetRef(b, s, id), moving, bare - {id})
  {
    hide TablesOk, AddrOk, TimesOk, NewSlotIn;
    SetRefTables(env, key, b, moving, bare, s, id);
  }

  lemma NewFewer(env: Env, key: Key, info: map<Id, Info>, news: map<Slot, Id>, s: Slot)
    requires NewOk(env, key, info, news)
    ensures NewOk(env, key, info, news - {s})
  {
    hide NewSlotIn;
  }

  lemma DropRefOk(env: Env, key: Key, b: Book, moving: set<Id>, bare: set<Id>, s: Slot)
    requires Inv(env, key, b, moving, bare) && s in b.news
    ensures b.news[s] in b.info && b.info[b.news[s]].refCount > 0 && b.news[s] !in moving && b.news[s] !in bare
    ensures Inv(env, key, DropRef(b, s), moving, if b.info[b.news[s]].refCount == 1 then bare + {b.news[s]} else bare)
  {
    var id := b.news[s];
    assert id in b.info && !b.info[id].inTried;
    RefsOkLess(b.info, b.news, moving, bare, s);
    assert b.info[id].refCount > 0 && id !in moving && id !in bare;
    hide RandomOk, AddrOk, NewOk, RefsOk, TriedOk, CountsOk, TimesOk, IdsOk;
    var n := b.info[id].refCount - 1;
    RefChangeOk(env, key, b, moving, bare, id, n);
    NewFewer(env, key, WithRefs(b.info, id, n), b.news, s);
  }

  // ---------------------------------------------------------------- between the tables

  function LeaveNew(env: Env, b: Book, id: Id): Book
    requires id in b.info
  {
    b.(nNew := b.nNew - 1, counts := CountNew(env, b.counts, b.info[id].addr.host, -1))
  }

  function EnterNew(env: Env, b: Book, id: Id): Book
    requires id in b.info
  {
    b.(nNew := b.nNew + 1, counts := CountNew(env, b.counts, b.info[id].addr.host, 1))
  }

  function WithTried(info: map<Id, Info>, id: Id, t: bool): map<Id, Info>
    requires id in info
  {
    info[id := info[id].(inTried := t)]
  }

  function LeaveTried(env: Env, key: Key, b: Book, id: Id): Book
    requires id in b.info
  {
    b.(info := WithTried(b.info, id, false), tried := b.tried - {TriedSlot(env, key, b.info[id].addr)},
      nTried := b.nTried - 1,
       counts := CountTried(env, b.counts, b.info[id].addr.host, -1))
  }

  function EnterTried(env: Env, key: Key, b: Book, id: Id): Book
    requires id in b.info
  {
    b.(info := WithTried(b.info, id, true), tried := b.tried[TriedSlot(env, key, b.info[id].addr) := id],
      nTried := b.nTried + 1,
       counts := CountTried(env, b.counts, b.info[id].addr.host, 1))
  }

  lemma RefFacts(info: map<Id, Info>, news: map<Slot, Id>, moving: set<Id>, bare: set<Id>, id: Id)
    requires RefsOk(info, news, moving, bare) && id in info
    ensures id in moving || id in bare ==> !info[id].inTried && info[id].refCount == 0
    ensures info[id].inTried ==> info[id].refCount == 0
    ensures 0 <= info[id].refCount <= NEW_BUCKETS_PER_ADDRESS
  {}

  lemma RefsMoved(info: map<Id, Info>, news: map<Slot, Id>, moving: set<Id>, bare: set<Id>, moving': set<Id>,
                  bare': set<Id>)
    requires RefsOk(info, news, moving, bare) && moving + bare == moving' + bare'
    ensures RefsOk(info, news, moving', bare')
  {
    hide Refs;
    forall id ensures id in moving || id in bare <==> id in moving' || id in bare' {
      assert id in moving + bare <==> id in moving' + bare';
    }
  }

  lemma CountsNewLess(env: Env, info: map<Id, Info>, moving: set<Id>, nNew: int, nTried: int,
                      counts: map<Network, NewTriedCount>, id: Id)
    requires CountsOk(env, info, moving, nNew, nTried, counts) && id in info && !info[id].inTried && id !in moving
    ensures CountsOk(env, info, moving + {id}, nNew - 1, nTried, CountNew(env, counts, info[id].addr.host, -1))
  {
    assert NewIds(info, moving) == NewIds(info, moving + {id}) + {id};
    hide Tally;
    TallyNewLess(env, info, NewIds(info, moving + {id}), TriedIds(info), nNew, nTried, counts, id);
  }

  lemma CountsNewMore(env: Env, info: map<Id, Info>, moving: set<Id>, nNew: int, nTried: int,
                      counts: map<Network, NewTriedCount>, id: Id)
    requires CountsOk(env, info, moving, nNew, nTried, counts) && id in info && !info[id].inTried && id in moving
    ensures CountsOk(env, info, moving - {id}, nNew + 1, nTried, CountNew(env, counts, info[id].addr.host, 1))
  {
    assert NewIds(info, moving - {id}) == NewIds(info, moving) + {id};
    hide Tally;
    TallyNewMore(env, info, NewIds(info, moving), TriedIds(info), nNew, nTried, counts, id);
  }

  lemma LeaveNewTables(env: Env, key: Key, b: Book, moving: set<Id>, bare: set<Id>, id: Id)
    requires TablesOk(env, key, b, moving, bare) && id in b.info && id in bare && id !in moving
    ensures TablesOk(env, key, LeaveNew(env, b, id), moving + {id}, bare - {id})
    ensures Inv(env, key, b, moving, bare) ==> Inv(env, key, LeaveNew(env, b, id), moving + {id}, bare - {id})
  {
    hide RandomOk, AddrOk, NewOk, RefsOk, TriedOk, CountsOk, TimesOk, IdsOk;
    RefFacts(b.info, b.news, moving, bare, id);
    RefsMoved(b.info, b.news, moving, bare, moving + {id}, bare - {id});
    CountsNewLess(env, b.info, moving, b.nNew, b.nTried, b.counts, id);
  }

  lemma LeaveNewOk(env: Env, key: Key, b: Book, moving: set<Id>, bare: set<Id>, id: Id)
    requires Inv(env, key, b, moving, bare) && id in b.info && id in bare && id !in moving
    ensures Inv(env, key, LeaveNew(env, b, id), moving + {id}, bare - {id})
  {
    hide TablesOk, AddrOk, TimesOk;
    LeaveNewTables(env, key, b, moving, bare, id);
  }

  lemma EnterNewOk(env: Env, key: Key, b: Book, moving: set<Id>, bare: set<Id>, id: Id)
    requires Inv(env, key, b, moving, bare) && id in b.info && id in moving
    ensures Inv(env, key, EnterNew(env, b, id), moving - {id}, bare + {id})
  {
    hide RandomOk, AddrOk, NewOk, RefsOk, TriedOk, CountsOk, TimesOk, IdsOk;
    RefFacts(b.info, b.news, moving, bare, id);
    RefsMoved(b.info, b.news, moving, bare, moving - {id}, bare + {id});
    CountsNewMore(env, b.info, moving, b.nNew, b.nTried, b.counts, id);
  }

  // ---------------------------------------------------------------- the tried table

  lemma TriedChange(info: map<Id, Info>, id: Id, t: bool)
    requires id in info
    ensures SameBody(info, WithTried(info, id, t))
    ensures TimesOk(info) && (t ==> info[id].lastSuccess > 0) ==> TimesOk(WithTried(info, id, t))
  {}

  lemma NewUntried(env: Env, key: Key, info: map<Id, Info>, news: map<Slot, Id>, id: Id, t: bool)
    requires NewOk(env, key, info, news) && id in info && id !in news.Values
    ensures NewOk(env, key, WithTried(info, id, t), news)
  {
    hide NewSlotIn;
  }

  lemma Unreferenced(info: map<Id, Info>, news: map<Slot, Id>, moving: set<Id>, bare: set<Id>, id: Id)
    requires RefsOk(info, news, moving, bare) && id in info && info[id].refCount == 0
    ensures id !in news.Values
  {
    assert Refs(news, id) == {};
    forall s | s in news ensures news[s] != id { assert s !in Refs(news, id); }
  }

  lemma TriedFewer(env: Env, key: Key, info: map<Id, Info>, tried: map<Slot, Id>, id: Id)
    requires TriedOk(env, key, info, tried) && id in info && info[id].inTried
    ensures TriedOk(env, key, WithTried(info, id, false), tried - {TriedSlot(env, key, info[id].addr)})
  {
    hide TriedSlot;
  }

  lemma TriedMore(env: Env, key: Key, info: map<Id, Info>, tried: map<Slot, Id>, id: Id)
    requires TriedOk(env, key, info, tried) && id in info && !info[id].inTried
        && TriedSlot(env, key, info[id].addr) !in tried
    ensures TriedOk(env, key, WithTried(info, id, true), tried[TriedSlot(env, key, info[id].addr) := id])
  {
    hide TriedSlot;
  }

  lemma RefsUntried(info: map<Id, Info>, news: map<Slot, Id>, moving: set<Id>, bare: set<Id>, id: Id)
    requires RefsOk(info, news, moving, bare) && id in info && info[id].inTried
    ensures RefsOk(WithTried(info, id, false), news, moving + {id}, bare)
  {
    hide Refs;
  }

  lemma RefsTried(info: map<Id, Info>, news: map<Slot, Id>, moving: set<Id>, bare: set<Id>, id: Id)
    requires RefsOk(info, news, moving, bare) && id in info && id in moving && id !in bare
    ensures RefsOk(WithTried(info, id, true), news, moving - {id}, bare)
  {
    hide Refs;
  }

  lemma IdsUntried(info: map<Id, Info>, moving: set<Id>, id: Id)
    requires id in info && info[id].inTried && id !in moving
    ensures var info' := WithTried(info, id, false);
      && NewIds(info', moving + {id}) == NewIds(info, moving)
      && TriedIds(info) == TriedIds(info') + {id} && id !in TriedIds(info')
      && NewIds(info, moving) <= info.Keys && TriedIds(info') <= info.Keys
  {}

  lemma IdsTried(info: map<Id, Info>, moving: set<Id>, id: Id)
    requires id in info && !info[id].inTried && id in moving
    ensures var info' := WithTried(info, id, true);
      && NewIds(info', moving - {id}) == NewIds(info, moving)
      && TriedIds(info') == TriedIds(info) + {id} && id !in TriedIds(info)
      && NewIds(info, moving) <= info.Keys && TriedIds(info') <= info.Keys
  {}

  lemma CountsTriedLess(env: Env, info: map<Id, Info>, moving: set<Id>, nNew: int, nTried: int,
                        counts: map<Network, NewTriedCount>, id: Id)
    requires CountsOk(env, info, moving, nNew, nTried, counts) && id in info && info[id].inTried && id !in moving
    ensures CountsOk(env, WithTried(info, id, false), moving + {id}, nNew, nTried - 1,
        CountTried(env, counts, info[id].addr.host, -1))
  {
    hide Tally, NewIds, TriedIds, CountTried;
    var info' := WithTried(info, id, false);
    IdsUntried(info, moving, id);
    TallyTriedLess(env, info, NewIds(info, moving), TriedIds(info'), nNew, nTried, counts, id);
    TallySame(env, info, info', NewIds(info, moving), TriedIds(info'), nNew, nTried - 1,
      CountTried(env, counts, info[id].addr.host, -1));
  }

  lemma CountsTriedMore(env: Env, info: map<Id, Info>, moving: set<Id>, nNew: int, nTried: int,
                        counts: map<Network, NewTriedCount>, id: Id)
    requires CountsOk(env, info, moving, nNew, nTried, counts) && id in info && !info[id].inTried && id in moving
    ensures CountsOk(env, WithTried(info, id, true), moving - {id}, nNew, nTried + 1,
        CountTried(env, counts, info[id].addr.host, 1))
  {
    hide Tally, NewIds, TriedIds, CountTried;
    var info' := WithTried(info, id, true);
    IdsTried(info, moving, id);
    TallyTriedMore(env, info, NewIds(info, moving), TriedIds(info), nNew, nTried, counts, id);
    TallySame(env, info, info', NewIds(info, moving), TriedIds(info'), nNew, nTried + 1,
      CountTried(env, counts, info[id].addr.host, 1));
  }

  lemma LeaveTriedOk(env: Env, key: Key, b: Book, moving: set<Id>, bare: set<Id>, id: Id)
    requires Inv(env, key, b, moving, bare) && id in b.info && b.info[id].inTried && id !in moving
    ensures Inv(env, key, LeaveTried(env, key, b, id), moving + {id}, bare)
  {
    hide RandomOk, AddrOk, NewOk, RefsOk, TriedOk, CountsOk, TimesOk, IdsOk;
    var info' := WithTried(b.info, id, false);
    RefFacts(b.info, b.news, moving, bare, id);
    Unreferenced(b.info, b.news, moving, bare, id);
    TriedChange(b.info, id, false);
    hide SameBody;
    BodyOk(b.info, info', b.random, b.addrs, b.nextId);
    NewUntried(env, key, b.info, b.news, id, false);
    RefsUntried(b.info, b.news, moving, bare, id);
    TriedFewer(env, key, b.info, b.tried, id);
    CountsTriedLess(env, b.info, moving, b.nNew, b.nTried, b.counts, id);
  }

  lemma EnterTriedTables(env: Env, key: Key, b: Book, moving: set<Id>, bare: set<Id>, id: Id)
    requires TablesOk(env, key, b, moving, bare) && id in b.info && id in moving && id !in bare
    requires TriedSlot(env, key, b.info[id].addr) !in b.tried
    ensures TablesOk(env, key, EnterTried(env, key, b, id), moving - {id}, bare)
    ensures Inv(env, key, b, moving, bare) && b.info[id].lastSuccess > 0 ==>
              Inv(env, key, EnterTried(env, key, b, id), moving - {id}, bare)
  {
    hide RandomOk, AddrOk, NewOk, RefsOk, TriedOk, CountsOk, TimesOk, IdsOk;
    var info' := WithTried(b.info, id, true);
    RefFacts(b.info, b.news, moving, bare, id);
    Unreferenced(b.info, b.news, moving, bare, id);
    TriedChange(b.info, id, true);
    hide SameBody;
    BodyOk(b.info, info', b.random, b.addrs, b.nextId);
    NewUntried(env, key, b.info, b.news, id, true);
    RefsTried(b.info, b.news, moving, bare, id);
    TriedMore(env, key, b.info, b.tried, id);
    CountsTriedMore(env, b.info, moving, b.nNew, b.nTried, b.counts, id);
  }

  lemma EnterTriedOk(env: Env, key: Key, b: Book, moving: set<Id>, bare: set<Id>, id: Id)
    requires Inv(env, key, b, moving, bare) && id in b.info && id in moving && id !in bare
    requires b.info[id].lastSuccess > 0 && TriedSlot(env, key, b.info[id].addr) !in b.tried
    ensures Inv(env, key, EnterTried(env, key, b, id), moving - {id}, bare)
  {
    hide TablesOk, AddrOk, TimesOk, TriedSlot, CountTried;
    EnterTriedTables(env, key, b, moving, bare, id);
  }

  // ---------------------------------------------------------------- creating and deleting entries

  function Created(env: Env, b: Book, i: Info): Book {
    var id := Id(b.nextId);
    b.(info := b.info[id := i.(randomPos := |b.random|)], addrs := b.addrs[i.addr := id], random := b.random + [id],
       nNew := b.nNew + 1, counts := CountNew(env, b.counts, i.addr.host, 1), nextId := b.nextId + 1)
  }

  lemma CreateIndexes(info: map<Id, Info>, random: seq<Id>, addrs: map<Service, Id>, id: Id, i: Info)
    requires RandomOk(info, random) && id !in info && i.randomPos == |random|
    ensures RandomOk(info[id := i], random + [id])
    ensures AddrOk(info, addrs) && i.addr !in addrs ==> AddrOk(info[id := i], addrs[i.addr := id])
  {}

  lemma CreatedTables(env: Env, key: Key, info: map<Id, Info>, news: map<Slot, Id>, tried: map<Slot, Id>, id: Id,
                      i: Info)
    requires NewOk(env, key, info, news) && TriedOk(env, key, info, tried) && id !in info && !i.inTried
    ensures NewOk(env, key, info[id := i], news) && TriedOk(env, key, info[id := i], tried) && id !in news.Values
  {
    hide NewSlotIn, TriedSlot;
  }

  lemma CreateRefs(info: map<Id, Info>, news: map<Slot, Id>, bare: set<Id>, id: Id, i: Info)
    requires RefsOk(info, news, {}, bare) && id !in info && i.refCount == 0 && !i.inTried && id !in news.Values
    ensures RefsOk(info[id := i], news, {}, bare + {id})
  {
    assert Refs(news, id) == {};
    hide Refs;
  }

  lemma CreateCounts(env: Env, info: map<Id, Info>, nNew: int, nTried: int, counts: map<Network, NewTriedCount>,
                     id: Id, i: Info)
    requires CountsOk(env, info, {}, nNew, nTried, counts) && id !in info && !i.inTried
    ensures CountsOk(env, info[id := i], {}, nNew + 1, nTried, CountNew(env, counts, i.addr.host, 1))
  {
    var info' := info[id := i];
    assert NewIds(info', {}) == NewIds(info, {}) + {id};
    assert TriedIds(info') == TriedIds(info);
    hide Tally;
    TallySame(env, info, info', NewIds(info, {}), TriedIds(info), nNew, nTried, counts);
    TallyNewMore(env, info', NewIds(info, {}), TriedIds(info), nNew, nTried, counts, id);
  }

  lemma CreateRest(info: map<Id, Info>, nextId: nat, i: Info)
    requires IdsOk(info, nextId)
    ensures Id(nextId) !in info && IdsOk(info[Id(nextId) := i], nextId + 1)
    ensures TimesOk(info) && TimeOk(i) ==> TimesOk(info[Id(nextId) := i])
  {}

  lemma CreateTables(env: Env, key: Key, b: Book, bare: set<Id>, i: Info)
    requires TablesOk(env, key, b, {}, bare) && i.refCount == 0 && !i.inTried
    ensures TablesOk(env, key, Created(env, b, i), {}, bare + {Id(b.nextId)}) && Id(b.nextId) !in b.info
    ensures Inv(env, key, b, {}, bare) && i.addr !in b.addrs && TimeOk(i) ==>
              Inv(env, key, Created(env, b, i), {}, bare + {Id(b.nextId)})
  {
    hide RandomOk, AddrOk, NewOk, RefsOk, TriedOk, CountsOk, TimesOk, IdsOk;
    var id, j := Id(b.nextId), i.(randomPos := |b.random|);
    CreateRest(b.info, b.nextId, j);
    CreateIndexes(b.info, b.random, b.addrs, id, j);
    CreatedTables(env, key, b.info, b.news, b.tried, id, j);
    CreateRefs(b.info, b.news, bare, id, j);
    CreateCounts(env, b.info, b.nNew, b.nTried, b.counts, id, j);
  }

  lemma CreateOk(env: Env, key: Key, b: Book, bare: set<Id>, i: Info)
    requires Inv(env, key, b, {}, bare) && i.addr !in b.addrs && i.refCount == 0 && !i.inTried && TimeOk(i)
    ensures Inv(env, key, Created(env, b, i), {}, bare + {Id(b.nextId)}) && Id(b.nextId) !in b.info
  {
    hide TablesOk, AddrOk, TimesOk, CountNew;
    CreateTables(env, key, b, bare, i);
  }

  /** The book without its last entry in the random order. */
  function Popped(env: Env, b: Book, id: Id): Book
    requires id in b.info && |b.random| > 0
  {
    b.(info := b.info - {id}, addrs := b.addrs - {b.info[id].addr}, random := b.random[..|b.random| - 1],
       nNew := b.nNew - 1, counts := CountNew(env, b.counts, b.info[id].addr.host, -1))
  }

  lemma PopIndexes(info: map<Id, Info>, random: seq<Id>, addrs: map<Service, Id>, id: Id)
    requires RandomOk(info, random) && |random| > 0 && id == random[|random| - 1] && id in info
    ensures RandomOk(info - {id}, random[..|random| - 1])
    ensures AddrOk(info, addrs) ==> AddrOk(info - {id}, addrs - {info[id].addr})
  {}

  lemma PopTables(env: Env, key: Key, info: map<Id, Info>, news: map<Slot, Id>, tried: map<Slot, Id>, id: Id)
    requires NewOk(env, key, info, news) && TriedOk(env, key, info, tried) && id in info && !info[id].inTried
        && id !in news.Values
    ensures NewOk(env, key, info - {id}, news) && TriedOk(env, key, info - {id}, tried)
  {
    hide NewSlotIn, TriedSlot;
  }

  lemma PopRefs(info: map<Id, Info>, news: map<Slot, Id>, moving: set<Id>, bare: set<Id>, id: Id)
    requires RefsOk(info, news, moving, bare)
    ensures RefsOk(info - {id}, news, moving, bare - {id})
  {
    hide Refs;
  }

  lemma PopCounts(env: Env, info: map<Id, Info>, moving: set<Id>, nNew: int, nTried: int,
                  counts: map<Network, NewTriedCount>, id: Id)
    requires CountsOk(env, info, moving, nNew, nTried, counts) && id in info && !info[id].inTried && id !in moving
    ensures CountsOk(env, info - {id}, moving, nNew - 1, nTried, CountNew(env, counts, info[id].addr.host, -1))
  {
    var info' := info - {id};
    assert NewIds(info, moving) == NewIds(info', moving) + {id};
    assert TriedIds(info') == TriedIds(info);
    hide Tally;
    TallyNewLess(env, info, NewIds(info', moving), TriedIds(info), nNew, nTried, counts, id);
    TallySame(env, info, info', NewIds(info', moving), TriedIds(info), nNew - 1, nTried,
      CountNew(env, counts, info[id].addr.host, -1));
  }

  lemma PopRest(info: map<Id, Info>, nextId: nat, id: Id)
    requires IdsOk(info, nextId)
    ensures IdsOk(info - {id}, nextId) && (TimesOk(info) ==> TimesOk(info - {id}))
  {}

  lemma PopOk(env: Env, key: Key, b: Book, moving: set<Id>, bare: set<Id>, id: Id)
    requires TablesOk(env, key, b, moving, bare) && id in b.info && id in bare && id !in moving
    requires |b.random| > 0 && b.random[|b.random| - 1] == id
    ensures TablesOk(env, key, Popped(env, b, id), moving, bare - {id})
    ensures Inv(env, key, b, moving, bare) ==> Inv(env, key, Popped(env, b, id), moving, bare - {id})
  {
    hide RandomOk, AddrOk, NewOk, RefsOk, TriedOk, CountsOk, TimesOk, IdsOk;
    RefFacts(b.info, b.news, moving, bare, id);
    Unreferenced(b.info, b.news, moving, bare, id);
    PopIndexes(b.info, b.random, b.addrs, id);
    PopTables(env, key, b.info, b.news, b.tried, id);
    PopRefs(b.info, b.news, moving, bare, id);
    PopCounts(env, b.info, moving, b.nNew, b.nTried, b.counts, id);
    PopRest(b.info, b.nextId, id);
  }

  // ---------------------------------------------------------------- what a change leaves alone

  ghost predicate SameRecord(i: Info, j: Info) {
    j == i.(refCount := j.refCount, inTried := j.inTried, randomPos := j.randomPos)
  }

  /** No entry appears, only the named ones may disappear or change tables, and records stay as they are. */
  ghost predicate Kept(info: map<Id, Info>, info': map<Id, Info>, changed: set<Id>) {
    (forall id | id in info' :: id in info && SameRecord(info[id], info'[id]))
    && (forall id | id in info && id !in changed ::
          id in info' && info'[id].refCount == info[id].refCount && info'[id].inTried == info[id].inTried)
  }

  lemma KeptSelf(info: map<Id, Info>)
    ensures Kept(info, info, {})
  {}

  lemma KeptTwice(info: map<Id, Info>, info': map<Id, Info>, info'': map<Id, Info>, x: set<Id>, y: set<Id>)
    requires Kept(info, info', x) && Kept(info', info'', y)
    ensures Kept(info, info'', x + y)
  {}

  lemma KeptMore(info: map<Id, Info>, info': map<Id, Info>, x: set<Id>, y: set<Id>)
    requires Kept(info, info', x) && x <= y
    ensures Kept(info, info', y)
  {}

  lemma KeptRefs(info: map<Id, Info>, id: Id, n: int)
    requires id in info
    ensures Kept(info, WithRefs(info, id, n), {id})
  {}

  lemma KeptMoved(info: map<Id, Info>, id: Id, p: int)
    requires id in info
    ensures Kept(info, Moved(info, id, p), {})
  {}

  lemma KeptSwapped(b: Book, p: nat, q: nat)
    requires p < |b.random| && q < |b.random| && b.random[p] in b.info && b.random[q] in b.info
    ensures Kept(b.info, Swapped(b, p, q).info, {})
  {
    KeptSelf(b.info);
    var info1 := Moved(b.info, b.random[p], q);
    KeptMoved(b.info, b.random[p], q);
    KeptMoved(info1, b.random[q], p);
    var none: set<Id> := {};
    KeptTwice(b.info, info1, Moved(info1, b.random[q], p), none, none);
    assert none + none == none;
    hide Kept, Moved;
  }

  lemma KeptPopped(info: map<Id, Info>, id: Id)
    ensures Kept(info, info - {id}, {id})
  {}

  lemma KeptTried(info: map<Id, Info>, id: Id, t: bool)
    requires id in info
    ensures Kept(info, WithTried(info, id, t), {id})
  {}

  // ---------------------------------------------------------------- the tables by address

  /** Which address each occupied slot holds. */
  ghost function View(info: map<Id, Info>, t: map<Slot, Id>): map<Slot, Service> {
    map s | s in t && t[s] in info :: info[t[s]].addr
  }

  ghost predicate Live(info: map<Id, Info>, t: map<Slot, Id>) {
    forall s | s in t :: t[s] in info
  }

  lemma ViewKept(info: map<Id, Info>, info': map<Id, Info>, t: map<Slot, Id>)
    requires Live(info, t) && Live(info', t) && forall id | id in info && id in info' :: info'[id].addr == info[id].addr
    ensures View(info', t) == View(info, t)
  {}

  lemma ViewSet(info: map<Id, Info>, t: map<Slot, Id>, s: Slot, id: Id)
    requires Live(info, t) && id in info
    ensures View(info, t[s := id]) == View(info, t)[s := info[id].addr] && Live(info, t[s := id])
  {}

  lemma InvLive(env: Env, key: Key, b: Book, moving: set<Id>, bare: set<Id>)
    requires Inv(env, key, b, moving, bare)
    ensures Live(b.info, b.news) && Live(b.info, b.tried)
  {
    hide NewSlotIn, TriedSlot, CountsOk, RefsOk;
  }

  lemma ViewFilled(info: map<Id, Info>, info': map<Id, Info>, t: map<Slot, Id>, s: Slot, id: Id)
    requires Live(info, t) && Live(info', t[s := id]) && id in info'
    requires forall x | x in info && x in info' :: info'[x].addr == info[x].addr
    ensures View(info', t[s := id]) == View(info, t)[s := info'[id].addr]
  {
    forall r | r in t && r != s ensures t[s := id][r] == t[r] && t[r] in info' {
      assert r in t[s := id];
    }
  }

  // ---------------------------------------------------------------- pending collisions

  /** Every pending id was given out, and if it is still live its tried slot is taken. */
  ghost predicate CollisionsOk(env: Env, key: Key, info: map<Id, Info>, tried: map<Slot, Id>, collisions: set<Id>,
                               nextId: nat) {
    |collisions| <= SET_TRIED_COLLISION_SIZE
    && forall id | id in collisions :: id.n < nextId && (id in info ==> TriedSlot(env, key, info[id].addr) in tried)
  }

  /** Ids are never reused and tried slots never become free again, so pending collisions stay real. */
  lemma CollisionsKept(env: Env, key: Key, info: map<Id, Info>, info': map<Id, Info>, tried: map<Slot, Id>,
                       tried': map<Slot, Id>,
                       collisions: set<Id>, nextId: nat, nextId': nat)
    requires CollisionsOk(env, key, info, tried, collisions, nextId) && nextId <= nextId'
    requires forall s | s in tried :: s in tried'
    requires forall id | id in info' :: id.n >= nextId || (id in info && info'[id].addr == info[id].addr)
    ensures CollisionsOk(env, key, info', tried', collisions, nextId')
  {
    hide TriedSlot;
  }
}
