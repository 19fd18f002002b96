/** The address manager's tables as values: what the six indexes say about each other, and how the elementary
    changes keep that. Hashes, network groups and address classes are parameters. */
module AddrBook {

  const TRIED_BUCKETS_PER_GROUP: nat := 8
  const NEW_BUCKETS_PER_SOURCE_GROUP: nat := 64
  const NEW_BUCKETS_PER_ADDRESS: nat := 8
  const TRIED_BUCKET_COUNT: nat := 256
  const NEW_BUCKET_COUNT: nat := 1024
  const BUCKET_SIZE: nat := 64
  const SET_TRIED_COLLISION_SIZE: nat := 10

  /** Ids count up from 0; -1 marks an empty slot. */
  datatype Id = Id(n: int)

  type Key = nat
  type NetAddr = nat
  type Group = nat

  datatype Service = Service(host: NetAddr, port: nat)

  datatype Network = UNROUTABLE | IPV4 | IPV6 | ONION | I2P | CJDNS | INTERNAL

  /** What the address manager takes from elsewhere. */
  datatype Env = Env(
    network: NetAddr -> Network,
    netClass: NetAddr -> Network,
    group: NetAddr -> Group,
    valid: NetAddr -> bool,
    routable: NetAddr -> bool,
    addressHash: (Key, Service) -> nat,
    triedHash: (Key, Group, nat) -> nat,
    pairHash: (Key, Group, Group) -> nat,
    newHash: (Key, Group, nat) -> nat,
    positionHash: (Key, bool, nat, Service) -> nat)

  datatype Slot = Slot(bucket: nat, pos: nat)

  function TriedBucket(env: Env, key: Key, a: Service): nat {
    env.triedHash(key, env.group(a.host), env.addressHash(key, a) % TRIED_BUCKETS_PER_GROUP) % TRIED_BUCKET_COUNT
  }

  function NewBucket(env: Env, key: Key, a: Service, source: NetAddr): nat {
    env.newHash(key, env.group(source),
                env.pairHash(key, env.group(a.host), env.group(source)) % NEW_BUCKETS_PER_SOURCE_GROUP)
    % NEW_BUCKET_COUNT
  }

  function BucketPosition(env: Env, key: Key, isNew: bool, bucket: nat, a: Service): nat {
    env.positionHash(key, isNew, bucket, a) % BUCKET_SIZE
  }

  function TriedSlot(env: Env, key: Key, a: Service): Slot {
    var bucket := TriedBucket(env, key, a);
    Slot(bucket, BucketPosition(env, key, false, bucket, a))
  }

  /** Where an address goes in a given new bucket. */
  function NewSlotIn(env: Env, key: Key, a: Service, bucket: nat): Slot {
    Slot(bucket, BucketPosition(env, key, true, bucket, a))
  }

  /** Where an address learned from a source goes in the new table. */
  function NewSlot(env: Env, key: Key, a: Service, source: NetAddr): Slot {
    NewSlotIn(env, key, a, NewBucket(env, key, a, source))
  }

  datatype Info = Info(addr: Service, source: NetAddr, time: int, services: bv64, lastTry: int, lastCountAttempt: int,
                       lastSuccess: int, attempts: int, refCount: int, inTried: bool, randomPos: int)

  datatype NewTriedCount = NewTriedCount(inNew: int, inTried: int)

  datatype Book = Book(info: map<Id, Info>, addrs: map<Service, Id>, random: seq<Id>, news: map<Slot, Id>,
                       tried: map<Slot, Id>, nNew: int, nTried: int, counts: map<Network, NewTriedCount>, nextId: nat)

  // ---------------------------------------------------------------- the invariant, index by index

  /** The random order lists every id once, and every entry knows its place in it. */
  ghost predicate RandomOk(info: map<Id, Info>, random: seq<Id>) {
    (forall id | id in info :: 0 <= info[id].randomPos < |random| && random[info[id].randomPos] == id)
    && (forall p | 0 <= p < |random| :: random[p] in info && info[random[p]].randomPos == p)
  }

  /** The address index and the entries are inverse to each other. */
  ghost predicate AddrOk(info: map<Id, Info>, addrs: map<Service, Id>) {
    (forall id | id in info :: info[id].addr in addrs && addrs[info[id].addr] == id)
    && (forall a | a in addrs :: addrs[a] in info && info[addrs[a]].addr == a)
  }

  /** New slots hold live entries that are not tried, each at the position its hash gives. */
  ghost predicate NewOk(env: Env, key: Key, info: map<Id, Info>, news: map<Slot, Id>) {
    forall s | s in news :: s.bucket < NEW_BUCKET_COUNT && news[s] in info && !info[news[s]].inTried
                            && s == NewSlotIn(env, key, info[news[s]].addr, s.bucket)
  }

  ghost function Refs(news: map<Slot, Id>, id: Id): set<Slot> {
    set s | s in news && news[s] == id
  }

  /** Reference counts are numbers of slots. Entries on the way between tables, and bare ones that are only just
      created, have none. */
  ghost predicate RefsOk(info: map<Id, Info>, news: map<Slot, Id>, moving: set<Id>, bare: set<Id>) {
    forall id | id in info :: info[id].refCount == |Refs(news, id)| <= NEW_BUCKETS_PER_ADDRESS
                              && (info[id].refCount == 0 <==> info[id].inTried || id in moving || id in bare)
                              && (id in moving || id in bare ==> !info[id].inTried)
  }

  /** Tried slots and tried entries correspond, each at the slot its hash gives. */
  ghost predicate TriedOk(env: Env, key: Key, info: map<Id, Info>, tried: map<Slot, Id>) {
    (forall s | s in tried ::
      tried[s] in info && info[tried[s]].inTried && s == TriedSlot(env, key, info[tried[s]].addr))
    && (forall id | id in info && info[id].inTried ::
          TriedSlot(env, key, info[id].addr) in tried && tried[TriedSlot(env, key, info[id].addr)] == id)
  }

  ghost function NewIds(info: map<Id, Info>, moving: set<Id>): set<Id> {
    set id | id in info && !info[id].inTried && id !in moving
  }

  ghost function TriedIds(info: map<Id, Info>): set<Id> {
    set id | id in info && info[id].inTried
  }

  ghost function Within(env: Env, info: map<Id, Info>, ids: set<Id>, net: Network): set<Id> {
    set id | id in ids && id in info && env.network(info[id].addr.host) == net
  }

  function CountAt(counts: map<Network, NewTriedCount>, net: Network): NewTriedCount {
    if net in counts then counts[net] else NewTriedCount(0, 0)
  }

  /** Totals and per-network totals, for given sets of new and tried entries. */
  ghost predicate Tally(env: Env, info: map<Id, Info>, inNew: set<Id>, inTried: set<Id>, nNew: int, nTried: int,
                        counts: map<Network, NewTriedCount>) {
    nNew == |inNew| && nTried == |inTried|
    && (forall net :: CountAt(counts, net).inNew == |Within(env, info, inNew, net)|)
    && (forall net :: CountAt(counts, net).inTried == |Within(env, info, inTried, net)|)
  }

  ghost predicate CountsOk(env: Env, info: map<Id, Info>, moving: set<Id>, nNew: int, nTried: int,
                           counts: map<Network, NewTriedCount>) {
    Tally(env, info, NewIds(info, moving), TriedIds(info), nNew, nTried, counts)
  }

  ghost predicate TimesOk(info: map<Id, Info>) {
    forall id | id in info :: info[id].lastTry >= 0 && info[id].lastSuccess >= 0
                              && (info[id].inTried ==> info[id].lastSuccess > 0)
  }

  ghost predicate IdsOk(info: map<Id, Info>, nextId: nat) {
    forall id | id in info :: 0 <= id.n < nextId
  }

  /** The part of the invariant that holds of entries with any addresses and times. */
  ghost predicate TablesOk(env: Env, key: Key, b: Book, moving: set<Id>, bare: set<Id>) {
    RandomOk(b.info, b.random) && NewOk(env, key, b.info, b.news)
    && RefsOk(b.info, b.news, moving, bare) && TriedOk(env, key, b.info, b.tried)
    && CountsOk(env, b.info, moving, b.nNew, b.nTried, b.counts) && IdsOk(b.info, b.nextId)
  }

  /** The whole invariant. Between operations nothing is moving or bare. */
  ghost predicate Inv(env: Env, key: Key, b: Book, moving: set<Id>, bare: set<Id>) {
    TablesOk(env, key, b, moving, bare) && AddrOk(b.info, b.addrs) && TimesOk(b.info)
  }

  lemma InvTables(env: Env, key: Key, b: Book, moving: set<Id>, bare: set<Id>)
    requires Inv(env, key, b, moving, bare)
    ensures TablesOk(env, key, b, moving, bare)
  {
    hide TablesOk;
  }

  // ---------------------------------------------------------------- changing statistics only

  /** The parts of an entry that the indexes depend on. */
  ghost predicate SamePlace(i: Info, j: Info) {
    i.addr == j.addr && i.source == j.source && i.refCount == j.refCount && i.inTried == j.inTried
      && i.randomPos == j.randomPos
  }

  ghost predicate TimeOk(i: Info) {
    i.lastTry >= 0 && i.lastSuccess >= 0 && (i.inTried ==> i.lastSuccess > 0)
  }

  /** Entries differ in what the tables and counts do not depend on. */
  ghost predicate SameUse(info: map<Id, Info>, info': map<Id, Info>) {
    info.Keys == info'.Keys
    && forall id | id in info :: info[id].addr == info'[id].addr && info[id].inTried == info'[id].inTried
                                 && info[id].refCount == info'[id].refCount
  }

  lemma AddrSame(info: map<Id, Info>, info': map<Id, Info>, addrs: map<Service, Id>)
    requires AddrOk(info, addrs) && SameUse(info, info')
    ensures AddrOk(info', addrs)
  {}

  lemma NewSame(env: Env, key: Key, info: map<Id, Info>, info': map<Id, Info>, news: map<Slot, Id>)
    requires NewOk(env, key, info, news) && SameUse(info, info')
    ensures NewOk(env, key, info', news)
  {
    hide NewSlotIn;
  }

  lemma RefsSame(info: map<Id, Info>, info': map<Id, Info>, news: map<Slot, Id>, moving: set<Id>, bare: set<Id>)
    requires RefsOk(info, news, moving, bare) && SameUse(info, info')
    ensures RefsOk(info', news, moving, bare)
  {
    hide Refs;
  }

  lemma TriedSame(env: Env, key: Key, info: map<Id, Info>, info': map<Id, Info>, tried: map<Slot, Id>)
    requires TriedOk(env, key, info, tried) && SameUse(info, info')
    ensures TriedOk(env, key, info', tried)
  {
    hide TriedSlot;
  }

  lemma CountsSame(env: Env, info: map<Id, Info>, info': map<Id, Info>, moving: set<Id>, nNew: int, nTried: int,
                   counts: map<Network, NewTriedCount>)
    requires CountsOk(env, info, moving, nNew, nTried, counts) && SameUse(info, info')
    ensures CountsOk(env, info', moving, nNew, nTried, counts)
  {
    assert NewIds(info, moving) == NewIds(info', moving) && TriedIds(info) == TriedIds(info');
    hide NewIds, TriedIds;
    forall net, ids ensures Within(env, info, ids, net) == Within(env, info', ids, net) {}
  }

  /** What does not depend on the order or the statistics stays. */
  lemma TablesSame(env: Env, key: Key, b: Book, b': Book, moving: set<Id>, bare: set<Id>)
    requires TablesOk(env, key, b, moving, bare) && SameUse(b.info, b'.info)
    requires b' == b.(info := b'.info, random := b'.random) && RandomOk(b'.info, b'.random)
    ensures TablesOk(env, key, b', moving, bare)
  {
    NewSame(env, key, b.info, b'.info, b.news);
    RefsSame(b.info, b'.info, b.news, moving, bare);
    TriedSame(env, key, b.info, b'.info, b.tried);
    CountsSame(env, b.info, b'.info, moving, b.nNew, b.nTried, b.counts);
    hide RandomOk, NewOk, RefsOk, TriedOk, CountsOk;
  }

  lemma InvSame(env: Env, key: Key, b: Book, b': Book, moving: set<Id>, bare: set<Id>)
    requires Inv(env, key, b, moving, bare) && SameUse(b.info, b'.info)
    requires b' == b.(info := b'.info, random := b'.random)
    requires RandomOk(b'.info, b'.random) && TimesOk(b'.info)
    ensures Inv(env, key, b', moving, bare)
  {
    hide TablesOk, AddrOk, TimesOk, SameUse, RandomOk;
    AddrSame(b.info, b'.info, b.addrs);
    TablesSame(env, key, b, b', moving, bare);
  }

  lemma TouchParts(info: map<Id, Info>, random: seq<Id>, id: Id, i: Info)
    requires RandomOk(info, random) && TimesOk(info) && id in info && SamePlace(info[id], i) && TimeOk(i)
    ensures RandomOk(info[id := i], random) && TimesOk(info[id := i]) && SameUse(info, info[id := i])
  {}

  lemma TouchOk(env: Env, key: Key, b: Book, moving: set<Id>, bare: set<Id>, id: Id, i: Info)
    requires Inv(env, key, b, moving, bare) && id in b.info && SamePlace(b.info[id], i) && TimeOk(i)
    ensures Inv(env, key, b.(info := b.info[id := i]), moving, bare)
  {
    hide RandomOk, AddrOk, NewOk, RefsOk, TriedOk, CountsOk, TimesOk, IdsOk, SameUse;
    TouchParts(b.info, b.random, id, i);
    InvSame(env, key, b, b.(info := b.info[id := i]), moving, bare);
  }

  // ---------------------------------------------------------------- the random order

  function Moved(info: map<Id, Info>, id: Id, p: int): (r: map<Id, Info>)
    requires id in info
    ensures r.Keys == info.Keys
  {
    info[id := info[id].(randomPos := p)]
  }

  /** The book with two places of the random order exchanged. */
  function Swapped(b: Book, p: nat, q: nat): Book
    requires p < |b.random| && q < |b.random| && b.random[p] in b.info && b.random[q] in b.info
  {
    if p == q then b
    else b.(info := Moved(Moved(b.info, b.random[p], q), b.random[q], p),
      random := b.random[p := b.random[q]][q := b.random[p]])
  }

  lemma SwapUse(info: map<Id, Info>, id1: Id, id2: Id, p: nat, q: nat)
    requires id1 in info && id2 in info
    ensures var info' := Moved(Moved(info, id1, q), id2, p); SameUse(info, info') && (TimesOk(info) ==> TimesOk(info'))
  {}

  lemma SwapRandomOk(info: map<Id, Info>, random: seq<Id>, p: nat, q: nat)
    requires RandomOk(info, random) && p < |random| && q < |random| && p != q
    ensures random[p] in info && random[q] in info
    ensures RandomOk(Moved(Moved(info, random[p], q), random[q], p), random[p := random[q]][q := random[p]])
  {
    var id1, id2 := random[p], random[q];
    assert id1 != id2;
    var info', random' := Moved(Moved(info, id1, q), id2, p), random[p := id2][q := id1];
    forall id | id in info' ensures 0 <= info'[id].randomPos < |random'| && random'[info'[id].randomPos] == id {
      if id != id1 && id != id2 { assert info'[id] == info[id]; }
    }
    forall r | 0 <= r < |random'| ensures random'[r] in info' && info'[random'[r]].randomPos == r {
      if r != p && r != q { assert random'[r] == random[r]; }
    }
  }

  lemma SwapOk(env: Env, key: Key, b: Book, moving: set<Id>, bare: set<Id>, p: nat, q: nat)
    requires TablesOk(env, key, b, moving, bare) && p < |b.random| && q < |b.random|
    ensures b.random[p] in b.info && b.random[q] in b.info && TablesOk(env, key, Swapped(b, p, q), moving, bare)
    ensures Inv(env, key, b, moving, bare) ==> Inv(env, key, Swapped(b, p, q), moving, bare)
    ensures SameUse(b.info, Swapped(b, p, q).info)
  {
    assert b.random[p] in b.info && b.random[q] in b.info;
    hide AddrOk, NewOk, RefsOk, TriedOk, CountsOk, TimesOk, IdsOk, SameUse, Moved;
    if p != q {
      SwapUse(b.info, b.random[p], b.random[q], p, q);
      SwapRandomOk(b.info, b.random, p, q);
      hide RandomOk;
      TablesSame(env, key, b, Swapped(b, p, q), moving, bare);
      if AddrOk(b.info, b.addrs) { AddrSame(b.info, Swapped(b, p, q).info, b.addrs); }
    } else {
      SameUseSelf(b.info);
    }
  }

  lemma SameUseSelf(info: map<Id, Info>)
    ensures SameUse(info, info)
  {}

  // ---------------------------------------------------------------- cardinalities

  lemma AddOne<T>(s: set<T>, x: T)
    requires x !in s
    ensures |s + {x}| == |s| + 1
  {}

  lemma DropOne<T>(s: set<T>, x: T)
    requires x in s
    ensures |s - {x}| == |s| - 1
  {}

  lemma WithinSplit(env: Env, info: map<Id, Info>, ids: set<Id>, id: Id, net: Network)
    requires id in info
    ensures Within(env, info, ids + {id}, net) == Within(env, info, ids, net) +
        if env.network(info[id].addr.host) == net then {id} else {}
  {}

  /** An entry becomes counted under one of the tables. */
  lemma WithinMore(env: Env, info: map<Id, Info>, ids: set<Id>, id: Id, net: Network)
    requires id in info && id !in ids
    ensures |Within(env, info, ids + {id}, net)| == |Within(env, info, ids, net)| +
        if env.network(info[id].addr.host) == net then 1 else 0
  {
    WithinSplit(env, info, ids, id, net);
    var was := Within(env, info, ids, net);
    assert id !in was;
    hide Within;
    AddOne(was, id);
    assert was + {} == was;
  }

  lemma WithinSame(env: Env, info: map<Id, Info>, info': map<Id, Info>, ids: set<Id>, net: Network)
    requires forall id | id in ids :: id in info && id in info' && info[id].addr == info'[id].addr
    ensures Within(env, info, ids, net) == Within(env, info', ids, net)
  {}

  function CountNew(env: Env, counts: map<Network, NewTriedCount>, host: NetAddr, delta: int)
    : map<Network, NewTriedCount>
  {
    var c := CountAt(counts, env.network(host));
    counts[env.network(host) := c.(inNew := c.inNew + delta)]
  }

  function CountTried(env: Env, counts: map<Network, NewTriedCount>, host: NetAddr, delta: int)
    : map<Network, NewTriedCount>
  {
    var c := CountAt(counts, env.network(host));
    counts[env.network(host) := c.(inTried := c.inTried + delta)]
  }

  lemma TallyNewMore(env: Env, info: map<Id, Info>, inNew: set<Id>, inTried: set<Id>, nNew: int, nTried: int,
                     counts: map<Network, NewTriedCount>, id: Id)
    requires Tally(env, info, inNew, inTried, nNew, nTried, counts) && id in info && id !in inNew
    ensures Tally(env, info, inNew + {id}, inTried, nNew + 1, nTried, CountNew(env, counts, info[id].addr.host, 1))
  {
    forall net { WithinMore(env, info, inNew, id, net); }
    hide Within;
  }

  lemma TallyNewLess(env: Env, info: map<Id, Info>, inNew: set<Id>, inTried: set<Id>, nNew: int, nTried: int,
                     counts: map<Network, NewTriedCount>, id: Id)
    requires Tally(env, info, inNew + {id}, inTried, nNew, nTried, counts) && id in info && id !in inNew
    ensures Tally(env, info, inNew, inTried, nNew - 1, nTried, CountNew(env, counts, info[id].addr.host, -1))
  {
    forall net { WithinMore(env, info, inNew, id, net); }
    hide Within;
  }

  lemma TallyTriedMore(env: Env, info: map<Id, Info>, inNew: set<Id>, inTried: set<Id>, nNew: int, nTried: int,
                       counts: map<Network, NewTriedCount>, id: Id)
    requires Tally(env, info, inNew, inTried, nNew, nTried, counts) && id in info && id !in inTried
    ensures Tally(env, info, inNew, inTried + {id}, nNew, nTried + 1, CountTried(env, counts, info[id].addr.host, 1))
  {
    forall net { WithinMore(env, info, inTried, id, net); }
    hide Within;
  }

  lemma TallyTriedLess(env: Env, info: map<Id, Info>, inNew: set<Id>, inTried: set<Id>, nNew: int, nTried: int,
                       counts: map<Network, NewTriedCount>, id: Id)
    requires Tally(env, info, inNew, inTried + {id}, nNew, nTried, counts) && id in info && id !in inTried
    ensures Tally(env, info, inNew, inTried, nNew, nTried - 1, CountTried(env, counts, info[id].addr.host, -1))
  {
    forall net { WithinMore(env, info, inTried, id, net); }
    hide Within;
  }

  lemma TallySame(env: Env, info: map<Id, Info>, info': map<Id, Info>, inNew: set<Id>, inTried: set<Id>, nNew: int,
                  nTried: int,
                  counts: map<Network, NewTriedCount>)
    requires Tally(env, info, inNew, inTried, nNew, nTried, counts)
    requires forall id | id in inNew || id in inTried :: id in info && id in info' && info[id].addr == info'[id].addr
    ensures Tally(env, info', inNew, inTried, nNew, nTried, counts)
  {
    forall net
      ensures Within(env, info, inNew, net) == Within(env, info', inNew, net)
    {
      WithinSame(env, info, info', inNew, net);
    }
    forall net
      ensures Within(env, info, inTried, net) == Within(env, info', inTried, net)
    {
      WithinSame(env, info, info', inTried, net);
    }
    hide Within;
  }

  // ---------------------------------------------------------------- references from new slots

  /** Entries differ only in which table they are in. */
  ghost predicate SameBody(info: map<Id, Info>, info': map<Id, Info>) {
    info.Keys == info'.Keys
    && forall id | id in info :: info'[id] == info[id].(refCount := info'[id].refCount, inTried := info'[id].inTried)
  }

  lemma BodyOk(info: map<Id, Info>, info': map<Id, Info>, random: seq<Id>, addrs: map<Service, Id>, nextId: nat)
    requires SameBody(info, info') && RandomOk(info, random) && IdsOk(info, nextId)
    ensures RandomOk(info', random) && IdsOk(info', nextId) && (AddrOk(info, addrs) ==> AddrOk(info', addrs))
  {}

  function WithRefs(info: map<Id, Info>, id: Id, n: int): map<Id, Info>
    requires id in info
  {
    info[id := info[id].(refCount := n)]
  }

  lemma RefsMore(news: map<Slot, Id>, s: Slot, id: Id, other: Id)
    requires s !in news
    ensures |Refs(news[s := id], other)| == |Refs(news, other)| + if other == id then 1 else 0
  {
    if other == id {
      assert Refs(news[s := id], other) == Refs(news, other) + {s};
    } else {
      assert Refs(news[s := id], other) == Refs(news, other);
    }
  }

  lemma RefsLess(news: map<Slot, Id>, s: Slot, other: Id)
    requires s in news
    ensures |Refs(news - {s}, other)| == |Refs(news, other)| - if other == news[s] then 1 else 0
    ensures other == news[s] ==> |Refs(news, other)| > 0
  {
    if other == news[s] {
      assert Refs(news - {s}, other) == Refs(news, other) - {s};
    } else {
      assert Refs(news - {s}, other) == Refs(news, other);
    }
  }

  lemma RefChange(info: map<Id, Info>, id: Id, n: int)
    requires id in info
    ensures SameBody(info, WithRefs(info, id, n)) && (TimesOk(info) ==> TimesOk(WithRefs(info, id, n)))
  {}

  lemma RefsOkMore(info: map<Id, Info>, news: map<Slot, Id>, moving: set<Id>, bare: set<Id>, s: Slot, id: Id)
    requires RefsOk(info, news, moving, bare) && s !in news && id in info && !info[id].inTried && id !in moving
    requires info[id].refCount < NEW_BUCKETS_PER_ADDRESS
    ensures RefsOk(WithRefs(info, id, info[id].refCount + 1), news[s := id], moving, bare - {id})
  {
    forall other { RefsMore(news, s, id, other); }
    hide Refs;
  }

  lemma RefsOkLess(info: map<Id, Info>, news: map<Slot, Id>, moving: set<Id>, bare: set<Id>, s: Slot)
    requires RefsOk(info, news, moving, bare) && s in news && news[s] in info && !info[news[s]].inTried
    ensures var id := news[s];
            info[id].refCount > 0
            && RefsOk(WithRefs(info, id, info[id].refCount - 1), news - {s}, moving,
              if info[id].refCount == 1 then bare + {id} else bare)
  {
    forall other { RefsLess(news, s, other); }
    hide Refs;
  }

  lemma CountsBody(env: Env, info: map<Id, Info>, info': map<Id, Info>, moving: set<Id>, nNew: int, nTried: int,
                   counts: map<Network, NewTriedCount>)
    requires CountsOk(env, info, moving, nNew, nTried, counts) && SameBody(info, info')
    requires forall id | id in info :: info[id].inTried == info'[id].inTried
    ensures CountsOk(env, info', moving, nNew, nTried, counts)
  {
    assert NewIds(info, moving) == NewIds(info', moving) && TriedIds(info) == TriedIds(info');
    TallySame(env, info, info', NewIds(info, moving), TriedIds(info), nNew, nTried, counts);
  }
}
