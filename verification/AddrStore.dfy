/** The address manager's file, as a value: what is written, what is read back entry by entry, and that reading
    what was written restores both tables. */
module AddrStore {
  import opened AddrBook
  import opened AddrSteps
  import opened AddrMan
  import opened AddrCheck

  /** The part of an entry that is written. */
  datatype Record = Record(addr: Service, time: int, services: bv64, source: NetAddr, lastSuccess: int, attempts: int)

  datatype File = File(format: nat, compat: nat, key: Key, nNew: int, nTried: int, newRecords: seq<Record>,
                       triedRecords: seq<Record>, buckets: seq<seq<int>>, asmapVersion: nat)

  function RecordOf(i: Info): Record {
    Record(i.addr, i.time, i.services, i.source, i.lastSuccess, i.attempts)
  }

  function InfoOf(r: Record): Info {
    Info(r.addr, r.source, r.time, r.services, 0, 0, r.lastSuccess, r.attempts, 0, false, -1)
  }

  // ---------------------------------------------------------------- reading, entry by entry

  /** Entries that are in no table yet. */
  ghost function Bare(info: map<Id, Info>): set<Id> {
    set id | id in info && !info[id].inTried && info[id].refCount == 0
  }

  lemma BareIn(info: map<Id, Info>)
    ensures Bare(info) <= info.Keys
  {}

  ghost predicate Loading(env: Env, key: Key, b: Book) {
    Inv(env, key, b, {}, Bare(b.info))
  }

  lemma BareOf(env: Env, key: Key, b: Book, bare: set<Id>)
    requires Inv(env, key, b, {}, bare) && forall id | id in bare :: id in b.info
    ensures bare == Bare(b.info) && Loading(env, key, b)
  {
    forall id | id in b.info { EntryFacts(env, key, b, {}, bare, id); }
    hide Inv;
    assert bare == Bare(b.info);
  }

  ghost function NewRead(env: Env, b: Book, r: Record): Book {
    Created(env, b, InfoOf(r))
  }

  ghost function NewsRead(env: Env, b: Book, rs: seq<Record>): Book {
    if rs == [] then b else NewRead(env, NewsRead(env, b, rs[..|rs| - 1]), rs[|rs| - 1])
  }

  /** A tried entry is kept if its address is valid and its slot is free. */
  ghost function TriedRead(env: Env, key: Key, b: Book, r: Record): Book {
    if env.valid(r.addr.host) && TriedSlot(env, key, r.addr) !in b.tried then
      var c := Created(env, b, InfoOf(r));
      EnterTried(env, key, LeaveNew(env, c, Id(b.nextId)), Id(b.nextId))
    else b
  }

  ghost function TriedsRead(env: Env, key: Key, b: Book, rs: seq<Record>): Book {
    if rs == [] then b else TriedRead(env, key, TriedsRead(env, key, b, rs[..|rs| - 1]), rs[|rs| - 1])
  }

  /** One reference from a new bucket: at the same place if the buckets are unchanged and the place is free, and
      else where the entry's own source puts it, if that is free. */
  ghost function Settled(env: Env, key: Key, b: Book, bucket: nat, index: int, restore: bool): Book {
    var id := Id(index);
    if id !in b.info || !env.valid(b.info[id].addr.host) || b.info[id].refCount >= NEW_BUCKETS_PER_ADDRESS then b
    else
      var s, home := NewSlotIn(env, key, b.info[id].addr, bucket), NewSlot(env, key, b.info[id].addr,
        b.info[id].source);
      if restore && s !in b.news then SetRef(b, s, id)
      else if home !in b.news then SetRef(b, home, id)
      else b
  }

  datatype Entry = Entry(bucket: nat, index: int)

  ghost function AllSettled(env: Env, key: Key, b: Book, es: seq<Entry>, restore: bool): Book {
    if es == [] then b
    else Settled(env, key, AllSettled(env, key, b, es[..|es| - 1], restore), es[|es| - 1].bucket, es[|es| - 1].index,
      restore)
  }

  ghost predicate RecordOk(r: Record, tried: bool) {
    r.lastSuccess >= 0 && (tried ==> r.lastSuccess > 0)
  }

  lemma NewReadOk(env: Env, key: Key, b: Book, r: Record)
    requires Loading(env, key, b) && r.addr !in b.addrs && RecordOk(r, false)
    ensures Loading(env, key, NewRead(env, b, r)) && NewRead(env, b, r).addrs == b.addrs[r.addr := Id(b.nextId)]
  {
    hide Inv;
    CreateOk(env, key, b, Bare(b.info), InfoOf(r));
    BareOf(env, key, NewRead(env, b, r), Bare(b.info) + {Id(b.nextId)});
  }

  lemma TriedReadOk(env: Env, key: Key, b: Book, r: Record)
    requires Loading(env, key, b) && r.addr !in b.addrs && RecordOk(r, true)
    ensures Loading(env, key, TriedRead(env, key, b, r))
    ensures forall a | a in TriedRead(env, key, b, r).addrs :: a in b.addrs || a == r.addr
  {
    hide Inv, TriedSlot, CountNew, CountTried;
    if env.valid(r.addr.host) && TriedSlot(env, key, r.addr) !in b.tried {
      var id, bare := Id(b.nextId), Bare(b.info);
      var c := Created(env, b, InfoOf(r));
      CreateOk(env, key, b, bare, InfoOf(r));
      LeaveNewOk(env, key, c, {}, bare + {id}, id);
      assert id !in bare && bare + {id} - {id} == bare && {} + {id} == {id} && {id} - {id} == {};
      EnterTriedOk(env, key, LeaveNew(env, c, id), {id}, bare, id);
      BareOf(env, key, TriedRead(env, key, b, r), bare);
    }
  }

  lemma SetRefBare(env: Env, key: Key, b: Book, s: Slot, id: Id)
    requires Loading(env, key, b) && s !in b.news && id in b.info && !b.info[id].inTried
        && b.info[id].refCount < NEW_BUCKETS_PER_ADDRESS
    requires s.bucket < NEW_BUCKET_COUNT && s == NewSlotIn(env, key, b.info[id].addr, s.bucket)
    ensures Loading(env, key, SetRef(b, s, id))
  {
    hide Inv, NewSlotIn;
    SetRefOk(env, key, b, {}, Bare(b.info), s, id);
    BareOf(env, key, SetRef(b, s, id), Bare(b.info) - {id});
  }

  // ---------------------------------------------------------------- files with any addresses and times

  /** While a file is read: every address leads to one of its entries, but entries may share one. */
  ghost predicate Gathering(env: Env, key: Key, b: Book) {
    TablesOk(env, key, b, {}, Bare(b.info)) && Indexed(b.info, b.addrs)
  }

  ghost predicate Indexed(info: map<Id, Info>, addrs: map<Service, Id>) {
    (forall a | a in addrs :: addrs[a] in info && info[addrs[a]].addr == a)
      && forall id | id in info :: info[id].addr in addrs
  }

  lemma IndexedMore(info: map<Id, Info>, addrs: map<Service, Id>, id: Id, i: Info)
    requires Indexed(info, addrs) && id !in info
    ensures Indexed(info[id := i], addrs[i.addr := id])
  {}

  lemma IndexedSame(info: map<Id, Info>, addrs: map<Service, Id>, id: Id, i: Info)
    requires Indexed(info, addrs) && id in info && info[id].addr == i.addr
    ensures Indexed(info[id := i], addrs)
  {}

  lemma LoadingGathers(env: Env, key: Key, b: Book)
    requires Loading(env, key, b)
    ensures Gathering(env, key, b)
  {
    hide TablesOk, TimesOk;
  }

  lemma BareTables(env: Env, key: Key, b: Book, bare: set<Id>)
    requires TablesOk(env, key, b, {}, bare) && forall id | id in bare :: id in b.info
    ensures bare == Bare(b.info)
  {
    hide RandomOk, NewOk, TriedOk, CountsOk, IdsOk, Refs;
    assert bare == Bare(b.info);
  }

  lemma NewReadGathers(env: Env, key: Key, b: Book, r: Record)
    requires Gathering(env, key, b)
    ensures Gathering(env, key, NewRead(env, b, r))
  {
    hide TablesOk, CountNew, Indexed, Bare;
    CreateTables(env, key, b, Bare(b.info), InfoOf(r));
    IndexedMore(b.info, b.addrs, Id(b.nextId), InfoOf(r).(randomPos := |b.random|));
    BareIn(b.info);
    BareTables(env, key, NewRead(env, b, r), Bare(b.info) + {Id(b.nextId)});
  }

  lemma TriedReadGathers(env: Env, key: Key, b: Book, r: Record)
    requires Gathering(env, key, b)
    ensures Gathering(env, key, TriedRead(env, key, b, r))
  {
    hide TablesOk, TriedSlot, CountNew, CountTried, Indexed, Bare;
    if env.valid(r.addr.host) && TriedSlot(env, key, r.addr) !in b.tried {
      var id, bare := Id(b.nextId), Bare(b.info);
      var c := Created(env, b, InfoOf(r));
      BareIn(b.info);
      CreateTables(env, key, b, bare, InfoOf(r));
      IndexedMore(b.info, b.addrs, id, c.info[id]);
      IndexedSame(c.info, c.addrs, id, c.info[id].(inTried := true));
      LeaveNewTables(env, key, c, {}, bare + {id}, id);
      assert id !in bare && bare + {id} - {id} == bare && {} + {id} == {id} && {id} - {id} == {};
      EnterTriedTables(env, key, LeaveNew(env, c, id), {id}, bare, id);
      BareTables(env, key, TriedRead(env, key, b, r), bare);
    }
  }

  lemma SetRefGathers(env: Env, key: Key, b: Book, s: Slot, id: Id)
    requires Gathering(env, key, b) && s !in b.news && id in b.info && !b.info[id].inTried
    requires b.info[id].refCount < NEW_BUCKETS_PER_ADDRESS
    requires s.bucket < NEW_BUCKET_COUNT && s == NewSlotIn(env, key, b.info[id].addr, s.bucket)
    ensures Gathering(env, key, SetRef(b, s, id))
  {
    hide TablesOk, NewSlotIn, Indexed, Bare;
    BareIn(b.info);
    IndexedSame(b.info, b.addrs, id, b.info[id].(refCount := b.info[id].refCount + 1));
    SetRefTables(env, key, b, {}, Bare(b.info), s, id);
    BareTables(env, key, SetRef(b, s, id), Bare(b.info) - {id});
  }

  lemma SettledGathers(env: Env, key: Key, b: Book, bucket: nat, index: int, restore: bool)
    requires Gathering(env, key, b) && (restore ==> bucket < NEW_BUCKET_COUNT)
        && (Id(index) in b.info ==> !b.info[Id(index)].inTried)
    ensures Gathering(env, key, Settled(env, key, b, bucket, index, restore))
  {
    var id := Id(index);
    hide Gathering, NewSlotIn, NewSlot;
    if id in b.info {
      NewSlotFacts(env, key, b.info[id].addr, b.info[id].source);
      NewSlotRange(env, key, b.info[id].addr, bucket);
      var s, home := NewSlotIn(env, key, b.info[id].addr, bucket), NewSlot(env, key, b.info[id].addr,
        b.info[id].source);
      if b.info[id].refCount < NEW_BUCKETS_PER_ADDRESS {
        if restore && s !in b.news { SetRefGathers(env, key, b, s, id); }
        if home !in b.news { SetRefGathers(env, key, b, home, id); }
      }
    }
  }

  /** No entry that is in a table has an impossible time or shares its address with another entry. */
  ghost predicate Separate(info: map<Id, Info>) {
    forall x | x in info && x !in Bare(info) ::
      TimeOk(info[x]) && forall y | y in info && y != x :: info[y].addr != info[x].addr
  }

  /** The book once some of the entries that are in no table are gone, each with the address it leads to. */
  ghost predicate Pruned(b: Book, c: Book, gone: set<Id>) {
    gone <= Bare(b.info) && c.info.Keys == b.info.Keys - gone && Kept(b.info, c.info, gone)
    && c.news == b.news && c.tried == b.tried && c.nextId == b.nextId
    && (forall a | a in c.addrs :: a in b.addrs && c.addrs[a] == b.addrs[a] && a !in AddrsOf(b.info, gone))
    && (forall a | a in b.addrs && a !in AddrsOf(b.info, gone) :: a in c.addrs)
  }

  ghost function AddrsOf(info: map<Id, Info>, ids: set<Id>): set<Service> {
    set id | id in ids && id in info :: info[id].addr
  }

  lemma NoOwner(info: map<Id, Info>, ids: set<Id>, a: Service)
    ensures (forall id | id in ids && id in info :: info[id].addr != a) ==> a !in AddrsOf(info, ids)
  {}

  lemma PrunedNone(b: Book)
    ensures Pruned(b, b, {})
  {}

  lemma PrunedMore(b: Book, c: Book, d: Book, gone: set<Id>, id: Id)
    requires Pruned(b, c, gone) && id in Bare(b.info) && id in c.info
    requires Kept(c.info, d.info, {id}) && id !in d.info && d.addrs == c.addrs - {c.info[id].addr}
    requires d.news == c.news && d.tried == c.tried && d.nextId == c.nextId
    ensures Pruned(b, d, gone + {id})
  {
    assert AddrsOf(b.info, gone + {id}) == AddrsOf(b.info, gone) + {b.info[id].addr} by {
      hide Kept;
      assert id in b.info;
      forall a ensures a in AddrsOf(b.info, gone + {id}) <==> a in AddrsOf(b.info, gone) + {b.info[id].addr} {}
    }
    hide AddrsOf, Bare;
    assert c.info[id].addr == b.info[id].addr;
    KeptTwice(b.info, c.info, d.info, gone, {id});
    assert d.info.Keys == b.info.Keys - (gone + {id});
  }

  /** Reading accepts a book exactly if its entries in tables are separate. */
  lemma SeparateIs(env: Env, key: Key, b: Book, c: Book)
    requires Gathering(env, key, b) && Pruned(b, c, Bare(b.info))
    ensures NoStale(c)
    ensures AddrOk(c.info, c.addrs) && TimesOk(c.info) <==> Separate(b.info)
  {
    hide TablesOk, Bare;
    assert NoStale(b);
    PrunedStale(b, c);
    if Separate(b.info) { SeparateOk(env, key, b, c); }
    if AddrOk(c.info, c.addrs) && TimesOk(c.info) { SeparateFrom(env, key, b, c); }
  }

  lemma PrunedStale(b: Book, c: Book)
    requires NoStale(b) && Pruned(b, c, Bare(b.info))
    ensures NoStale(c)
  {
    hide Bare;
    forall a | a in c.addrs ensures c.addrs[a] in c.info && c.info[c.addrs[a]].addr == a {
      var id := b.addrs[a];
      assert id in Bare(b.info) ==> a in AddrsOf(b.info, Bare(b.info));
    }
  }

  lemma SeparateOk(env: Env, key: Key, b: Book, c: Book)
    requires Gathering(env, key, b) && Pruned(b, c, Bare(b.info)) && Separate(b.info) && NoStale(c)
    ensures AddrOk(c.info, c.addrs) && TimesOk(c.info)
  {
    hide TablesOk, Bare;
    forall id | id in c.info
      ensures c.info[id].addr in c.addrs && c.addrs[c.info[id].addr] == id && TimeOk(c.info[id])
    {
      var a := b.info[id].addr;
      assert id in b.info && id !in Bare(b.info) && TimeOk(b.info[id]);
      NoOwner(b.info, Bare(b.info), a);
    }
  }

  lemma SeparateFrom(env: Env, key: Key, b: Book, c: Book)
    requires Gathering(env, key, b) && Pruned(b, c, Bare(b.info)) && AddrOk(c.info, c.addrs) && TimesOk(c.info)
    ensures Separate(b.info)
  {
    hide TablesOk, Bare;
    forall x | x in b.info && x !in Bare(b.info)
      ensures TimeOk(b.info[x]) && forall y | y in b.info && y != x :: b.info[y].addr != b.info[x].addr
    {
      assert x in c.info && TimeOk(c.info[x]) && c.info[x].addr == b.info[x].addr;
      forall y | y in b.info && y != x ensures b.info[y].addr != b.info[x].addr {
        if y in Bare(b.info) {
          assert b.info[y].addr in AddrsOf(b.info, Bare(b.info));
        } else {
          assert y in c.info && c.addrs[c.info[y].addr] == y;
        }
      }
    }
  }

  /** Entries in no table are in no slot, so dropping them changes neither table. */
  lemma PrunedViews(env: Env, key: Key, b: Book, c: Book)
    requires Gathering(env, key, b) && Pruned(b, c, Bare(b.info))
    ensures View(c.info, c.news) == View(b.info, b.news) && View(c.info, c.tried) == View(b.info, b.tried)
  {
    forall s | s in b.news ensures b.news[s] in b.info && b.news[s] !in Bare(b.info) {
      hide NewSlotIn, RandomOk, TriedOk, CountsOk, IdsOk;
      assert s in Refs(b.news, b.news[s]);
    }
    forall s | s in b.tried ensures b.tried[s] in b.info && b.tried[s] !in Bare(b.info) {
      hide TriedSlot, RandomOk, NewOk, RefsOk, CountsOk, IdsOk;
    }
    hide TablesOk, Bare;
    ViewSame(b.info, b.news, c.info, c.news);
    ViewSame(b.info, b.tried, c.info, c.tried);
  }

  // ---------------------------------------------------------------- what is written

  /** An order in which all ids are visited, each once. */
  ghost predicate Lists(order: seq<Id>, keys: set<Id>) {
    (forall j, k | 0 <= j < k < |order| :: order[j] != order[k]) && forall id :: id in order <==> id in keys
  }

  function NewOnes(info: map<Id, Info>, order: seq<Id>): (r: seq<Id>)
    ensures |r| <= |order| && forall id | id in r :: id in order && id in info && info[id].refCount != 0
  {
    if order == [] then []
    else
      var front, id := NewOnes(info, order[..|order| - 1]), order[|order| - 1];
      if id in info && info[id].refCount != 0 then front + [id] else front
  }

  function TriedOnes(info: map<Id, Info>, order: seq<Id>): (r: seq<Id>)
    ensures |r| <= |order| && forall id | id in r :: id in order && id in info && info[id].inTried
  {
    if order == [] then []
    else
      var front, id := TriedOnes(info, order[..|order| - 1]), order[|order| - 1];
      if id in info && info[id].inTried then front + [id] else front
  }

  function Records(info: map<Id, Info>, ids: seq<Id>): (r: seq<Record>)
    requires forall id | id in ids :: id in info
    ensures |r| == |ids| && forall k | 0 <= k < |ids| :: r[k] == RecordOf(info[ids[k]])
  {
    seq(|ids|, k requires 0 <= k < |ids| => assert ids[k] in ids; RecordOf(info[ids[k]]))
  }

  /** The number each id is written under: how many new entries come before it. */
  function Numbers(info: map<Id, Info>, order: seq<Id>): map<Id, nat> {
    if order == [] then map[]
    else
      var front := order[..|order| - 1];
      Numbers(info, front)[order[|order| - 1] := |NewOnes(info, front)|]
  }

  /** The numbers of the entries in the first places of a bucket. */
  function Row(news: map<Slot, Id>, numbers: map<Id, nat>, bucket: nat, p: nat): seq<int> {
    if p == 0 then []
    else
      var front, s := Row(news, numbers, bucket, p - 1), Slot(bucket, p - 1);
      if s in news && news[s] in numbers then front + [numbers[news[s]]] else front
  }

  /** The references read from a bucket, without numbers out of range. */
  function RowEntries(bucket: nat, row: seq<int>, nNew: int): seq<Entry> {
    if row == [] then []
    else
      var front, index := RowEntries(bucket, row[..|row| - 1], nNew), row[|row| - 1];
      if 0 <= index < nNew then front + [Entry(bucket, index)] else front
  }

  function Entries(buckets: seq<seq<int>>, n: nat, nNew: int): seq<Entry>
    requires n <= |buckets|
  {
    if n == 0 then [] else Entries(buckets, n - 1, nNew) + RowEntries(n - 1, buckets[n - 1], nNew)
  }

  // ---------------------------------------------------------------- the written order

  lemma {:induction false} OnesDistinct(info: map<Id, Info>, order: seq<Id>)
    requires forall j, k | 0 <= j < k < |order| :: order[j] != order[k]
    ensures forall j, k | 0 <= j < k < |NewOnes(info, order)| :: NewOnes(info, order)[j] != NewOnes(info, order)[k]
    ensures forall j, k | 0 <= j < k < |TriedOnes(info, order)| ::
        TriedOnes(info, order)[j] != TriedOnes(info, order)[k]
    decreases order
  {
    if order != [] {
      var front, last := order[..|order| - 1], order[|order| - 1];
      OnesDistinct(info, front);
      assert last !in front;
      assert last !in NewOnes(info, front) && last !in TriedOnes(info, front);
    }
  }

  lemma {:induction false} OnesAll(info: map<Id, Info>, order: seq<Id>)
    ensures forall id | id in order && id in info && info[id].refCount != 0 :: id in NewOnes(info, order)
    ensures forall id | id in order && id in info && info[id].inTried :: id in TriedOnes(info, order)
    decreases order
  {
    if order != [] {
      var front, last := order[..|order| - 1], order[|order| - 1];
      OnesAll(info, front);
      assert order == front + [last];
    }
  }

  lemma {:induction false} NumbersRight(info: map<Id, Info>, order: seq<Id>)
    requires forall j, k | 0 <= j < k < |order| :: order[j] != order[k]
    ensures forall id | id in Numbers(info, order) :: id in order
    ensures forall k | 0 <= k < |NewOnes(info, order)| ::
              NewOnes(info, order)[k] in Numbers(info, order) && Numbers(info, order)[NewOnes(info, order)[k]] == k
    decreases order
  {
    if order != [] {
      var front, last := order[..|order| - 1], order[|order| - 1];
      NumbersRight(info, front);
      assert last !in front && order == front + [last];
      assert last !in NewOnes(info, front);
    }
  }

  // ---------------------------------------------------------------- reading back what was written

  ghost predicate SameEntry(i: Info, j: Info) {
    RecordOf(i) == RecordOf(j) && i.inTried == j.inTried
  }

  /** Entries of the same address have the same times, services, source and statistics, as far as a file holds them. */
  ghost predicate SameRecords(info: map<Id, Info>, info': map<Id, Info>) {
    forall x, y | x in info && y in info' && info[x].addr == info'[y].addr :: RecordOf(info'[y]) == RecordOf(info[x])
  }

  /** The ids in the order in which they are written: new entries, then tried ones. */
  ghost predicate Whole(b: Book, f: seq<Id>) {
    (forall j, k | 0 <= j < k < |f| :: f[j] != f[k]) && forall id :: id in f <==> id in b.info
  }

  /** The first k written entries have been read, and nothing else. */
  ghost predicate Copies(b: Book, f: seq<Id>, c: Book, k: nat) {
    k <= |f| && c.nextId == k && (forall id | id in c.info :: 0 <= id.n < k)
    && forall j | 0 <= j < k :: Id(j) in c.info && f[j] in b.info && SameEntry(b.info[f[j]], c.info[Id(j)])
  }

  lemma FreshAmong(b: Book, f: seq<Id>, c: Book, k: nat)
    requires Whole(b, f) && Copies(b, f, c, k) && k < |f| && f[k] in b.info
    requires forall x | x in b.info && b.info[x].addr == b.info[f[k]].addr :: x == f[k]
    ensures forall id | id in c.info :: c.info[id].addr != b.info[f[k]].addr
  {
    forall id | id in c.info ensures c.info[id].addr != b.info[f[k]].addr { assert id == Id(id.n) && f[id.n] != f[k]; }
  }

  lemma FreshAddress(env: Env, key: Key, b: Book, f: seq<Id>, c: Book, k: nat)
    requires Inv(env, key, b, {}, {}) && Whole(b, f) && Loading(env, key, c) && Copies(b, f, c, k) && k < |f|
    ensures f[k] in b.info && b.info[f[k]].addr !in c.addrs
  {
    hide Inv, Loading;
    assert f[k] in f;
    SameAddrUnique(env, key, b, f[k]);
    AddrsLead(env, key, c, b.info[f[k]].addr);
    FreshAmong(b, f, c, k);
    hide Whole, Copies;
  }

  lemma AddrsLead(env: Env, key: Key, c: Book, a: Service)
    requires Loading(env, key, c)
    ensures a in c.addrs ==> c.addrs[a] in c.info && c.info[c.addrs[a]].addr == a
  {
    hide RandomOk, NewOk, RefsOk, TriedOk, CountsOk, TimesOk, IdsOk;
  }

  lemma CopiesMore(b: Book, f: seq<Id>, c: Book, k: nat, i: Info, c': Book)
    requires Copies(b, f, c, k) && k < |f| && f[k] in b.info && SameEntry(b.info[f[k]], i)
    requires c'.info == c.info[Id(k) := i] && c'.nextId == k + 1
    ensures Copies(b, f, c', k + 1)
  {}

  lemma EntryKind(env: Env, key: Key, b: Book, id: Id)
    requires Inv(env, key, b, {}, {}) && id in b.info
    ensures b.info[id].inTried <==> b.info[id].refCount == 0
    ensures RecordOk(RecordOf(b.info[id]), b.info[id].inTried)
  {
    EntryFacts(env, key, b, {}, {}, id);
  }

  lemma EmptyLoading(env: Env, key: Key)
    ensures Loading(env, key, EMPTY_BOOK)
  {
    EmptyOk(env, key);
    BareOf(env, key, EMPTY_BOOK, {});
  }

  lemma NewCopied(env: Env, key: Key, b: Book, f: seq<Id>, c: Book, r: Record, k: nat)
    requires Inv(env, key, b, {}, {}) && Whole(b, f) && Loading(env, key, c) && Copies(b, f, c, k) && k < |f|
    requires f[k] in b.info && r == RecordOf(b.info[f[k]]) && !b.info[f[k]].inTried
    ensures var d := NewRead(env, c, r);
      Loading(env, key, d) && Copies(b, f, d, k + 1) && d.news == c.news && d.tried == c.tried
  {
    hide Inv, Loading, CountNew, Whole, RecordOk;
    FreshAddress(env, key, b, f, c, k);
    EntryKind(env, key, b, f[k]);
    NewReadOk(env, key, c, r);
    CopiesMore(b, f, c, k, InfoOf(r).(randomPos := |c.random|), NewRead(env, c, r));
  }

  /** The new entries come back under the numbers they were written under. */
  lemma {:induction false} NewsCopied(env: Env, key: Key, b: Book, f: seq<Id>, rs: seq<Record>, k: nat)
    requires Inv(env, key, b, {}, {}) && Whole(b, f) && k <= |rs| <= |f|
    requires forall j | 0 <= j < |rs| :: f[j] in b.info && rs[j] == RecordOf(b.info[f[j]]) && !b.info[f[j]].inTried
    ensures var c := NewsRead(env, EMPTY_BOOK, rs[..k]);
            Loading(env, key, c) && Copies(b, f, c, k) && c.news == map[] && c.tried == map[]
  {
    hide Inv, Loading, NewRead, RecordOf, Whole;
    if k == 0 {
      EmptyLoading(env, key);
      assert rs[..0] == [];
    } else {
      NewsCopied(env, key, b, f, rs, k - 1);
      assert rs[..k][..k - 1] == rs[..k - 1];
      var c := NewsRead(env, EMPTY_BOOK, rs[..k - 1]);
      hide NewsRead;
      NewCopied(env, key, b, f, c, rs[k - 1], k - 1);
      NewsSnoc(env, rs, k);
    }
  }

  lemma NewsSnoc(env: Env, rs: seq<Record>, k: nat)
    requires 0 < k <= |rs|
    ensures NewsRead(env, EMPTY_BOOK, rs[..k]) == NewRead(env, NewsRead(env, EMPTY_BOOK, rs[..k - 1]), rs[k - 1])
  {
    assert rs[..k][..k - 1] == rs[..k - 1];
    hide Created;
  }

  /** Distinct tried entries have distinct slots. */
  lemma FreshSlot(env: Env, key: Key, b: Book, f: seq<Id>, c: Book, k: nat)
    requires Inv(env, key, b, {}, {}) && Whole(b, f) && Loading(env, key, c) && Copies(b, f, c, k) && k < |f|
    requires f[k] in b.info && b.info[f[k]].inTried
    ensures TriedSlot(env, key, b.info[f[k]].addr) !in c.tried
  {
    hide RandomOk, AddrOk, NewOk, RefsOk, CountsOk, TimesOk, IdsOk, TriedSlot;
    forall s | s in c.tried ensures s != TriedSlot(env, key, b.info[f[k]].addr) {
      var id := c.tried[s];
      assert id == Id(id.n) && f[id.n] != f[k] && f[id.n] in b.info;
    }
  }

  lemma TriedsSnoc(env: Env, key: Key, b: Book, rs: seq<Record>, k: nat)
    requires 0 < k <= |rs|
    ensures TriedsRead(env, key, b, rs[..k]) == TriedRead(env, key, TriedsRead(env, key, b, rs[..k - 1]), rs[k - 1])
  {
    assert rs[..k][..k - 1] == rs[..k - 1];
    hide TriedRead;
  }

  lemma TriedCopied(env: Env, key: Key, b: Book, f: seq<Id>, c: Book, k: nat)
    requires Inv(env, key, b, {}, {}) && Whole(b, f) && Loading(env, key, c) && Copies(b, f, c, k) && k < |f|
    requires f[k] in b.info && b.info[f[k]].inTried && env.valid(b.info[f[k]].addr.host)
    ensures var d := TriedRead(env, key, c, RecordOf(b.info[f[k]]));
            Loading(env, key, d) && Copies(b, f, d, k + 1) && d.news == c.news
  {
    hide Inv, Loading, CountNew, CountTried, TriedSlot;
    var r := RecordOf(b.info[f[k]]);
    FreshAddress(env, key, b, f, c, k);
    FreshSlot(env, key, b, f, c, k);
    EntryKind(env, key, b, f[k]);
    TriedReadOk(env, key, c, r);
    hide Whole;
    CopiesMore(b, f, c, k, InfoOf(r).(randomPos := |c.random|, inTried := true), TriedRead(env, key, c, r));
  }

  /** Records of consecutive written entries, all of them tried. */
  ghost predicate TriedList(env: Env, b: Book, f: seq<Id>, n: nat, rs: seq<Record>) {
    n + |rs| <= |f| && forall j | 0 <= j < |rs| :: WrittenAs(env, b, f[n + j], rs[j])
  }

  ghost predicate WrittenAs(env: Env, b: Book, id: Id, r: Record) {
    id in b.info && r == RecordOf(b.info[id]) && b.info[id].inTried && env.valid(b.info[id].addr.host)
  }

  lemma TriedsNone(env: Env, key: Key, b: Book, rs: seq<Record>)
    ensures TriedsRead(env, key, b, rs[..0]) == b
  {}

  /** No tried entry is lost. */
  lemma {:induction false} TriedsCopied(env: Env, key: Key, b: Book, f: seq<Id>, c: Book, n: nat, rs: seq<Record>,
                                        k: nat)
    requires Inv(env, key, b, {}, {}) && Whole(b, f) && Loading(env, key, c) && Copies(b, f, c, n)
    requires k <= |rs| && TriedList(env, b, f, n, rs)
    ensures var d := TriedsRead(env, key, c, rs[..k]);
            Loading(env, key, d) && Copies(b, f, d, n + k) && d.news == c.news
    decreases k
  {
    hide Inv, Loading, TriedRead, RecordOf, Whole, Copies, TriedsRead;
    if k == 0 {
      TriedsNone(env, key, c, rs);
    } else {
      TriedsCopied(env, key, b, f, c, n, rs, k - 1);
      assert WrittenAs(env, b, f[n + (k - 1)], rs[k - 1]);
      TriedCopied(env, key, b, f, TriedsRead(env, key, c, rs[..k - 1]), n + k - 1);
      TriedsSnoc(env, key, c, rs, k);
    }
  }

  /** What is known of a written book: the order and numbers it was written with. */
  ghost predicate Setup(env: Env, key: Key, b: Book, f: seq<Id>, numbers: map<Id, nat>, nNew: int) {
    Inv(env, key, b, {}, {}) && Whole(b, f) && nNew <= |f|
      && (forall id | id in b.info :: env.valid(b.info[id].addr.host))
    && forall s | s in b.news :: b.news[s] in numbers && numbers[b.news[s]] < nNew && f[numbers[b.news[s]]] == b.news[s]
  }

  /** The new slots before a place are back, each with its entry, and no others are taken. */
  ghost predicate NewsBack(b: Book, f: seq<Id>, c: Book, n: nat, p: nat) {
    (forall s | s in c.news :: s in b.news && Before(s, n, p) && 0 <= c.news[s].n < |f| && f[c.news[s].n] == b.news[s])
    && forall s | s in b.news && Before(s, n, p) :: s in c.news
  }

  /** Being read back, with every new slot before a place in use again. */
  ghost predicate Back(env: Env, key: Key, b: Book, f: seq<Id>, c: Book, n: nat, p: nat) {
    Loading(env, key, c) && Copies(b, f, c, |f|) && NewsBack(b, f, c, n, p)
  }

  /** An entry has fewer slots back than it had. */
  lemma FewerRefs(b: Book, f: seq<Id>, c: Book, n: nat, p: nat, index: nat)
    requires NewsBack(b, f, c, n, p) && index < |f| && Slot(n, p) in b.news && b.news[Slot(n, p)] == f[index]
    ensures |Refs(c.news, Id(index))| < |Refs(b.news, f[index])|
  {
    var s, mine, all := Slot(n, p), Refs(c.news, Id(index)), Refs(b.news, f[index]);
    assert s in all;
    forall t | t in mine ensures t in all - {s} {}
    Fewer(mine, all - {s});
    DropOne(all, s);
  }

  lemma NewsBackMore(b: Book, f: seq<Id>, c: Book, n: nat, p: nat, index: nat)
    requires NewsBack(b, f, c, n, p) && index < |f| && Slot(n, p) in b.news && b.news[Slot(n, p)] == f[index]
        && Id(index) in c.info
    ensures NewsBack(b, f, SetRef(c, Slot(n, p), Id(index)), n, p + 1)
  {
    forall s ensures Before(s, n, p + 1) <==> Before(s, n, p) || s == Slot(n, p) { BeforeNext(s, n, p); }
    hide Before, WithRefs;
  }

  lemma NewsBackSame(b: Book, f: seq<Id>, c: Book, n: nat, p: nat)
    requires NewsBack(b, f, c, n, p) && Slot(n, p) !in b.news
    ensures NewsBack(b, f, c, n, p + 1)
  {
    forall s ensures Before(s, n, p + 1) <==> Before(s, n, p) || s == Slot(n, p) { BeforeNext(s, n, p); }
    hide Before;
  }

  lemma CopiesRef(b: Book, f: seq<Id>, c: Book, k: nat, s: Slot, id: Id)
    requires Copies(b, f, c, k) && id in c.info
    ensures Copies(b, f, SetRef(c, s, id), k)
  {}

  /** What a written new slot says of its entry. */
  lemma SlotFacts(env: Env, key: Key, b: Book, s: Slot)
    requires Inv(env, key, b, {}, {}) && s in b.news
    ensures b.news[s] in b.info && !b.info[b.news[s]].inTried
        && s == NewSlotIn(env, key, b.info[b.news[s]].addr, s.bucket)
    ensures s.bucket < NEW_BUCKET_COUNT && |Refs(b.news, b.news[s])| <= NEW_BUCKETS_PER_ADDRESS
  {
    hide RandomOk, AddrOk, TriedOk, CountsOk, TimesOk, IdsOk, NewSlotIn, Refs;
  }

  lemma RefCountIs(env: Env, key: Key, c: Book, id: Id)
    requires Loading(env, key, c) && id in c.info
    ensures c.info[id].refCount == |Refs(c.news, id)|
  {
    hide RandomOk, AddrOk, NewOk, TriedOk, CountsOk, TimesOk, IdsOk, Refs;
  }

  /** A written reference is put back where it was. */
  lemma ReferenceBack(env: Env, key: Key, b: Book, f: seq<Id>, numbers: map<Id, nat>, nNew: int, c: Book, n: nat,
                      p: nat)
    requires Setup(env, key, b, f, numbers, nNew) && Back(env, key, b, f, c, n, p) && Slot(n, p) in b.news
    ensures b.news[Slot(n, p)] in numbers
    ensures Back(env, key, b, f, Settled(env, key, c, n, numbers[b.news[Slot(n, p)]], true), n, p + 1)
  {
    hide Inv, Loading, NewSlotIn, NewSlot, Refs;
    var s := Slot(n, p);
    SlotFacts(env, key, b, s);
    var index := numbers[b.news[s]];
    var id := Id(index);
    assert id in c.info && SameEntry(b.info[f[index]], c.info[id]);
    assert s !in c.news by { assert !Before(s, n, p); }
    FewerRefs(b, f, c, n, p, index);
    RefCountIs(env, key, c, id);
    hide Copies, NewsBack, Setup, Whole;
    SetRefBare(env, key, c, s, id);
    NewsBackMore(b, f, c, n, p, index);
    CopiesRef(b, f, c, |f|, s, id);
    assert Settled(env, key, c, n, index, true) == SetRef(c, s, id);
  }

  lemma {:induction false} SettledConcat(env: Env, key: Key, b: Book, xs: seq<Entry>, ys: seq<Entry>, restore: bool)
    ensures AllSettled(env, key, b, xs + ys, restore)
        == AllSettled(env, key, AllSettled(env, key, b, xs, restore), ys, restore)
    decreases ys
  {
    hide Settled;
    if ys == [] {
      assert xs + ys == xs;
    } else {
      var front := ys[..|ys| - 1];
      SettledConcat(env, key, b, xs, front, restore);
      assert (xs + ys)[..|xs + ys| - 1] == xs + front;
    }
  }

  lemma RowSnoc(env: Env, key: Key, b: Book, bucket: nat, row: seq<int>, index: int, nNew: int)
    requires 0 <= index < nNew
    ensures RowEntries(bucket, row + [index], nNew) == RowEntries(bucket, row, nNew) + [Entry(bucket, index)]
    ensures AllSettled(env, key, b, RowEntries(bucket, row + [index], nNew), true)
            == Settled(env, key, AllSettled(env, key, b, RowEntries(bucket, row, nNew), true), bucket, index, true)
  {
    hide Settled;
    assert (row + [index])[..|row|] == row;
    var es := RowEntries(bucket, row, nNew);
    assert (es + [Entry(bucket, index)])[..|es|] == es;
  }

  lemma NumberFact(env: Env, key: Key, b: Book, f: seq<Id>, numbers: map<Id, nat>, nNew: int, s: Slot)
    requires Setup(env, key, b, f, numbers, nNew) && s in b.news
    ensures b.news[s] in numbers && 0 <= numbers[b.news[s]] < nNew
  {
    hide Inv, Whole;
  }

  lemma RowStart(env: Env, key: Key, c: Book, news: map<Slot, Id>, numbers: map<Id, nat>, n: nat, nNew: int)
    ensures AllSettled(env, key, c, RowEntries(n, Row(news, numbers, n, 0), nNew), true) == c
  {}

  lemma RowNext(news: map<Slot, Id>, numbers: map<Id, nat>, n: nat, p: nat)
    requires p > 0 && (Slot(n, p - 1) in news ==> news[Slot(n, p - 1)] in numbers)
    ensures Row(news, numbers, n, p)
            == Row(news, numbers, n, p - 1) + if Slot(n, p - 1) in news then [numbers[news[Slot(n, p - 1)]]] else []
  {}

  /** One bucket is put back, place by place. */
  lemma {:induction false} RowBack(env: Env, key: Key, b: Book, f: seq<Id>, numbers: map<Id, nat>, nNew: int, c: Book,
                                   n: nat, p: nat)
    requires Setup(env, key, b, f, numbers, nNew) && Back(env, key, b, f, c, n, 0)
    ensures Back(env, key, b, f, AllSettled(env, key, c, RowEntries(n, Row(b.news, numbers, n, p), nNew), true), n, p)
    decreases p
  {
    hide Back, Settled, Setup, AllSettled, RowEntries, Row;
    if p == 0 {
      RowStart(env, key, c, b.news, numbers, n, nNew);
    } else {
      RowBack(env, key, b, f, numbers, nNew, c, n, p - 1);
      var row := Row(b.news, numbers, n, p - 1);
      var d := AllSettled(env, key, c, RowEntries(n, row, nNew), true);
      if Slot(n, p - 1) in b.news {
        NumberFact(env, key, b, f, numbers, nNew, Slot(n, p - 1));
        RowNext(b.news, numbers, n, p);
        ReferenceBack(env, key, b, f, numbers, nNew, d, n, p - 1);
        RowSnoc(env, key, c, n, row, numbers[b.news[Slot(n, p - 1)]], nNew);
      } else {
        RowNext(b.news, numbers, n, p);
        assert row + [] == row;
        BackSame(env, key, b, f, d, n, p - 1);
      }
    }
  }

  lemma BackSame(env: Env, key: Key, b: Book, f: seq<Id>, c: Book, n: nat, p: nat)
    requires Back(env, key, b, f, c, n, p) && Slot(n, p) !in b.news
    ensures Back(env, key, b, f, c, n, p + 1)
  {
    hide Loading, Copies;
    NewsBackSame(b, f, c, n, p);
  }

  lemma BackNext(env: Env, key: Key, b: Book, f: seq<Id>, numbers: map<Id, nat>, nNew: int, c: Book, n: nat)
    requires Setup(env, key, b, f, numbers, nNew) && Back(env, key, b, f, c, n, BUCKET_SIZE)
    ensures Back(env, key, b, f, c, n + 1, 0)
  {
    hide Loading, Copies, Inv, Whole;
    forall s | s in b.news ensures Before(s, n, BUCKET_SIZE) <==> Before(s, n + 1, 0) {
      SlotFacts(env, key, b, s);
      NewSlotRange(env, key, b.info[b.news[s]].addr, s.bucket);
    }
    hide Before;
  }

  ghost predicate WrittenBuckets(b: Book, numbers: map<Id, nat>, buckets: seq<seq<int>>) {
    |buckets| == NEW_BUCKET_COUNT && forall n | 0 <= n < |buckets| :: buckets[n] == Row(b.news, numbers, n, BUCKET_SIZE)
  }

  lemma {:induction false} BucketsBack(env: Env, key: Key, b: Book, f: seq<Id>, numbers: map<Id, nat>, nNew: int,
                                       c: Book,
                                       buckets: seq<seq<int>>, n: nat)
    requires Setup(env, key, b, f, numbers, nNew) && Back(env, key, b, f, c, 0, 0)
        && WrittenBuckets(b, numbers, buckets) && n <= |buckets|
    ensures Back(env, key, b, f, AllSettled(env, key, c, Entries(buckets, n, nNew), true), n, 0)
    decreases n
  {
    hide Back, Setup, Row, RowEntries;
    if n > 0 {
      BucketsBack(env, key, b, f, numbers, nNew, c, buckets, n - 1);
      var d := AllSettled(env, key, c, Entries(buckets, n - 1, nNew), true);
      RowBack(env, key, b, f, numbers, nNew, d, n - 1, BUCKET_SIZE);
      var row := RowEntries(n - 1, buckets[n - 1], nNew);
      BackNext(env, key, b, f, numbers, nNew, AllSettled(env, key, d, row, true), n - 1);
      SettledConcat(env, key, c, Entries(buckets, n - 1, nNew), row, true);
    }
  }

  /** With all slots back, no entry is bare. */
  lemma NoneBare(env: Env, key: Key, b: Book, f: seq<Id>, c: Book)
    requires Inv(env, key, b, {}, {}) && Whole(b, f) && Back(env, key, b, f, c, NEW_BUCKET_COUNT, 0)
    ensures Inv(env, key, c, {}, {})
  {
    hide RandomOk, AddrOk, NewOk, TriedOk, CountsOk, TimesOk, IdsOk, RefsOk;
    forall id | id in c.info && !c.info[id].inTried
      ensures c.info[id].refCount != 0
    {
      EntryUsed(env, key, b, f, c, id);
    }
    assert Bare(c.info) == {};
  }

  lemma EntryUsed(env: Env, key: Key, b: Book, f: seq<Id>, c: Book, id: Id)
    requires Inv(env, key, b, {}, {}) && Whole(b, f) && Back(env, key, b, f, c, NEW_BUCKET_COUNT, 0)
    requires id in c.info && !c.info[id].inTried
    ensures c.info[id].refCount != 0
  {
    hide Inv, Loading;
    var was := f[id.n];
    assert id == Id(id.n) && was in b.info && !b.info[was].inTried;
    EntryKind(env, key, b, was);
    BareOf(env, key, b, {});
    RefCountIs(env, key, b, was);
    RefCountIs(env, key, c, id);
    assert Refs(b.news, was) != {};
    var s :| s in Refs(b.news, was);
    SlotFacts(env, key, b, s);
    assert Before(s, NEW_BUCKET_COUNT, 0) && s in c.news && f[c.news[s].n] == was;
    assert c.news[s] == Id(c.news[s].n);
    assert s in Refs(c.news, id);
  }

  // ---------------------------------------------------------------- the round trip

  const FILE_FORMAT: nat := 4
  const INCOMPATIBILITY_BASE: nat := 32

  /** The file for a book, with the entries visited in a given order. */
  ghost function Written(key: Key, b: Book, order: seq<Id>, asmapVersion: nat): File {
    var numbers := Numbers(b.info, order);
    File(FILE_FORMAT, INCOMPATIBILITY_BASE + FILE_FORMAT, key, b.nNew, b.nTried,
         Records(b.info, NewOnes(b.info, order)), Records(b.info, TriedOnes(b.info, order)),
         seq(NEW_BUCKET_COUNT,
           n requires 0 <= n < NEW_BUCKET_COUNT => Row(b.news, numbers, n, BUCKET_SIZE)), asmapVersion)
  }

  /** What reading a file gives before entries in no table are dropped. */
  ghost function Reread(env: Env, file: File, restore: bool): Book {
    var c := TriedsRead(env, file.key, NewsRead(env, EMPTY_BOOK, file.newRecords), file.triedRecords);
    AllSettled(env, file.key, c, Entries(file.buckets, |file.buckets|, file.nNew), restore)
  }

  lemma WholeOrder(env: Env, key: Key, b: Book, order: seq<Id>)
    requires Inv(env, key, b, {}, {}) && Lists(order, b.info.Keys)
    ensures Whole(b, NewOnes(b.info, order) + TriedOnes(b.info, order))
  {
    hide Inv, NewOnes, TriedOnes;
    var a, t := NewOnes(b.info, order), TriedOnes(b.info, order);
    OnesDistinct(b.info, order);
    OnesAll(b.info, order);
    forall id | id in b.info ensures id in a || id in t {
      EntryKind(env, key, b, id);
      assert id in b.info.Keys;
    }
    forall j, k | 0 <= j < |a| && 0 <= k < |t| ensures a[j] != t[k] {
      assert a[j] in a && t[k] in t;
      EntryKind(env, key, b, a[j]);
    }
  }

  lemma CountOnes(env: Env, key: Key, b: Book, order: seq<Id>)
    requires Inv(env, key, b, {}, {}) && Lists(order, b.info.Keys)
    ensures |NewOnes(b.info, order)| == b.nNew && |TriedOnes(b.info, order)| == b.nTried
  {
    OnesDistinct(b.info, order);
    OnesAll(b.info, order);
    forall id | id in b.info { EntryKind(env, key, b, id); }
    CheckCountsOf(env, key, b);
    hide Inv, NewOnes, TriedOnes;
    forall id
      ensures id in NewIds(b.info, {}) <==> id in NewOnes(b.info, order)
    {
      assert id in b.info <==> id in b.info.Keys;
    }
    forall id
      ensures id in TriedIds(b.info) <==> id in TriedOnes(b.info, order)
    {
      assert id in b.info <==> id in b.info.Keys;
    }
    Listing(NewOnes(b.info, order), NewIds(b.info, {}));
    Listing(TriedOnes(b.info, order), TriedIds(b.info));
  }

  lemma CheckCountsOf(env: Env, key: Key, b: Book)
    requires Inv(env, key, b, {}, {})
    ensures b.nNew == |NewIds(b.info, {})| && b.nTried == |TriedIds(b.info)|
  {
    hide RandomOk, AddrOk, NewOk, RefsOk, TriedOk, TimesOk, IdsOk, Within;
  }

  lemma SetupOrder(env: Env, key: Key, b: Book, order: seq<Id>)
    requires Inv(env, key, b, {}, {}) && Lists(order, b.info.Keys)
        && forall id | id in b.info :: env.valid(b.info[id].addr.host)
    ensures Setup(env, key, b, NewOnes(b.info, order) + TriedOnes(b.info, order), Numbers(b.info, order), b.nNew)
  {
    hide Inv, NewOnes, TriedOnes, Numbers;
    WholeOrder(env, key, b, order);
    CountOnes(env, key, b, order);
    NumbersRight(b.info, order);
    OnesAll(b.info, order);
    var a, f := NewOnes(b.info, order), NewOnes(b.info, order) + TriedOnes(b.info, order);
    forall s | s in b.news
      ensures b.news[s] in Numbers(b.info, order) && Numbers(b.info, order)[b.news[s]] < b.nNew
          && f[Numbers(b.info, order)[b.news[s]]] == b.news[s]
    {
      SlotFacts(env, key, b, s);
      EntryKind(env, key, b, b.news[s]);
      assert b.news[s] in b.info.Keys && b.news[s] in a;
      var k :| 0 <= k < |a| && a[k] == b.news[s];
    }
  }

  /** Both tables hold the same addresses again. */
  lemma ViewsBack(env: Env, key: Key, b: Book, f: seq<Id>, c: Book)
    requires Inv(env, key, b, {}, {}) && Inv(env, key, c, {}, {}) && Whole(b, f) && Copies(b, f, c, |f|)
    requires NewsBack(b, f, c, NEW_BUCKET_COUNT, 0)
    ensures View(c.info, c.news) == View(b.info, b.news) && View(c.info, c.tried) == View(b.info, b.tried)
  {
    NewViewBack(env, key, b, f, c);
    TriedViewBack(env, key, b, f, c);
  }

  lemma ViewSame(info: map<Id, Info>, t: map<Slot, Id>, info': map<Id, Info>, t': map<Slot, Id>)
    requires forall s | s in t' :: s in t
    requires forall s | s in t :: s in t' && t[s] in info && t'[s] in info' && info'[t'[s]].addr == info[t[s]].addr
    ensures View(info', t') == View(info, t)
  {}

  lemma NewSlotBack(env: Env, key: Key, b: Book, f: seq<Id>, c: Book, s: Slot)
    requires Inv(env, key, b, {}, {}) && Inv(env, key, c, {}, {}) && Whole(b, f) && Copies(b, f, c, |f|)
    requires NewsBack(b, f, c, NEW_BUCKET_COUNT, 0) && s in b.news
    ensures s in c.news && b.news[s] in b.info && c.news[s] in c.info
        && c.info[c.news[s]].addr == b.info[b.news[s]].addr
  {
    hide Inv;
    SlotFacts(env, key, b, s);
    assert Before(s, NEW_BUCKET_COUNT, 0);
    SlotFacts(env, key, c, s);
    assert c.news[s] == Id(c.news[s].n);
  }

  lemma NewViewBack(env: Env, key: Key, b: Book, f: seq<Id>, c: Book)
    requires Inv(env, key, b, {}, {}) && Inv(env, key, c, {}, {}) && Whole(b, f) && Copies(b, f, c, |f|)
    requires NewsBack(b, f, c, NEW_BUCKET_COUNT, 0)
    ensures View(c.info, c.news) == View(b.info, b.news)
  {
    assert forall s | s in c.news :: s in b.news;
    hide Inv, Whole, Copies, NewsBack, View;
    forall s | s in b.news
      ensures s in c.news && b.news[s] in b.info && c.news[s] in c.info
          && c.info[c.news[s]].addr == b.info[b.news[s]].addr
    {
      NewSlotBack(env, key, b, f, c, s);
    }
    ViewSame(b.info, b.news, c.info, c.news);
  }

  lemma TriedSlotBack(env: Env, key: Key, b: Book, f: seq<Id>, c: Book, s: Slot)
    requires TriedOk(env, key, b.info, b.tried) && TriedOk(env, key, c.info, c.tried) && Whole(b, f)
        && Copies(b, f, c, |f|)
    requires s in b.tried
    ensures s in c.tried && b.tried[s] in b.info && c.tried[s] in c.info
        && c.info[c.tried[s]].addr == b.info[b.tried[s]].addr
  {
    hide TriedSlot;
    assert b.tried[s] in f;
    var j :| 0 <= j < |f| && f[j] == b.tried[s];
    assert Id(j) in c.info && SameEntry(b.info[f[j]], c.info[Id(j)]);
  }

  lemma TriedSlotWas(env: Env, key: Key, b: Book, f: seq<Id>, c: Book, s: Slot)
    requires TriedOk(env, key, b.info, b.tried) && TriedOk(env, key, c.info, c.tried) && Copies(b, f, c, |f|)
        && s in c.tried
    ensures s in b.tried
  {
    hide TriedSlot;
    var id := c.tried[s];
    assert id == Id(id.n) && f[id.n] in b.info && SameEntry(b.info[f[id.n]], c.info[id]);
  }

  lemma TriedViewBack(env: Env, key: Key, b: Book, f: seq<Id>, c: Book)
    requires Inv(env, key, b, {}, {}) && Inv(env, key, c, {}, {}) && Whole(b, f) && Copies(b, f, c, |f|)
    ensures View(c.info, c.tried) == View(b.info, b.tried)
  {
    hide Inv, Whole, Copies, TriedOk, View;
    InvTriedOk(env, key, b);
    InvTriedOk(env, key, c);
    forall s | s in b.tried
      ensures s in c.tried && b.tried[s] in b.info && c.tried[s] in c.info
          && c.info[c.tried[s]].addr == b.info[b.tried[s]].addr
    {
      TriedSlotBack(env, key, b, f, c, s);
    }
    forall s | s in c.tried ensures s in b.tried { TriedSlotWas(env, key, b, f, c, s); }
    ViewSame(b.info, b.tried, c.info, c.tried);
  }

  lemma InvTriedOk(env: Env, key: Key, b: Book)
    requires Inv(env, key, b, {}, {})
    ensures TriedOk(env, key, b.info, b.tried)
  {}

  lemma EntriesLoaded(env: Env, key: Key, b: Book, order: seq<Id>, news: seq<Record>, tried: seq<Record>)
    requires Inv(env, key, b, {}, {}) && Lists(order, b.info.Keys)
        && forall id | id in b.info :: env.valid(b.info[id].addr.host)
    requires news == Records(b.info, NewOnes(b.info, order)) && tried == Records(b.info, TriedOnes(b.info, order))
    ensures Back(env, key, b, NewOnes(b.info, order) + TriedOnes(b.info, order),
                 TriedsRead(env, key, NewsRead(env, EMPTY_BOOK, news), tried), 0, 0)
  {
    hide Inv, NewOnes, TriedOnes, NewsRead, TriedsRead, RecordOf, Loading, Copies, TriedList, Back, Whole, Lists;
    var a, t := NewOnes(b.info, order), TriedOnes(b.info, order);
    var f := a + t;
    WholeOrder(env, key, b, order);
    forall id | id in a ensures !b.info[id].inTried { EntryKind(env, key, b, id); }
    assert news[..|a|] == news && tried[..|t|] == tried;
    FirstPart(b, a, t, news);
    NewsCopied(env, key, b, f, news, |a|);
    var c := NewsRead(env, EMPTY_BOOK, news);
    SecondPart(env, b, a, t, tried);
    TriedsCopied(env, key, b, f, c, |a|, tried, |t|);
    BackStart(env, key, b, f, TriedsRead(env, key, c, tried));
  }

  /** Reading a file that was written for a consistent book of valid addresses, with the same key and buckets,
      gives a consistent book with the same addresses in the same slots of both tables. */
  lemma RoundTrip(env: Env, key: Key, b: Book, order: seq<Id>, asmapVersion: nat)
    requires Inv(env, key, b, {}, {}) && Lists(order, b.info.Keys)
        && forall id | id in b.info :: env.valid(b.info[id].addr.host)
    ensures var c := Reread(env, Written(key, b, order, asmapVersion), true);
            Inv(env, key, c, {}, {}) && View(c.info, c.news) == View(b.info, b.news)
              && View(c.info, c.tried) == View(b.info, b.tried)
            && SameRecords(b.info, c.info)
  {
    hide Inv, NewOnes, TriedOnes, Numbers, Row, NewsRead, TriedsRead, AllSettled, Entries, View, Records, Setup, Whole,
         Lists, Back, SameRecords;
    var file := Written(key, b, order, asmapVersion);
    var f := NewOnes(b.info, order) + TriedOnes(b.info, order);
    SetupOrder(env, key, b, order);
    WholeOrder(env, key, b, order);
    EntriesLoaded(env, key, b, order, file.newRecords, file.triedRecords);
    var d := TriedsRead(env, key, NewsRead(env, EMPTY_BOOK, file.newRecords), file.triedRecords);
    BucketsBack(env, key, b, f, Numbers(b.info, order), b.nNew, d, file.buckets, NEW_BUCKET_COUNT);
    BackDone(env, key, b, f, Reread(env, file, true));
  }

  lemma FirstPart(b: Book, a: seq<Id>, t: seq<Id>, rs: seq<Record>)
    requires |rs| == |a| && forall k | 0 <= k < |a| :: a[k] in b.info && rs[k] == RecordOf(b.info[a[k]])
    requires forall id | id in a :: id in b.info && !b.info[id].inTried
    ensures forall j | 0 <= j < |rs| ::
        (a + t)[j] in b.info && rs[j] == RecordOf(b.info[(a + t)[j]]) && !b.info[(a + t)[j]].inTried
  {
    hide RecordOf;
    forall j | 0 <= j < |rs| ensures (a + t)[j] == a[j] && a[j] in a {}
  }

  lemma SecondPart(env: Env, b: Book, a: seq<Id>, t: seq<Id>, rs: seq<Record>)
    requires |rs| == |t| && forall k | 0 <= k < |t| :: t[k] in b.info && rs[k] == RecordOf(b.info[t[k]])
    requires forall id | id in t :: id in b.info && b.info[id].inTried
    requires forall id | id in b.info :: env.valid(b.info[id].addr.host)
    ensures TriedList(env, b, a + t, |a|, rs)
  {
    hide RecordOf;
    forall j | 0 <= j < |rs| ensures WrittenAs(env, b, (a + t)[|a| + j], rs[j]) {
      assert (a + t)[|a| + j] == t[j] && t[j] in t;
    }
  }

  lemma BackStart(env: Env, key: Key, b: Book, f: seq<Id>, c: Book)
    requires Loading(env, key, c) && Copies(b, f, c, |f|) && c.news == map[]
    ensures Back(env, key, b, f, c, 0, 0)
  {
    hide Loading, Copies;
  }

  lemma RecordsBack(env: Env, key: Key, b: Book, f: seq<Id>, c: Book)
    requires Inv(env, key, b, {}, {}) && Whole(b, f) && Copies(b, f, c, |f|)
    ensures SameRecords(b.info, c.info)
  {
    hide Inv, RecordOf;
    forall x, y | x in b.info && y in c.info && b.info[x].addr == c.info[y].addr
      ensures RecordOf(c.info[y]) == RecordOf(b.info[x])
    {
      assert y == Id(y.n) && SameEntry(b.info[f[y.n]], c.info[y]);
      RecordAddr(b.info[f[y.n]], c.info[y]);
      SameAddrUnique(env, key, b, x);
    }
  }

  lemma RecordAddr(i: Info, j: Info)
    requires RecordOf(i) == RecordOf(j)
    ensures i.addr == j.addr
  {}

  lemma BackDone(env: Env, key: Key, b: Book, f: seq<Id>, c: Book)
    requires Inv(env, key, b, {}, {}) && Whole(b, f) && Back(env, key, b, f, c, NEW_BUCKET_COUNT, 0)
    ensures Inv(env, key, c, {}, {}) && View(c.info, c.news) == View(b.info, b.news)
        && View(c.info, c.tried) == View(b.info, b.tried)
    ensures SameRecords(b.info, c.info)
  {
    hide Inv, Whole, View, Loading, Copies, NewsBack, SameRecords;
    RecordsBack(env, key, b, f, c);
    NoneBare(env, key, b, f, c);
    ViewsBack(env, key, b, f, c);
  }
}
