/** Writing the address manager to a file and reading it back, step by step. */
module AddrSerialize {
  import opened Options
  import opened AddrBook
  import opened AddrSteps
  import opened AddrMan
  import opened AddrCheck
  import opened AddrStore
  import opened AddrRead

  // ---------------------------------------------------------------- writing

  lemma {:induction false} OnesPrefix(info: map<Id, Info>, order: seq<Id>, k: nat)
    requires k <= |order|
    ensures |NewOnes(info, order[..k])| <= |NewOnes(info, order)|
        && |TriedOnes(info, order[..k])| <= |TriedOnes(info, order)|
    decreases |order|
  {
    if k < |order| {
      OnesPrefix(info, order[..|order| - 1], k);
      assert order[..|order| - 1][..k] == order[..k];
    } else {
      assert order[..k] == order;
    }
  }

  lemma OnesNext(info: map<Id, Info>, order: seq<Id>, k: nat)
    requires k < |order| && order[k] in info
    ensures NewOnes(info, order[..k + 1]) == NewOnes(info, order[..k]) +
        if info[order[k]].refCount != 0 then [order[k]] else []
    ensures TriedOnes(info, order[..k + 1]) == TriedOnes(info, order[..k]) +
        if info[order[k]].inTried then [order[k]] else []
    ensures Numbers(info, order[..k + 1]) == Numbers(info, order[..k])[order[k] := |NewOnes(info, order[..k])|]
  {
    assert order[..k + 1][..k] == order[..k];
  }

  ghost function NewRecords(info: map<Id, Info>, order: seq<Id>): seq<Record> {
    Records(info, NewOnes(info, order))
  }

  ghost function TriedRecords(info: map<Id, Info>, order: seq<Id>): seq<Record> {
    Records(info, TriedOnes(info, order))
  }

  lemma RecordsNone(info: map<Id, Info>, order: seq<Id>)
    ensures NewRecords(info, order[..0]) == [] && TriedRecords(info, order[..0]) == []
        && Numbers(info, order[..0]) == map[]
  {}

  /** One more entry, and that the counts have room for it. */
  lemma RecordsNext(env: Env, key: Key, b: Book, order: seq<Id>, k: nat)
    requires Inv(env, key, b, {}, {}) && Lists(order, b.info.Keys) && k < |order|
    ensures order[k] in b.info
    ensures NewRecords(b.info, order[..k + 1])
            == NewRecords(b.info, order[..k]) +
              if b.info[order[k]].refCount != 0 then [RecordOf(b.info[order[k]])] else []
    ensures TriedRecords(b.info, order[..k + 1])
            == TriedRecords(b.info, order[..k]) + if b.info[order[k]].inTried then [RecordOf(b.info[order[k]])] else []
    ensures Numbers(b.info, order[..k + 1]) == Numbers(b.info, order[..k])[order[k] := |NewRecords(b.info, order[..k])|]
    ensures b.info[order[k]].refCount != 0 ==> |NewRecords(b.info, order[..k])| < b.nNew
    ensures b.info[order[k]].inTried ==> |TriedRecords(b.info, order[..k])| < b.nTried
  {
    hide Inv, NewOnes, TriedOnes, Numbers, RecordOf;
    assert order[k] in order && order[k] in b.info.Keys;
    CountOnes(env, key, b, order);
    OnesNext(b.info, order, k);
    OnesPrefix(b.info, order, k + 1);
    hide Lists;
  }

  /** The records of the new entries and the number of every entry. */
  method WriteNew(m: AddrManImpl, order: seq<Id>) returns (records: seq<Record>, numbers: map<Id, nat>)
    requires m.Valid() && Lists(order, m.info.Keys)
    ensures records == NewRecords(m.info, order) && numbers == Numbers(m.info, order)
  {
    hide Inv, Table, NewRecords, TriedRecords, Numbers, RecordOf, CollisionsOk, Lists;
    records, numbers := [], map[];
    RecordsNone(m.info, order);
    for k := 0 to |order|
      invariant records == NewRecords(m.info, order[..k]) && numbers == Numbers(m.info, order[..k])
    {
      RecordsNext(m.env, m.key, m.State(), order, k);
      var id := order[k];
      numbers := numbers[id := |records|];
      if m.info[id].refCount != 0 {
        assert |records| != m.nNew;
        records := records + [RecordOf(m.info[id])];
      }
    }
    assert order[..|order|] == order;
  }

  method WriteTried(m: AddrManImpl, order: seq<Id>) returns (records: seq<Record>)
    requires m.Valid() && Lists(order, m.info.Keys)
    ensures records == TriedRecords(m.info, order)
  {
    hide Inv, Table, NewRecords, TriedRecords, Numbers, RecordOf, CollisionsOk, Lists;
    records := [];
    RecordsNone(m.info, order);
    for k := 0 to |order|
      invariant records == TriedRecords(m.info, order[..k])
    {
      RecordsNext(m.env, m.key, m.State(), order, k);
      var id := order[k];
      if m.info[id].inTried {
        assert |records| != m.nTried;
        records := records + [RecordOf(m.info[id])];
      }
    }
    assert order[..|order|] == order;
  }

  method WriteRow(m: AddrManImpl, numbers: map<Id, nat>, bucket: nat) returns (row: seq<int>)
    requires m.Shape() && bucket < NEW_BUCKET_COUNT
    ensures row == Row(Table(m.vvNew), numbers, bucket, BUCKET_SIZE)
  {
    hide Table;
    row := [];
    for p := 0 to BUCKET_SIZE
      invariant row == Row(Table(m.vvNew), numbers, bucket, p)
    {
      TableAt(m.vvNew, Slot(bucket, p));
      var id := m.vvNew[bucket, p];
      if id != EMPTY && id in numbers { row := row + [numbers[id]]; }
    }
  }

  method Serialize(m: AddrManImpl, order: seq<Id>, asmapVersion: nat) returns (file: File)
    requires m.Valid() && Lists(order, m.info.Keys)
    ensures file == Written(m.key, m.State(), order, asmapVersion)
    ensures file.format == 4 && file.compat == 36 && file.key == m.key && |file.buckets| == 1024
         && file.nNew == m.nNew && file.nTried == m.nTried && file.asmapVersion == asmapVersion
  {
    hide Table, NewOnes, TriedOnes, Numbers, Row, Records, Lists, Inv, CollisionsOk;
    var news, numbers := WriteNew(m, order);
    var tried := WriteTried(m, order);
    var buckets: seq<seq<int>> := [];
    for n := 0 to NEW_BUCKET_COUNT
      invariant |buckets| == n && forall k | 0 <= k < n :: buckets[k] == Row(Table(m.vvNew), numbers, k, BUCKET_SIZE)
    {
      var row := WriteRow(m, numbers, n);
      buckets := buckets + [row];
    }
    file := File(FILE_FORMAT, INCOMPATIBILITY_BASE + FILE_FORMAT, m.key, m.nNew, m.nTried, news, tried, buckets,
      asmapVersion);
    assert file.buckets == Written(m.key, m.State(), order, asmapVersion).buckets;
  }

  // ---------------------------------------------------------------- reading

  /** A manager that is being filled from a file. */
  ghost predicate Filling(m: AddrManImpl)
    reads m, m.vvNew, m.vvTried
  {
    m.Shape() && Gathering(m.env, m.key, m.State()) && m.collisions == {}
  }

  method ReadNew(m: AddrManImpl, r: Record)
    requires Filling(m)
    modifies m
    ensures Filling(m) && m.State() == NewRead(m.env, old(m.State()), r)
  {
    hide Gathering, Table, CountNew;
    ghost var b := m.State();
    NewReadGathers(m.env, m.key, b, r);
    var id := Id(m.nextId);
    m.info := m.info[id := InfoOf(r).(randomPos := |m.random|)];
    m.addrs := m.addrs[r.addr := id];
    m.random := m.random + [id];
    m.nNew := m.nNew + 1;
    m.counts := CountNew(m.env, m.counts, r.addr.host, 1);
    m.nextId := m.nextId + 1;
    assert m.State() == NewRead(m.env, b, r);
  }

  lemma TriedReadIs(env: Env, key: Key, b: Book, r: Record)
    ensures var id := Id(b.nextId);
            TriedRead(env, key, b, r)
            == if !env.valid(r.addr.host) || TriedSlot(env, key, r.addr) in b.tried then b
               else Book(b.info[id := InfoOf(r).(randomPos := |b.random|, inTried := true)], b.addrs[r.addr := id],
                 b.random + [id],
                         b.news, b.tried[TriedSlot(env, key, r.addr) := id], b.nNew, b.nTried + 1,
                         CountTried(env, b.counts, r.addr.host, 1), b.nextId + 1)
  {
    hide TriedSlot;
    assert CountTried(env, CountNew(env, CountNew(env, b.counts, r.addr.host, 1), r.addr.host, -1), r.addr.host, 1)
           == CountTried(env, b.counts, r.addr.host, 1);
  }

  method ReadTried(m: AddrManImpl, r: Record) returns (lost: bool)
    requires Filling(m)
    modifies m, m.vvTried
    ensures Filling(m) && m.State() == TriedRead(m.env, m.key, old(m.State()), r)
  {
    hide Gathering, Table, CountTried, CountNew, TriedSlot, TriedRead;
    ghost var b := m.State();
    TriedReadGathers(m.env, m.key, b, r);
    TriedReadIs(m.env, m.key, b, r);
    var t := TriedSlot(m.env, m.key, r.addr);
    TriedSlotRange(m.env, m.key, r.addr);
    TableAt(m.vvTried, t);
    lost := !(m.env.valid(r.addr.host) && m.vvTried[t.bucket, t.pos] == EMPTY);
    if !lost {
      var id := Id(m.nextId);
      m.info := m.info[id := InfoOf(r).(randomPos := |m.random|, inTried := true)];
      m.random := m.random + [id];
      m.addrs := m.addrs[r.addr := id];
      Fill(m.vvTried, t, id);
      m.nextId := m.nextId + 1;
      m.nTried := m.nTried + 1;
      m.counts := CountTried(m.env, m.counts, r.addr.host, 1);
      assert m.State() == TriedRead(m.env, m.key, b, r);
    }
  }

  /** Puts one reference from a new bucket back. */
  method Settle(m: AddrManImpl, e: Entry, restore: bool)
    requires Filling(m) && (restore ==> e.bucket < NEW_BUCKET_COUNT) && Id(e.index) in m.info
        && !m.info[Id(e.index)].inTried
    modifies m, m.vvNew
    ensures Filling(m) && m.State() == Settled(m.env, m.key, old(m.State()), e.bucket, e.index, restore)
  {
    hide Gathering, Table, NewSlotIn, NewSlot;
    ghost var b := m.State();
    var id := Id(e.index);
    SettledGathers(m.env, m.key, b, e.bucket, e.index, restore);
    LiveId(m.env, m.key, b, id);
    if !m.env.valid(m.info[id].addr.host) || m.info[id].refCount >= NEW_BUCKETS_PER_ADDRESS { return; }
    var s, home := NewSlotIn(m.env, m.key, m.info[id].addr, e.bucket), NewSlot(m.env, m.key, m.info[id].addr,
      m.info[id].source);
    NewSlotRange(m.env, m.key, m.info[id].addr, e.bucket);
    NewSlotFacts(m.env, m.key, m.info[id].addr, m.info[id].source);
    TableAt(m.vvNew, home);
    if restore { TableAt(m.vvNew, s); }
    if restore && m.vvNew[s.bucket, s.pos] == EMPTY {
      Fill(m.vvNew, s, id);
      m.info := m.info[id := m.info[id].(refCount := m.info[id].refCount + 1)];
      assert m.State() == SetRef(b, s, id);
    } else if m.vvNew[home.bucket, home.pos] == EMPTY {
      Fill(m.vvNew, home, id);
      m.info := m.info[id := m.info[id].(refCount := m.info[id].refCount + 1)];
      assert m.State() == SetRef(b, home, id);
    }
  }

  lemma LiveId(env: Env, key: Key, b: Book, id: Id)
    requires Gathering(env, key, b) && id in b.info
    ensures id != EMPTY
  {
    hide RandomOk, NewOk, RefsOk, TriedOk, CountsOk;
  }

  /** Drops the entries that got no slot. */
  method Prune(m: AddrManImpl)
    requires Filling(m)
    modifies m
    ensures m.HoldsTables({}, {}) && m.collisions == {} && Pruned(old(m.State()), m.State(), Bare(old(m.info)))
    ensures Bare(old(m.info)) == {} ==> m.State() == old(m.State())
  {
    hide TablesOk, Table, Kept, Bare, Pruned, NoStale;
    ghost var b := m.State();
    var todo := m.info.Keys;
    ghost var bare := Bare(m.info);
    BareIn(m.info);
    PrunedNone(b);
    assert bare - bare == {};
    while todo != {}
      invariant m.HoldsTables({}, bare) && bare <= todo && bare <= Bare(b.info) && m.collisions == {}
      invariant Pruned(b, m.State(), Bare(b.info) - bare)
      invariant bare == Bare(b.info) ==> m.State() == b
      decreases todo
    {
      var id :| id in todo;
      todo := todo - {id};
      if id in m.info {
        BareFacts(m.env, m.key, m.State(), bare, id);
        if !m.info[id].inTried && m.info[id].refCount == 0 {
          ghost var was := m.State();
          m.Delete(id, {}, bare);
          PrunedMore(b, was, m.State(), Bare(b.info) - bare, id);
          assert Bare(b.info) - bare + {id} == Bare(b.info) - (bare - {id});
          bare := bare - {id};
        }
      } else {
        PrunedGone(b, m.State(), Bare(b.info) - bare, id);
      }
    }
    assert bare == {} && Bare(b.info) - bare == Bare(b.info);
  }

  lemma BareFacts(env: Env, key: Key, b: Book, bare: set<Id>, id: Id)
    requires TablesOk(env, key, b, {}, bare) && id in b.info
    ensures id in bare <==> !b.info[id].inTried && b.info[id].refCount == 0
  {
    hide RandomOk, NewOk, TriedOk, CountsOk, IdsOk, Refs;
  }

  lemma PrunedGone(b: Book, c: Book, gone: set<Id>, id: Id)
    requires Pruned(b, c, gone) && id !in c.info
    ensures id in Bare(b.info) ==> id in gone
  {}

  lemma NoCollisions(env: Env, key: Key, b: Book)
    ensures CollisionsOk(env, key, b.info, b.tried, {}, b.nextId)
  {}

  // ---------------------------------------------------------------- whole files

  const MAX_NEW: int := NEW_BUCKET_COUNT * BUCKET_SIZE
  const MAX_TRIED: int := TRIED_BUCKET_COUNT * BUCKET_SIZE

  /** The header is one this version can read, and the totals are possible. */
  predicate Readable(file: File) {
    file.compat >= INCOMPATIBILITY_BASE && file.compat - INCOMPATIBILITY_BASE <= FILE_FORMAT
    && 0 <= file.nNew <= MAX_NEW && 0 <= file.nTried <= MAX_TRIED
  }

  /** As many records as announced; a file that ends before is refused by the stream. */
  predicate Complete(file: File) {
    |file.newRecords| == file.nNew && |file.triedRecords| == file.nTried
  }

  predicate Restores(file: File, asmapVersion: nat) {
    |file.buckets| == NEW_BUCKET_COUNT && (if file.format >= 2 then file.asmapVersion else 0) == asmapVersion
  }

  /** The first n ids are live and not tried. */
  ghost predicate NewIdsUpTo(info: map<Id, Info>, n: int) {
    forall k | 0 <= k < n :: Id(k) in info && !info[Id(k)].inTried
  }

  lemma NewReadKeeps(env: Env, b: Book, r: Record)
    requires NewIdsUpTo(b.info, b.nextId)
    ensures NewIdsUpTo(NewRead(env, b, r).info, b.nextId + 1) && NewRead(env, b, r).nextId == b.nextId + 1
  {
    hide CountNew;
  }

  lemma ReadingStarts(env: Env, rs: seq<Record>)
    ensures NewIdsUpTo(EMPTY_BOOK.info, 0) && NewsRead(env, EMPTY_BOOK, rs[..0]) == EMPTY_BOOK
  {}

  method ReadNews(m: AddrManImpl, rs: seq<Record>)
    requires Filling(m) && m.State() == EMPTY_BOOK
    modifies m
    ensures Filling(m) && m.State() == NewsRead(m.env, EMPTY_BOOK, rs)
    ensures m.nextId == |rs| && NewIdsUpTo(m.info, |rs|)
  {
    hide Gathering, Table, NewRead, NewsRead, NewIdsUpTo;
    ReadingStarts(m.env, rs);
    for n := 0 to |rs|
      invariant Filling(m) && m.State() == NewsRead(m.env, EMPTY_BOOK, rs[..n])
      invariant m.nextId == n && NewIdsUpTo(m.info, n)
    {
      ghost var was := m.State();
      ReadNew(m, rs[n]);
      NewReadKeeps(m.env, was, rs[n]);
      NewsSnoc(m.env, rs, n + 1);
    }
    assert rs[..|rs|] == rs;
  }

  method ReadTrieds(m: AddrManImpl, rs: seq<Record>, ghost first: nat)
    requires Filling(m) && m.nextId == first && NewIdsUpTo(m.info, first)
    modifies m, m.vvTried
    ensures Filling(m) && m.State() == TriedsRead(m.env, m.key, old(m.State()), rs) && NewIdsUpTo(m.info, first)
  {
    hide Gathering, Table, TriedRead, TriedsRead, NewIdsUpTo;
    ghost var b := m.State();
    TriedsNone(m.env, m.key, b, rs);
    for n := 0 to |rs|
      invariant Filling(m) && m.State() == TriedsRead(m.env, m.key, b, rs[..n])
      invariant m.nextId >= first && NewIdsUpTo(m.info, first)
    {
      ghost var was := m.State();
      var lost := ReadTried(m, rs[n]);
      TriedsSnoc(m.env, m.key, b, rs, n + 1);
      TriedReadKeeps(m.env, m.key, was, rs[n], first);
    }
    assert rs[..|rs|] == rs;
  }

  lemma TriedReadKeeps(env: Env, key: Key, b: Book, r: Record, first: nat)
    requires b.nextId >= first && NewIdsUpTo(b.info, first)
    ensures TriedRead(env, key, b, r).nextId >= first && NewIdsUpTo(TriedRead(env, key, b, r).info, first)
  {
    hide TriedSlot, CountNew, CountTried;
  }

  /** The references read from all buckets. */
  method ReadEntries(buckets: seq<seq<int>>, nNew: int) returns (es: seq<Entry>)
    ensures es == Entries(buckets, |buckets|, nNew)
    ensures forall e | e in es :: e.bucket < |buckets| && 0 <= e.index < nNew
  {
    es := [];
    for n := 0 to |buckets|
      invariant es == Entries(buckets, n, nNew) && forall e | e in es :: e.bucket < |buckets| && 0 <= e.index < nNew
    {
      var row := buckets[n];
      ghost var was := es;
      assert row[..0] == [];
      for k := 0 to |row|
        invariant es == was + RowEntries(n, row[..k], nNew)
            && forall e | e in es :: e.bucket < |buckets| && 0 <= e.index < nNew
      {
        assert row[..k + 1][..k] == row[..k];
        if 0 <= row[k] < nNew { es := es + [Entry(n, row[k])]; }
      }
      assert row[..|row|] == row;
    }
  }

  method SettleAll(m: AddrManImpl, es: seq<Entry>, nNew: int, restore: bool)
    requires Filling(m) && NewIdsUpTo(m.info, nNew)
    requires forall e | e in es :: 0 <= e.index < nNew && (restore ==> e.bucket < NEW_BUCKET_COUNT)
    modifies m, m.vvNew
    ensures Filling(m) && m.State() == AllSettled(m.env, m.key, old(m.State()), es, restore)
  {
    hide Gathering, Table, Settled;
    ghost var b := m.State();
    assert es[..0] == [];
    for k := 0 to |es|
      invariant Filling(m) && m.State() == AllSettled(m.env, m.key, b, es[..k], restore)
      invariant NewIdsUpTo(m.info, nNew)
    {
      assert es[k] in es;
      ghost var was := m.State();
      Settle(m, es[k], restore);
      SettledKeeps(m.env, m.key, was, es[k], restore, nNew);
      assert es[..k + 1][..k] == es[..k];
    }
    assert es[..|es|] == es;
  }

  lemma SettledKeeps(env: Env, key: Key, b: Book, e: Entry, restore: bool, nNew: int)
    requires NewIdsUpTo(b.info, nNew)
    ensures NewIdsUpTo(Settled(env, key, b, e.bucket, e.index, restore).info, nNew)
  {
    hide NewSlotIn, NewSlot;
  }

  /** Reads a file into a new address manager, or refuses it. */
  method Unserialize(env: Env, asmapVersion: nat, file: File) returns (r: Option<AddrManImpl>)
    ensures r.Some? <==> Readable(file) && Complete(file) && file.key != 0
                         && Separate(Reread(env, file, Restores(file, asmapVersion)).info)
    ensures r.Some? ==>
        fresh(r.value) && fresh(r.value.vvNew) && fresh(r.value.vvTried) && r.value.env == env
          && r.value.key == file.key
    ensures r.Some? ==> r.value.Valid()
    ensures r.Some? ==> 32 <= file.compat <= 36 && 0 <= file.nNew <= 1024 * 64 && 0 <= file.nTried <= 256 * 64
    ensures r.Some? ==>
              var c := Reread(env, file, Restores(file, asmapVersion));
              Pruned(c, r.value.State(), Bare(c.info))
              && r.value.NewView() == View(c.info, c.news) && r.value.TriedView() == View(c.info, c.tried)
    ensures r.Some? && Bare(Reread(env, file, Restores(file, asmapVersion)).info) == {} ==>
              r.value.State() == Reread(env, file, Restores(file, asmapVersion))
    ensures r.Some? ==>
              ReadFrom(env, file, |file.buckets| == 1024
                && asmapVersion == (if file.format >= 2 then file.asmapVersion else 0),
                r.value.State())
    ensures r.Some? ==>
              (|file.buckets| != 1024 || asmapVersion != (if file.format >= 2 then file.asmapVersion else 0)) ==>
                Rehomed(env, file.key, r.value.State())
  {
    hide ReadFrom, Rehomed, Gathering, Table, TablesOk, NewsRead, TriedsRead, AllSettled, Entries, Bare, CollisionsOk,
         Passes, Pruned,
         Separate, View;
    if !Readable(file) || !Complete(file) { return None; }
    var m := new AddrManImpl(env, file.key);
    EmptyLoading(env, file.key);
    LoadingGathers(env, file.key, EMPTY_BOOK);
    ReadNews(m, file.newRecords);
    ReadTrieds(m, file.triedRecords, |file.newRecords|);
    var es := ReadEntries(file.buckets, file.nNew);
    var restore := Restores(file, asmapVersion);
    SettleAll(m, es, file.nNew, restore);
    ghost var c := m.State();
    Prune(m);
    var code := CheckAddrman(m);
    SeparateIs(env, file.key, c, m.State());
    PrunedViews(env, file.key, c, m.State());
    CheckFinds(m.env, m.key, m.State());
    NoCollisions(m.env, m.key, m.State());
    RereadFrom(env, file, restore);
    PrunedFrom(env, file, restore, c, m.State());
    if !restore { Rebucketed(env, file, m.State()); }
    r := if code == 0 then Some(m) else None;
  }

  /** What the check still has to find in a book that has been read. */
  lemma CheckFinds(env: Env, key: Key, b: Book)
    requires TablesOk(env, key, b, {}, {}) && NoStale(b)
    ensures Passes(env, key, b) <==> key != 0 && AddrOk(b.info, b.addrs) && TimesOk(b.info)
  {
    if Passes(env, key, b) {
      hide TablesOk, AddrOk, TimesOk, NoStale;
      FineParts(b);
    }
    if key != 0 && AddrOk(b.info, b.addrs) && TimesOk(b.info) {
      hide TablesOk, AddrOk, TimesOk, NoStale, Passes;
      CheckComplete(env, key, b);
    }
  }

  // ---------------------------------------------------------------- tables are finite

  /** The first places of a bucket. */
  function FirstPlaces(bucket: nat, p: nat): (r: set<Slot>)
    ensures |r| == p && forall s :: s in r <==> s.bucket == bucket && s.pos < p
  {
    if p == 0 then {} else FirstPlaces(bucket, p - 1) + {Slot(bucket, p - 1)}
  }

  lemma {:induction false} SlotsBounded(slots: set<Slot>, n: nat)
    requires forall s | s in slots :: s.bucket < n && s.pos < BUCKET_SIZE
    ensures |slots| <= n * BUCKET_SIZE
    decreases n
  {
    if n == 0 {
      assert slots == {};
    } else {
      var row := FirstPlaces(n - 1, BUCKET_SIZE);
      SlotsBounded(slots - row, n - 1);
      Fewer(slots * row, row);
      assert slots == (slots - row) + (slots * row) && (slots - row) !! (slots * row);
    }
  }

  lemma {:induction false} ValuesFewer(t: map<Slot, Id>)
    ensures |t.Values| <= |t.Keys|
    decreases |t|
  {
    if t != map[] {
      var s :| s in t;
      var rest := t - {s};
      assert |rest| < |t| by { assert rest.Keys == t.Keys - {s} && |rest| == |rest.Keys| && |t| == |t.Keys|; }
      ValuesFewer(rest);
      forall v | v in t.Values ensures v in rest.Values + {t[s]} {
        var r :| r in t && t[r] == v;
        if r != s { assert rest[r] in rest.Values; }
      }
      Fewer(t.Values, rest.Values + {t[s]});
      DropOne(t.Keys, s);
    }
  }

  ghost predicate InRange(b: Book) {
    (forall s | s in b.news :: s.bucket < NEW_BUCKET_COUNT && s.pos < BUCKET_SIZE)
    && forall s | s in b.tried :: s.bucket < TRIED_BUCKET_COUNT && s.pos < BUCKET_SIZE
  }

  /** Every entry takes up at least one slot. */
  lemma TotalsBounded(env: Env, key: Key, b: Book)
    requires Inv(env, key, b, {}, {}) && InRange(b)
    ensures 0 <= b.nNew <= MAX_NEW && 0 <= b.nTried <= MAX_TRIED
  {
    CheckCountsOf(env, key, b);
    forall id | id in NewIds(b.info, {}) ensures id in b.news.Values { NewInTable(env, key, b, id); }
    forall id | id in TriedIds(b.info) ensures id in b.tried.Values { TriedInTable(env, key, b, id); }
    hide Inv, NewIds, TriedIds;
    Fewer(NewIds(b.info, {}), b.news.Values);
    Fewer(TriedIds(b.info), b.tried.Values);
    ValuesFewer(b.news);
    ValuesFewer(b.tried);
    SlotsBounded(b.news.Keys, NEW_BUCKET_COUNT);
    SlotsBounded(b.tried.Keys, TRIED_BUCKET_COUNT);
  }

  lemma NewInTable(env: Env, key: Key, b: Book, id: Id)
    requires Inv(env, key, b, {}, {}) && id in b.info && !b.info[id].inTried
    ensures id in b.news.Values
  {
    hide Inv;
    EntryKind(env, key, b, id);
    BareOf(env, key, b, {});
    RefCountIs(env, key, b, id);
    assert Refs(b.news, id) != {};
    var s :| s in Refs(b.news, id);
    assert b.news[s] in b.news.Values;
  }

  lemma TriedInTable(env: Env, key: Key, b: Book, id: Id)
    requires Inv(env, key, b, {}, {}) && id in b.info && b.info[id].inTried
    ensures id in b.tried.Values
  {
    InvTriedOk(env, key, b);
    hide Inv;
    assert b.tried[TriedSlot(env, key, b.info[id].addr)] in b.tried.Values;
  }

  // ---------------------------------------------------------------- counts are determined by the tables

  /** The addresses of a network that a table holds. */
  ghost function AddrsIn(env: Env, v: map<Slot, Service>, net: Network): set<Service> {
    set s | s in v && env.network(v[s].host) == net :: v[s]
  }

  lemma {:induction false} ImageCount(info: map<Id, Info>, ids: set<Id>, addrs: set<Service>)
    requires forall id | id in ids :: id in info && info[id].addr in addrs
    requires forall a | a in addrs :: exists id | id in ids :: info[id].addr == a
    requires forall x, y | x in ids && y in ids && info[x].addr == info[y].addr :: x == y
    ensures |ids| == |addrs|
    decreases ids
  {
    if ids == {} {
      assert addrs == {};
    } else {
      var id :| id in ids;
      forall a | a in addrs - {info[id].addr} ensures exists x | x in ids - {id} :: info[x].addr == a {
        var x :| x in ids && info[x].addr == a;
        assert x in ids - {id};
      }
      ImageCount(info, ids - {id}, addrs - {info[id].addr});
      DropOne(ids, id);
      DropOne(addrs, info[id].addr);
    }
  }

  lemma UniqueAddrs(env: Env, key: Key, b: Book)
    requires Inv(env, key, b, {}, {})
    ensures forall x, y | x in b.info && y in b.info && b.info[x].addr == b.info[y].addr :: x == y
  {
    hide RandomOk, NewOk, RefsOk, TriedOk, CountsOk, TimesOk, IdsOk;
  }

  lemma NewTotalByView(env: Env, key: Key, b: Book, net: Network)
    requires Inv(env, key, b, {}, {})
    ensures |Within(env, b.info, NewIds(b.info, {}), net)| == |AddrsIn(env, View(b.info, b.news), net)|
  {
    hide Inv;
    var ids, v := Within(env, b.info, NewIds(b.info, {}), net), View(b.info, b.news);
    UniqueAddrs(env, key, b);
    forall id | id in ids ensures b.info[id].addr in AddrsIn(env, v, net) {
      NewInTable(env, key, b, id);
      var s :| s in b.news && b.news[s] == id;
      assert s in v && v[s] == b.info[id].addr;
    }
    forall a | a in AddrsIn(env, v, net) ensures exists id | id in ids :: b.info[id].addr == a {
      var s :| s in v && v[s] == a;
      SlotFacts(env, key, b, s);
      assert b.news[s] in ids;
    }
    ImageCount(b.info, ids, AddrsIn(env, v, net));
  }

  lemma TriedTotalByView(env: Env, key: Key, b: Book, net: Network)
    requires Inv(env, key, b, {}, {})
    ensures |Within(env, b.info, TriedIds(b.info), net)| == |AddrsIn(env, View(b.info, b.tried), net)|
  {
    hide Inv, TriedSlot;
    var ids, v := Within(env, b.info, TriedIds(b.info), net), View(b.info, b.tried);
    UniqueAddrs(env, key, b);
    forall id | id in ids ensures b.info[id].addr in AddrsIn(env, v, net) {
      TriedInTable(env, key, b, id);
      var s :| s in b.tried && b.tried[s] == id;
      assert s in v && v[s] == b.info[id].addr;
    }
    forall a | a in AddrsIn(env, v, net) ensures exists id | id in ids :: b.info[id].addr == a {
      var s :| s in v && v[s] == a;
      TriedFacts(env, key, b, {}, {}, s);
      assert b.tried[s] in ids;
    }
    ImageCount(b.info, ids, AddrsIn(env, v, net));
  }

  /** Per-network totals count the addresses that the tables hold. */
  lemma TotalsByView(env: Env, key: Key, b: Book, net: Network)
    requires Inv(env, key, b, {}, {})
    ensures CountAt(b.counts, net)
            == NewTriedCount(|AddrsIn(env, View(b.info, b.news), net)|, |AddrsIn(env, View(b.info, b.tried), net)|)
  {
    InvCounts(env, key, b);
    CountsTotals(env, b);
    NewTotalByView(env, key, b, net);
    TriedTotalByView(env, key, b, net);
    hide Inv, AddrsIn, View, Within;
  }

  lemma InvCounts(env: Env, key: Key, b: Book)
    requires Inv(env, key, b, {}, {})
    ensures CountsOk(env, b.info, {}, b.nNew, b.nTried, b.counts)
  {
    hide CountsOk;
  }

  /** Reference counts count the slots that hold the address. */
  lemma RefCountByView(env: Env, key: Key, b: Book, id: Id)
    requires Inv(env, key, b, {}, {}) && id in b.info
    ensures b.info[id].refCount == |set s | s in View(b.info, b.news) && View(b.info, b.news)[s] == b.info[id].addr|
  {
    hide Inv;
    BareOf(env, key, b, {});
    RefCountIs(env, key, b, id);
    SameAddrUnique(env, key, b, id);
    InvLive(env, key, b, {}, {});
    assert Refs(b.news, id) == set s | s in View(b.info, b.news) && View(b.info, b.news)[s] == b.info[id].addr;
  }

  // ---------------------------------------------------------------- there and back

  lemma WrittenReadable(env: Env, key: Key, b: Book, order: seq<Id>, asmapVersion: nat)
    requires Inv(env, key, b, {}, {}) && Lists(order, b.info.Keys) && InRange(b)
    ensures Readable(Written(key, b, order, asmapVersion)) && Complete(Written(key, b, order, asmapVersion))
    ensures Restores(Written(key, b, order, asmapVersion), asmapVersion)
  {
    hide Inv, NewOnes, TriedOnes, Numbers, Row;
    TotalsBounded(env, key, b);
    CountOnes(env, key, b, order);
  }

  lemma InvSeparate(env: Env, key: Key, b: Book)
    requires Inv(env, key, b, {}, {})
    ensures Separate(b.info)
  {
    hide TablesOk, Bare;
    forall x | x in b.info
      ensures TimeOk(b.info[x]) && forall y | y in b.info && y != x :: b.info[y].addr != b.info[x].addr
    {
      hide Inv;
      SameAddrUnique(env, key, b, x);
      EntryFacts(env, key, b, {}, {}, x);
    }
  }

  lemma NoBare(env: Env, key: Key, b: Book)
    requires Inv(env, key, b, {}, {})
    ensures Bare(b.info) == {}
  {
    hide Inv;
    forall id | id in b.info ensures !(!b.info[id].inTried && b.info[id].refCount == 0) { EntryKind(env, key, b, id); }
  }

  /** A consistent address manager with a key and valid addresses comes back from its file with the same address
      in every slot of both tables. */
  method Reload(m: AddrManImpl, order: seq<Id>, asmapVersion: nat) returns (r: Option<AddrManImpl>)
    requires m.Valid() && m.key != 0 && Lists(order, m.info.Keys)
        && forall id | id in m.info :: m.env.valid(m.info[id].addr.host)
    ensures r.Some? && r.value.Valid() && r.value.NewView() == m.NewView() && r.value.TriedView() == m.TriedView()
    ensures forall net :: CountAt(r.value.counts, net) == CountAt(m.counts, net)
    ensures forall x, y | x in m.info && y in r.value.info && m.info[x].addr == r.value.info[y].addr ::
              r.value.info[y].refCount == m.info[x].refCount
    ensures SameRecords(m.info, r.value.info)
  {
    hide Inv, Table, View, SameRecords, Written, Reread, Bare, Readable, Complete, Restores, Lists, CollisionsOk,
         Separate, Pruned;
    TableRange(m.vvNew);
    TableRange(m.vvTried);
    WrittenReadable(m.env, m.key, m.State(), order, asmapVersion);
    RoundTrip(m.env, m.key, m.State(), order, asmapVersion);
    var file := Serialize(m, order, asmapVersion);
    NoBare(m.env, m.key, Reread(m.env, file, true));
    InvSeparate(m.env, m.key, Reread(m.env, file, true));
    WrittenKey(m.key, m.State(), order, asmapVersion);
    r := Unserialize(m.env, asmapVersion, file);
    CountsAgree(m.env, m.key, m.State(), r.value.State());
  }

  lemma CountsAgree(env: Env, key: Key, b: Book, c: Book)
    requires Inv(env, key, b, {}, {}) && Inv(env, key, c, {}, {})
    requires View(c.info, c.news) == View(b.info, b.news) && View(c.info, c.tried) == View(b.info, b.tried)
    ensures forall net :: CountAt(c.counts, net) == CountAt(b.counts, net)
    ensures forall x, y | x in b.info && y in c.info
        && b.info[x].addr == c.info[y].addr :: c.info[y].refCount == b.info[x].refCount
  {
    hide Inv, View, AddrsIn, CountAt;
    forall net ensures CountAt(c.counts, net) == CountAt(b.counts, net) {
      TotalsByView(env, key, b, net);
      TotalsByView(env, key, c, net);
    }
    forall x, y | x in b.info && y in c.info && b.info[x].addr == c.info[y].addr
      ensures c.info[y].refCount == b.info[x].refCount
    {
      RefCountByView(env, key, b, x);
      RefCountByView(env, key, c, y);
    }
  }

  lemma WrittenKey(key: Key, b: Book, order: seq<Id>, asmapVersion: nat)
    ensures Written(key, b, order, asmapVersion).key == key
  {}
}
