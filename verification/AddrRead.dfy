/** What an address manager file is read as, said of its records and references alone. */
module AddrRead {
  import opened AddrBook
  import opened AddrSteps
  import opened AddrMan
  import opened AddrStore

  // ---------------------------------------------------------------- records

  /** The entry is the record, and has not been tried since. */
  ghost predicate Recorded(i: Info, r: Record) {
    i.addr == r.addr && i.source == r.source && i.time == r.time && i.services == r.services
    && i.lastSuccess == r.lastSuccess && i.attempts == r.attempts && i.lastTry == 0 && i.lastCountAttempt == 0
  }

  /** Entries that are not tried are new records, under their numbers. */
  ghost predicate Numbered(info: map<Id, Info>, rs: seq<Record>) {
    forall id | id in info && !info[id].inTried :: 0 <= id.n < |rs| && Recorded(info[id], rs[id.n])
  }

  /** The record wants this tried slot. */
  ghost predicate Claims(env: Env, key: Key, r: Record, t: Slot) {
    env.valid(r.addr.host) && TriedSlot(env, key, r.addr) == t
  }

  ghost predicate FirstClaim(env: Env, key: Key, rs: seq<Record>, k: nat, t: Slot)
    requires k < |rs|
  {
    Claims(env, key, rs[k], t) && forall j | 0 <= j < k :: !Claims(env, key, rs[j], t)
  }

  /** A tried slot holds the first record with a valid address that belongs there. */
  ghost predicate TriedFrom(env: Env, key: Key, b: Book, rs: seq<Record>) {
    (forall t | t in b.tried :: exists k | 0 <= k < |rs| :: HeldBy(env, key, b, rs, k, t))
    && forall k | 0 <= k < |rs| && env.valid(rs[k].addr.host) :: TriedSlot(env, key, rs[k].addr) in b.tried
  }

  ghost predicate AllNumbered(b: Book, rs: seq<Record>) {
    Numbered(b.info, rs) && b.nextId >= |rs| && forall k | 0 <= k < |rs| :: Id(k) in b.info && !b.info[Id(k)].inTried
  }

  lemma NewNumbered(env: Env, b: Book, rs: seq<Record>, r: Record)
    requires AllNumbered(b, rs) && b.nextId == |rs| && IdsOk(b.info, b.nextId)
    ensures var c := NewRead(env, b, r);
      && AllNumbered(c, rs + [r]) && c.nextId == |rs| + 1 && c.news == b.news && c.tried == b.tried
      && IdsOk(c.info, c.nextId)
  {
    hide CountNew;
    var c, all := NewRead(env, b, r), rs + [r];
    assert all[|rs|] == r && forall k | 0 <= k < |rs| :: all[k] == rs[k];
  }

  lemma {:induction false} NewsNumbered(env: Env, rs: seq<Record>)
    ensures var b := NewsRead(env, EMPTY_BOOK, rs);
      AllNumbered(b, rs) && b.nextId == |rs| && b.news == map[] && b.tried == map[] && IdsOk(b.info, b.nextId)
    decreases rs
  {
    if rs != [] {
      var front, r := rs[..|rs| - 1], rs[|rs| - 1];
      NewsNumbered(env, front);
      hide AllNumbered, NewRead, IdsOk;
      NewNumbered(env, NewsRead(env, EMPTY_BOOK, front), front, r);
      assert front + [r] == rs;
    }
  }

  lemma ClaimsMore(env: Env, key: Key, rs: seq<Record>, r: Record, k: nat, t: Slot)
    requires k < |rs|
    ensures FirstClaim(env, key, rs, k, t) ==> FirstClaim(env, key, rs + [r], k, t)
  {
    hide Claims;
    assert (rs + [r])[k] == rs[k] && forall j | 0 <= j < k :: (rs + [r])[j] == rs[j];
  }

  /** What reading one tried record changes. */
  lemma TriedReadIs(env: Env, key: Key, b: Book, r: Record)
    requires IdsOk(b.info, b.nextId)
    ensures var c, t, id := TriedRead(env, key, b, r), TriedSlot(env, key, r.addr), Id(b.nextId);
      && IdsOk(c.info, c.nextId) && (forall x | x in b.info :: x in c.info && c.info[x] == b.info[x])
      && (if Claims(env, key, r, t) && t !in b.tried
          then c.tried == b.tried[t := id] && id in c.info && c.info[id].inTried && Recorded(c.info[id], r)
          else c.tried == b.tried)
  {
    hide TriedSlot, CountNew, CountTried;
  }

  ghost predicate HeldBy(env: Env, key: Key, b: Book, rs: seq<Record>, k: nat, t: Slot)
    requires k < |rs|
  {
    FirstClaim(env, key, rs, k, t) && t in b.tried && b.tried[t] in b.info && b.info[b.tried[t]].inTried
    && Recorded(b.info[b.tried[t]], rs[k])
  }

  lemma TriedFromMore(env: Env, key: Key, b: Book, c: Book, rs: seq<Record>, r: Record)
    requires TriedFrom(env, key, b, rs) && c == TriedRead(env, key, b, r) && IdsOk(b.info, b.nextId)
    ensures TriedFrom(env, key, c, rs + [r]) && IdsOk(c.info, c.nextId)
  {
    hide TriedRead, TriedSlot, IdsOk, Recorded;
    TriedReadIs(env, key, b, r);
    var all := rs + [r];
    assert all[|rs|] == r && forall k | 0 <= k < |rs| :: all[k] == rs[k];
    forall t | t in c.tried ensures exists k | 0 <= k < |all| :: HeldBy(env, key, c, all, k, t) {
      if t in b.tried {
        var k :| 0 <= k < |rs| && HeldBy(env, key, b, rs, k, t);
        ClaimsMore(env, key, rs, r, k, t);
        assert HeldBy(env, key, c, all, k, t);
      } else {
        forall j | 0 <= j < |rs| ensures !Claims(env, key, all[j], t) {}
        assert HeldBy(env, key, c, all, |rs|, t);
      }
    }
  }

  lemma {:induction false} TriedsFrom(env: Env, key: Key, b: Book, rs: seq<Record>, news: seq<Record>)
    requires AllNumbered(b, news) && b.news == map[] && b.tried == map[] && IdsOk(b.info, b.nextId)
    ensures var c := TriedsRead(env, key, b, rs);
      AllNumbered(c, news) && TriedFrom(env, key, c, rs) && c.news == map[] && IdsOk(c.info, c.nextId)
    decreases rs
  {
    if rs != [] {
      var front, r := rs[..|rs| - 1], rs[|rs| - 1];
      TriedsFrom(env, key, b, front, news);
      var c := TriedsRead(env, key, b, front);
      TriedFromMore(env, key, c, TriedRead(env, key, c, r), front, r);
      assert front + [r] == rs;
      hide TriedFrom, TriedSlot, CountNew, CountTried, TriedsRead, Recorded;
      TriedNumbered(env, key, c, r, news);
      assert TriedsRead(env, key, b, rs) == TriedRead(env, key, c, r) by { TriedsLast(env, key, b, rs); }
    }
  }

  lemma TriedsLast(env: Env, key: Key, b: Book, rs: seq<Record>)
    requires rs != []
    ensures TriedsRead(env, key, b, rs) == TriedRead(env, key, TriedsRead(env, key, b, rs[..|rs| - 1]), rs[|rs| - 1])
  {}

  lemma TriedNumbered(env: Env, key: Key, b: Book, r: Record, news: seq<Record>)
    requires AllNumbered(b, news) && b.news == map[]
    ensures var c := TriedRead(env, key, b, r); AllNumbered(c, news) && c.news == map[]
  {
    hide TriedSlot, CountNew, CountTried;
  }

  // ---------------------------------------------------------------- references

  /** A reference put its entry into this slot: the one its source gives, or one in the bucket that lists it if the
      buckets are still the same. */
  ghost predicate PlacedBy(env: Env, key: Key, news: map<Slot, Id>, rs: seq<Record>, e: Entry, restore: bool, s: Slot) {
    s in news && news[s] == Id(e.index) && 0 <= e.index < |rs| && env.valid(rs[e.index].addr.host)
    && (s == NewSlot(env, key, rs[e.index].addr, rs[e.index].source)
        || (restore && s == NewSlotIn(env, key, rs[e.index].addr, e.bucket)))
  }

  /** What a reference to a valid address comes to: the slot in its bucket is taken if the buckets are still the same,
      and unless it is taken by the address itself, so is the slot that its source gives; or the address has eight
      slots. */
  ghost predicate Covered(env: Env, key: Key, b: Book, rs: seq<Record>, e: Entry, restore: bool) {
    0 <= e.index < |rs| && env.valid(rs[e.index].addr.host) ==>
      var id, s, home := Id(e.index), NewSlotIn(env, key, rs[e.index].addr, e.bucket),
        NewSlot(env, key, rs[e.index].addr, rs[e.index].source);
      || (id in b.info && b.info[id].refCount >= 8)
      || ((restore ==> s in b.news) && (home in b.news || (restore && s in b.news && b.news[s] == id)))
  }

  ghost predicate Placed(env: Env, key: Key, news: map<Slot, Id>, rs: seq<Record>, es: seq<Entry>, restore: bool) {
    forall s | s in news :: exists k | 0 <= k < |es| :: PlacedBy(env, key, news, rs, es[k], restore, s)
  }

  ghost predicate AllCovered(env: Env, key: Key, b: Book, rs: seq<Record>, es: seq<Entry>, restore: bool) {
    forall k | 0 <= k < |es| :: Covered(env, key, b, rs, es[k], restore)
  }

  /** The new table and the reference counts only grow. */
  ghost predicate Extends(b: Book, c: Book) {
    (forall s | s in b.news :: s in c.news && c.news[s] == b.news[s])
    && forall id | id in b.info :: id in c.info && c.info[id].refCount >= b.info[id].refCount
  }

  /** One more slot for an entry that is not tried. */
  lemma RefGrows(b: Book, rs: seq<Record>, s: Slot, id: Id)
    requires AllNumbered(b, rs) && id in b.info && !b.info[id].inTried && s !in b.news
    ensures var c := SetRef(b, s, id);
            AllNumbered(c, rs) && Extends(b, c) && c.tried == b.tried && Touched(b.info, c.info)
  {}

  lemma GrowsSelf(b: Book)
    ensures Extends(b, b) && Touched(b.info, b.info)
  {}

  lemma SettledGrows(env: Env, key: Key, b: Book, rs: seq<Record>, e: Entry, restore: bool)
    requires AllNumbered(b, rs) && 0 <= e.index < |rs|
    ensures var c := Settled(env, key, b, e.bucket, e.index, restore);
      AllNumbered(c, rs) && Extends(b, c) && c.tried == b.tried && Touched(b.info, c.info)
  {
    var id := Id(e.index);
    assert id in b.info && !b.info[id].inTried;
    hide NewSlot, NewSlotIn, AllNumbered, Extends, Touched, SetRef;
    GrowsSelf(b);
    var s, home := NewSlotIn(env, key, b.info[id].addr, e.bucket), NewSlot(env, key, b.info[id].addr,
      b.info[id].source);
    if s !in b.news { RefGrows(b, rs, s, id); }
    if home !in b.news { RefGrows(b, rs, home, id); }
  }

  lemma SettledCovers(env: Env, key: Key, b: Book, rs: seq<Record>, e: Entry, restore: bool)
    requires AllNumbered(b, rs) && 0 <= e.index < |rs|
    ensures var c := Settled(env, key, b, e.bucket, e.index, restore);
      Covered(env, key, c, rs, e, restore)
      && forall s | s in c.news :: s in b.news || PlacedBy(env, key, c.news, rs, e, restore, s)
  {
    var id := Id(e.index);
    assert id in b.info && !b.info[id].inTried && Recorded(b.info[id], rs[e.index]);
    hide NewSlot, NewSlotIn, AllNumbered;
  }

  /** Tried entries stay as they are. */
  ghost predicate Touched(info: map<Id, Info>, info': map<Id, Info>) {
    forall id | id in info && info[id].inTried :: id in info' && info'[id] == info[id]
  }

  lemma TouchedTwice(i: map<Id, Info>, j: map<Id, Info>, k: map<Id, Info>)
    requires Touched(i, j) && Touched(j, k)
    ensures Touched(i, k)
  {}

  lemma ExtendsNews(b: Book, c: Book)
    requires Extends(b, c)
    ensures forall s | s in b.news :: s in c.news && c.news[s] == b.news[s]
  {}

  lemma PlacedMore(env: Env, key: Key, news: map<Slot, Id>, news': map<Slot, Id>, rs: seq<Record>, es: seq<Entry>,
                   e: Entry, restore: bool)
    requires Placed(env, key, news, rs, es, restore)
    requires forall s | s in news :: s in news' && news'[s] == news[s]
    requires forall s | s in news' :: s in news || PlacedBy(env, key, news', rs, e, restore, s)
    ensures Placed(env, key, news', rs, es + [e], restore)
  {
    hide NewSlot, NewSlotIn;
    var all := es + [e];
    forall s | s in news' ensures exists k | 0 <= k < |all| :: PlacedBy(env, key, news', rs, all[k], restore, s) {
      if s in news {
        var k :| 0 <= k < |es| && PlacedBy(env, key, news, rs, es[k], restore, s);
        assert PlacedBy(env, key, news', rs, all[k], restore, s);
      } else {
        assert PlacedBy(env, key, news', rs, all[|es|], restore, s);
      }
    }
  }

  lemma CoveredMore(env: Env, key: Key, b: Book, c: Book, rs: seq<Record>, e: Entry, restore: bool)
    requires Covered(env, key, b, rs, e, restore) && Extends(b, c)
    ensures Covered(env, key, c, rs, e, restore)
  {
    hide NewSlot, NewSlotIn;
  }

  lemma AllCoveredMore(env: Env, key: Key, b: Book, c: Book, rs: seq<Record>, es: seq<Entry>, e: Entry, restore: bool)
    requires AllCovered(env, key, b, rs, es, restore) && Extends(b, c) && Covered(env, key, c, rs, e, restore)
    ensures AllCovered(env, key, c, rs, es + [e], restore)
  {
    hide Covered, Extends;
    forall k | 0 <= k < |es| ensures Covered(env, key, c, rs, (es + [e])[k], restore) {
      CoveredMore(env, key, b, c, rs, es[k], restore);
    }
  }

  /** What the references gone through have done to a book that had none. */
  ghost predicate Reading(env: Env, key: Key, b: Book, c: Book, rs: seq<Record>, es: seq<Entry>, restore: bool) {
    AllNumbered(c, rs) && c.tried == b.tried && Touched(b.info, c.info)
    && Placed(env, key, c.news, rs, es, restore) && AllCovered(env, key, c, rs, es, restore)
  }

  lemma ReadingNone(env: Env, key: Key, b: Book, rs: seq<Record>, restore: bool)
    requires AllNumbered(b, rs) && b.news == map[]
    ensures Reading(env, key, b, b, rs, [], restore)
  {}

  lemma ReadingMore(env: Env, key: Key, b: Book, c: Book, rs: seq<Record>, es: seq<Entry>, e: Entry, restore: bool)
    requires Reading(env, key, b, c, rs, es, restore) && 0 <= e.index < |rs|
    ensures Reading(env, key, b, Settled(env, key, c, e.bucket, e.index, restore), rs, es + [e], restore)
  {
    hide Settled, PlacedBy, Covered, Placed, AllCovered, AllNumbered, Extends, Touched;
    SettledGrows(env, key, c, rs, e, restore);
    SettledCovers(env, key, c, rs, e, restore);
    var d := Settled(env, key, c, e.bucket, e.index, restore);
    ExtendsNews(c, d);
    PlacedMore(env, key, c.news, d.news, rs, es, e, restore);
    TouchedTwice(b.info, c.info, d.info);
    AllCoveredMore(env, key, c, d, rs, es, e, restore);
  }

  lemma {:induction false} AllRead(env: Env, key: Key, b: Book, rs: seq<Record>, es: seq<Entry>, restore: bool)
    requires AllNumbered(b, rs) && b.news == map[] && forall e | e in es :: 0 <= e.index < |rs|
    ensures Reading(env, key, b, AllSettled(env, key, b, es, restore), rs, es, restore)
    decreases es
  {
    hide Reading, Settled, AllNumbered;
    if es == [] {
      ReadingNone(env, key, b, rs, restore);
    } else {
      var front, e := es[..|es| - 1], es[|es| - 1];
      assert forall x | x in front :: x in es;
      AllRead(env, key, b, rs, front, restore);
      ReadingMore(env, key, b, AllSettled(env, key, b, front, restore), rs, front, e, restore);
      assert front + [e] == es;
    }
  }

  // ---------------------------------------------------------------- whole files

  /** A bucket lists the number of a new record. */
  ghost predicate Refers(file: File, e: Entry) {
    e.bucket < |file.buckets| && e.index in file.buckets[e.bucket] && 0 <= e.index < file.nNew
  }

  lemma {:induction false} RowListed(bucket: nat, row: seq<int>, nNew: int, e: Entry)
    ensures e in RowEntries(bucket, row, nNew) <==> e.bucket == bucket && e.index in row && 0 <= e.index < nNew
    decreases row
  {
    if row != [] {
      RowListed(bucket, row[..|row| - 1], nNew, e);
      assert row == row[..|row| - 1] + [row[|row| - 1]];
    }
  }

  lemma {:induction false} EntriesListed(buckets: seq<seq<int>>, n: nat, nNew: int, e: Entry)
    requires n <= |buckets|
    ensures e in Entries(buckets, n, nNew) <==> e.bucket < n && e.index in buckets[e.bucket] && 0 <= e.index < nNew
  {
    if n > 0 {
      EntriesListed(buckets, n - 1, nNew, e);
      RowListed(n - 1, buckets[n - 1], nNew, e);
    }
  }

  /** The book is what the file says: new entries are its new records, a tried slot holds the first valid record that
      belongs there, new slots are those that references give, and every reference to a valid address has been
      followed. */
  ghost predicate ReadFrom(env: Env, file: File, restore: bool, b: Book) {
    Numbered(b.info, file.newRecords) && TriedFrom(env, file.key, b, file.triedRecords)
    && (forall s | s in b.news :: Given(env, file, restore, b.news, s))
    && forall e | Refers(file, e) :: Covered(env, file.key, b, file.newRecords, e, restore)
  }

  ghost predicate Given(env: Env, file: File, restore: bool, news: map<Slot, Id>, s: Slot) {
    exists e | Refers(file, e) :: PlacedBy(env, file.key, news, file.newRecords, e, restore, s)
  }

  lemma ReadingFrom(env: Env, file: File, restore: bool, b: Book, c: Book)
    requires var es := Entries(file.buckets, |file.buckets|, file.nNew);
      Reading(env, file.key, b, c, file.newRecords, es, restore) && TriedFrom(env, file.key, b, file.triedRecords)
    ensures ReadFrom(env, file, restore, c)
  {
    hide PlacedBy, Covered, Recorded;
    var es := Entries(file.buckets, |file.buckets|, file.nNew);
    hide Entries;
    forall s | s in c.news ensures Given(env, file, restore, c.news, s) {
      var k :| 0 <= k < |es| && PlacedBy(env, file.key, c.news, file.newRecords, es[k], restore, s);
      EntriesListed(file.buckets, |file.buckets|, file.nNew, es[k]);
      assert Refers(file, es[k]);
    }
    forall e | Refers(file, e) ensures Covered(env, file.key, c, file.newRecords, e, restore) {
      EntriesListed(file.buckets, |file.buckets|, file.nNew, e);
      var k :| 0 <= k < |es| && es[k] == e;
      assert Covered(env, file.key, c, file.newRecords, es[k], restore);
    }
    TriedFromSame(env, file.key, b, c, file.triedRecords);
  }

  lemma TriedFromSame(env: Env, key: Key, b: Book, c: Book, rs: seq<Record>)
    requires TriedFrom(env, key, b, rs) && c.tried == b.tried
    requires forall t | t in b.tried && b.tried[t] in b.info && b.info[b.tried[t]].inTried ::
      b.tried[t] in c.info && SameRecord(b.info[b.tried[t]], c.info[b.tried[t]]) && c.info[b.tried[t]].inTried
    ensures TriedFrom(env, key, c, rs)
  {
    hide FirstClaim;
    forall t | t in c.tried ensures exists k | 0 <= k < |rs| :: HeldBy(env, key, c, rs, k, t) {
      var k :| 0 <= k < |rs| && HeldBy(env, key, b, rs, k, t);
      assert HeldBy(env, key, c, rs, k, t);
    }
  }

  lemma RereadFrom(env: Env, file: File, restore: bool)
    requires |file.newRecords| == file.nNew
    ensures ReadFrom(env, file, restore, Reread(env, file, restore))
  {
    hide AllNumbered, TriedFrom, Reading, ReadFrom, AllSettled, TriedsRead, NewsRead, Entries;
    var news := NewsRead(env, EMPTY_BOOK, file.newRecords);
    NewsNumbered(env, file.newRecords);
    TriedsFrom(env, file.key, news, file.triedRecords, file.newRecords);
    var b, es := TriedsRead(env, file.key, news, file.triedRecords), Entries(file.buckets, |file.buckets|, file.nNew);
    forall e | e in es ensures 0 <= e.index < |file.newRecords| {
      EntriesListed(file.buckets, |file.buckets|, file.nNew, e);
    }
    AllRead(env, file.key, b, file.newRecords, es, restore);
    ReadingFrom(env, file, restore, b, AllSettled(env, file.key, b, es, restore));
  }

  /** Dropping the entries without a slot changes nothing of this. */
  lemma PrunedFrom(env: Env, file: File, restore: bool, b: Book, c: Book)
    requires ReadFrom(env, file, restore, b) && Pruned(b, c, Bare(b.info))
    ensures ReadFrom(env, file, restore, c)
  {
    hide NewSlot, NewSlotIn, TriedSlot;
    forall e | Refers(file, e) ensures Covered(env, file.key, c, file.newRecords, e, restore) {
      assert Covered(env, file.key, b, file.newRecords, e, restore);
    }
    forall s | s in c.news ensures Given(env, file, restore, c.news, s) {
      assert Given(env, file, restore, b.news, s);
    }
    TriedFromSame(env, file.key, b, c, file.triedRecords);
  }

  /** Every new slot is the one that its entry's address and source give, so no entry has two. */
  ghost predicate Rehomed(env: Env, key: Key, b: Book) {
    (forall s | s in b.news ::
       b.news[s] in b.info && s == NewSlot(env, key, b.info[b.news[s]].addr, b.info[b.news[s]].source))
    && forall id | id in b.info :: b.info[id].refCount <= 1
  }

  /** If the buckets do not count, every new slot is the one that its entry's source gives, so no entry has two. */
  lemma Rebucketed(env: Env, file: File, b: Book)
    requires ReadFrom(env, file, false, b) && TablesOk(env, file.key, b, {}, {})
    ensures Rehomed(env, file.key, b)
  {
    hide NewSlot, TriedSlot, RandomOk, TriedOk, CountsOk, IdsOk, TriedFrom;
    forall s | s in b.news
      ensures b.news[s] in b.info && s == NewSlot(env, file.key, b.info[b.news[s]].addr, b.info[b.news[s]].source)
    {
      var e :| Refers(file, e) && PlacedBy(env, file.key, b.news, file.newRecords, e, false, s);
    }
    forall id | id in b.info ensures b.info[id].refCount <= 1 {
      var home := NewSlot(env, file.key, b.info[id].addr, b.info[id].source);
      Fewest(Refs(b.news, id), home);
    }
  }

  lemma Fewest(slots: set<Slot>, home: Slot)
    requires forall s | s in slots :: s == home
    ensures |slots| <= 1
  {
    assert slots <= {home};
    if slots != {} { assert slots == {home}; }
  }
}
