/** The address manager's consistency check. Its error codes are those of the program; 0 means that nothing is
    wrong. */
module AddrCheck {
  import opened AddrBook
  import opened AddrMan

  /** The first thing wrong with one entry, or 0. */
  function EntryCode(id: Id, i: Info, addrs: map<Service, Id>, random: seq<Id>): int {
    if i.inTried && i.lastSuccess == 0 then -1
    else if i.inTried && i.refCount != 0 then -2
    else if !i.inTried && (i.refCount < 0 || i.refCount > NEW_BUCKETS_PER_ADDRESS) then -3
    else if !i.inTried && i.refCount == 0 then -4
    else if i.addr !in addrs || addrs[i.addr] != id then -5
    else if i.randomPos < 0 || i.randomPos >= |random| || random[i.randomPos] != id then -14
    else if i.lastTry < 0 then -6
    else if i.lastSuccess < 0 then -8
    else 0
  }

  ghost predicate EntriesFine(info: map<Id, Info>, ids: set<Id>, addrs: map<Service, Id>, random: seq<Id>) {
    forall id | id in ids :: id in info && EntryCode(id, info[id], addrs, random) == 0
  }

  /** The tried and the new ids among some entries. */
  ghost predicate Sorted(info: map<Id, Info>, done: set<Id>, inTried: set<Id>, inNew: set<Id>) {
    inTried == TriedIds(info) * done && inNew == NewIds(info, {}) * done
  }

  lemma SortedMore(info: map<Id, Info>, done: set<Id>, inTried: set<Id>, inNew: set<Id>, id: Id)
    requires Sorted(info, done, inTried, inNew) && id in info && id !in done
    ensures id !in inTried && id !in inNew
    ensures info[id].inTried ==> Sorted(info, done + {id}, inTried + {id}, inNew)
    ensures !info[id].inTried ==> Sorted(info, done + {id}, inTried, inNew + {id})
  {}

  ghost predicate Copied(info: map<Id, Info>, mapNew: map<Id, int>) {
    forall id | id in mapNew :: id in info && mapNew[id] == info[id].refCount
  }

  ghost predicate Positive(local: map<Network, NewTriedCount>) {
    forall net | net in local :: local[net].inNew + local[net].inTried > 0
  }

  /** What has been gathered from some of the entries. */
  ghost predicate Gathered(env: Env, info: map<Id, Info>, done: set<Id>, setTried: set<Id>, mapNew: map<Id, int>,
                           local: map<Network, NewTriedCount>) {
    Sorted(info, done, setTried, mapNew.Keys) && Copied(info, mapNew) && Positive(local)
    && Tally(env, info, mapNew.Keys, setTried, |mapNew|, |setTried|, local)
  }

  lemma GatheredNone(env: Env, info: map<Id, Info>)
    ensures Gathered(env, info, {}, {}, map[], map[])
  {
    forall net ensures Within(env, info, {}, net) == {} {}
  }

  lemma PositiveMore(env: Env, local: map<Network, NewTriedCount>, host: NetAddr)
    requires Positive(local)
    ensures Positive(CountNew(env, local, host, 1)) && Positive(CountTried(env, local, host, 1))
  {}

  lemma GatheredTried(env: Env, info: map<Id, Info>, done: set<Id>, setTried: set<Id>, mapNew: map<Id, int>,
                      local: map<Network, NewTriedCount>, id: Id)
    requires Gathered(env, info, done, setTried, mapNew, local) && id in info && id !in done && info[id].inTried
    ensures Gathered(env, info, done + {id}, setTried + {id}, mapNew, CountTried(env, local, info[id].addr.host, 1))
  {
    hide Tally, CountTried, CountNew, Sorted, Copied, Positive;
    SortedMore(info, done, setTried, mapNew.Keys, id);
    PositiveMore(env, local, info[id].addr.host);
    TallyTriedMore(env, info, mapNew.Keys, setTried, |mapNew|, |setTried|, local, id);
    AddOne(setTried, id);
  }

  lemma KeyMore(m: map<Id, int>, id: Id, n: int)
    requires id !in m
    ensures m[id := n].Keys == m.Keys + {id} && |m[id := n]| == |m| + 1
  {
    assert |m[id := n]| == |m[id := n].Keys| && |m| == |m.Keys|;
    assert m[id := n].Keys == m.Keys + {id};
    AddOne(m.Keys, id);
  }

  lemma CopiedMore(info: map<Id, Info>, mapNew: map<Id, int>, id: Id)
    requires Copied(info, mapNew) && id in info
    ensures Copied(info, mapNew[id := info[id].refCount])
  {}

  lemma GatheredFrom(env: Env, info: map<Id, Info>, done: set<Id>, setTried: set<Id>, mapNew: map<Id, int>,
                     local: map<Network, NewTriedCount>, keys: set<Id>, n: int)
    requires mapNew.Keys == keys && |mapNew| == n && Sorted(info, done, setTried, keys) && Copied(info, mapNew)
        && Positive(local)
    requires Tally(env, info, keys, setTried, n, |setTried|, local)
    ensures Gathered(env, info, done, setTried, mapNew, local)
  {
    hide Tally, Sorted, Copied, Positive;
  }

  lemma GatheredNew(env: Env, info: map<Id, Info>, done: set<Id>, setTried: set<Id>, mapNew: map<Id, int>,
                    local: map<Network, NewTriedCount>, id: Id)
    requires Gathered(env, info, done, setTried, mapNew, local) && id in info && id !in done && !info[id].inTried
    ensures Gathered(env, info, done + {id}, setTried, mapNew[id := info[id].refCount],
        CountNew(env, local, info[id].addr.host, 1))
  {
    hide Tally, CountTried, CountNew, Sorted, Copied, Positive;
    var keys, n, more := mapNew.Keys, |mapNew|, CountNew(env, local, info[id].addr.host, 1);
    SortedMore(info, done, setTried, keys, id);
    PositiveMore(env, local, info[id].addr.host);
    TallyNewMore(env, info, keys, setTried, n, |setTried|, local, id);
    KeyMore(mapNew, id, info[id].refCount);
    CopiedMore(info, mapNew, id);
    hide Gathered;
    GatheredFrom(env, info, done + {id}, setTried, mapNew[id := info[id].refCount], more, keys + {id}, n + 1);
  }

  lemma Fewer<T>(a: set<T>, c: set<T>)
    requires a <= c
    ensures |a| <= |c|
    decreases a
  {
    if a != {} {
      var x :| x in a;
      Fewer(a - {x}, c - {x});
    }
  }

  lemma OneLess<T>(all: set<T>, todo: set<T>, x: T)
    requires todo <= all && x in todo
    ensures all - (todo - {x}) == all - todo + {x} && x !in all - todo
  {}

  /** Checks every entry, and gathers the tried ids, the reference counts and the local totals. */
  method CheckEntries(m: AddrManImpl)
    returns (code: int, setTried: set<Id>, mapNew: map<Id, int>, local: map<Network, NewTriedCount>)
    ensures code == 0 <==> EntriesFine(m.info, m.info.Keys, m.addrs, m.random)
    ensures code == 0 ==> Gathered(m.env, m.info, m.info.Keys, setTried, mapNew, local)
  {
    hide Gathered, EntryCode, CountNew, CountTried;
    code, setTried, mapNew, local := 0, {}, map[], map[];
    var todo := m.info.Keys;
    GatheredNone(m.env, m.info);
    assert m.info.Keys - todo == {};
    while todo != {} && code == 0
      invariant todo <= m.info.Keys
      invariant code == 0 ==> EntriesFine(m.info, m.info.Keys - todo, m.addrs, m.random)
      invariant code == 0 ==> Gathered(m.env, m.info, m.info.Keys - todo, setTried, mapNew, local)
      invariant code != 0 ==> !EntriesFine(m.info, m.info.Keys, m.addrs, m.random)
      decreases todo
    {
      var id :| id in todo;
      OneLess(m.info.Keys, todo, id);
      var i := m.info[id];
      code := EntryCode(id, i, m.addrs, m.random);
      if i.inTried {
        GatheredTried(m.env, m.info, m.info.Keys - todo, setTried, mapNew, local, id);
        setTried := setTried + {id};
        local := CountTried(m.env, local, i.addr.host, 1);
      } else {
        GatheredNew(m.env, m.info, m.info.Keys - todo, setTried, mapNew, local, id);
        mapNew := mapNew[id := i.refCount];
        local := CountNew(m.env, local, i.addr.host, 1);
      }
      todo := todo - {id};
    }
    assert code == 0 ==> m.info.Keys - todo == m.info.Keys;
  }

  // ---------------------------------------------------------------- the tried table, slot by slot

  predicate Before(s: Slot, n: nat, i: nat) {
    s.bucket < n || (s.bucket == n && s.pos < i)
  }

  lemma BeforeNext(s: Slot, n: nat, i: nat)
    ensures Before(s, n, i + 1) <==> Before(s, n, i) || s == Slot(n, i)
  {}

  /** One tried slot is right. */
  ghost predicate TriedRight(env: Env, key: Key, info: map<Id, Info>, s: Slot, id: Id) {
    id in info && info[id].inTried && s == TriedSlot(env, key, info[id].addr)
  }

  /** Every slot so far is right, and the ids left over are those met in none of them. */
  ghost predicate TriedSoFar(env: Env, key: Key, info: map<Id, Info>, tried: map<Slot, Id>, left: set<Id>, n: nat,
                             i: nat) {
    (forall s | s in tried && Before(s, n, i) :: TriedRight(env, key, info, s, tried[s]))
    && left == Unmet(info, tried, n, i)
  }

  ghost function Unmet(info: map<Id, Info>, tried: map<Slot, Id>, n: nat, i: nat): set<Id> {
    set id | id in info && info[id].inTried && !Met(tried, id, n, i)
  }

  ghost predicate Met(tried: map<Slot, Id>, id: Id, n: nat, i: nat) {
    exists s | s in tried && Before(s, n, i) :: tried[s] == id
  }

  lemma TriedStart(env: Env, key: Key, info: map<Id, Info>, tried: map<Slot, Id>)
    ensures TriedSoFar(env, key, info, tried, TriedIds(info), 0, 0)
  {
    assert forall id :: !Met(tried, id, 0, 0);
  }

  lemma MetNext(tried: map<Slot, Id>, id: Id, n: nat, i: nat)
    ensures Met(tried, id, n, i + 1) <==> Met(tried, id, n, i) || (Slot(n, i) in tried && tried[Slot(n, i)] == id)
  {
    forall s | s in tried { BeforeNext(s, n, i); }
    BeforeNext(Slot(n, i), n, i);
    hide Before;
  }

  lemma TriedStep(env: Env, key: Key, info: map<Id, Info>, tried: map<Slot, Id>, left: set<Id>, n: nat, i: nat)
    requires TriedSoFar(env, key, info, tried, left, n, i)
    ensures Slot(n, i) !in tried ==> TriedSoFar(env, key, info, tried, left, n, i + 1)
    ensures Slot(n, i) in tried && TriedRight(env, key, info, Slot(n, i), tried[Slot(n, i)]) ==>
              TriedSoFar(env, key, info, tried, left - {tried[Slot(n, i)]}, n, i + 1)
  {
    UnmetNext(info, tried, n, i);
    forall s | s in tried { BeforeNext(s, n, i); }
    hide Before, Unmet, TriedRight;
  }

  lemma UnmetNext(info: map<Id, Info>, tried: map<Slot, Id>, n: nat, i: nat)
    ensures Unmet(info, tried, n, i + 1) ==
            Unmet(info, tried, n, i) - if Slot(n, i) in tried then {tried[Slot(n, i)]} else {}
  {
    hide Met, Before;
    var met := if Slot(n, i) in tried then {tried[Slot(n, i)]} else {};
    forall id ensures id in Unmet(info, tried, n, i + 1) <==> id in Unmet(info, tried, n, i) - met {
      MetNext(tried, id, n, i);
    }
  }

  /** The first thing wrong with one occupied tried slot, or 0. */
  function TriedSlotCode(env: Env, key: Key, info: map<Id, Info>, left: set<Id>, id: Id, n: nat, i: nat): int {
    if id !in left then -11
    else if id !in info || TriedBucket(env, key, info[id].addr) != n then -17
    else if BucketPosition(env, key, false, n, info[id].addr) != i then -18
    else 0
  }

  /** The code is 0 only if the slot is right, and otherwise the table is not. */
  lemma TriedCodeMeans(env: Env, key: Key, info: map<Id, Info>, tried: map<Slot, Id>, left: set<Id>, n: nat, i: nat)
    requires TriedSoFar(env, key, info, tried, left, n, i) && Slot(n, i) in tried
    ensures TriedSlotCode(env, key, info, left, tried[Slot(n, i)], n, i) == 0 ==>
        TriedRight(env, key, info, Slot(n, i), tried[Slot(n, i)])
    ensures TriedSlotCode(env, key, info, left, tried[Slot(n, i)], n, i) != 0 ==> !TriedOk(env, key, info, tried)
  {
    hide TriedBucket, BucketPosition;
  }

  lemma TriedDone(env: Env, key: Key, info: map<Id, Info>, tried: map<Slot, Id>, left: set<Id>)
    requires TriedSoFar(env, key, info, tried, left, TRIED_BUCKET_COUNT, 0)
        && forall s | s in tried :: s.bucket < TRIED_BUCKET_COUNT
    ensures left == {} <==> TriedOk(env, key, info, tried)
  {
    hide TriedSlot;
    if TriedOk(env, key, info, tried) {
      forall id | id in info && info[id].inTried ensures Met(tried, id, TRIED_BUCKET_COUNT, 0) {
        var s := TriedSlot(env, key, info[id].addr);
        assert s in tried && tried[s] == id && Before(s, TRIED_BUCKET_COUNT, 0);
      }
    } else if left == {} {
      forall id | id in info && info[id].inTried
        ensures TriedSlot(env, key, info[id].addr) in tried && tried[TriedSlot(env, key, info[id].addr)] == id
      {
        assert id !in left;
        var s :| s in tried && Before(s, TRIED_BUCKET_COUNT, 0) && tried[s] == id;
      }
    }
  }

  lemma TriedRow(env: Env, key: Key, info: map<Id, Info>, tried: map<Slot, Id>, left: set<Id>, n: nat)
    requires TriedSoFar(env, key, info, tried, left, n, BUCKET_SIZE) && forall s | s in tried :: s.pos < BUCKET_SIZE
    ensures TriedSoFar(env, key, info, tried, left, n + 1, 0)
  {
    hide TriedRight;
    forall id ensures Met(tried, id, n, BUCKET_SIZE) <==> Met(tried, id, n + 1, 0) {
      if Met(tried, id, n, BUCKET_SIZE) {
        var s :| s in tried && Before(s, n, BUCKET_SIZE) && tried[s] == id;
        assert Before(s, n + 1, 0);
      }
      if Met(tried, id, n + 1, 0) {
        var s :| s in tried && Before(s, n + 1, 0) && tried[s] == id;
        assert Before(s, n, BUCKET_SIZE);
      }
    }
    assert Unmet(info, tried, n, BUCKET_SIZE) == Unmet(info, tried, n + 1, 0) by { hide Met; }
  }

  lemma TableRange(a: array2<Id>)
    ensures forall s | s in Table(a) :: s.bucket < a.Length0 && s.pos < a.Length1
  {}

  method CheckTriedTable(m: AddrManImpl, setTried: set<Id>) returns (code: int, left: set<Id>)
    requires m.Shape() && setTried == TriedIds(m.info)
    ensures code == 0 && left == {} <==> TriedOk(m.env, m.key, m.info, Table(m.vvTried))
  {
    TableRange(m.vvTried);
    hide Table, TriedOk, TriedSoFar, TriedSlotCode, TriedIds, TriedRight;
    code, left := 0, setTried;
    ghost var tried := Table(m.vvTried);
    TriedStart(m.env, m.key, m.info, tried);
    var n := 0;
    while n < TRIED_BUCKET_COUNT && code == 0
      invariant 0 <= n <= TRIED_BUCKET_COUNT
      invariant code == 0 ==> TriedSoFar(m.env, m.key, m.info, tried, left, n, 0)
      invariant code != 0 ==> !TriedOk(m.env, m.key, m.info, tried)
    {
      var i := 0;
      while i < BUCKET_SIZE && code == 0
        invariant 0 <= i <= BUCKET_SIZE
        invariant code == 0 ==> TriedSoFar(m.env, m.key, m.info, tried, left, n, i)
        invariant code != 0 ==> !TriedOk(m.env, m.key, m.info, tried)
      {
        TableAt(m.vvTried, Slot(n, i));
        TriedStep(m.env, m.key, m.info, tried, left, n, i);
        if m.vvTried[n, i] != EMPTY {
          TriedCodeMeans(m.env, m.key, m.info, tried, left, n, i);
          code := TriedSlotCode(m.env, m.key, m.info, left, m.vvTried[n, i], n, i);
          left := left - {m.vvTried[n, i]};
        }
        i := i + 1;
      }
      if code == 0 { TriedRow(m.env, m.key, m.info, tried, left, n); }
      n := n + 1;
    }
    if code == 0 { TriedDone(m.env, m.key, m.info, tried, left); }
  }

  // ---------------------------------------------------------------- the new table, slot by slot

  ghost predicate NewRight(env: Env, key: Key, info: map<Id, Info>, s: Slot, id: Id) {
    id in info && !info[id].inTried && s == NewSlotIn(env, key, info[id].addr, s.bucket)
  }

  /** The slots met so far that hold an id. */
  ghost function Seen(news: map<Slot, Id>, id: Id, n: nat, i: nat): set<Slot> {
    set s | s in news && news[s] == id && Before(s, n, i)
  }

  ghost predicate RightSoFar(env: Env, key: Key, info: map<Id, Info>, news: map<Slot, Id>, n: nat, i: nat) {
    forall s | s in news && Before(s, n, i) :: NewRight(env, key, info, s, news[s])
  }

  /** What is left of each count is the number of slots still to come. */
  ghost predicate LeftSoFar(news: map<Slot, Id>, mapNew: map<Id, int>, left: map<Id, int>, n: nat, i: nat) {
    (forall id | id in left :: id in mapNew && left[id] == mapNew[id] - |Seen(news, id, n, i)| > 0)
    && (forall id | id in mapNew && id !in left :: mapNew[id] == |Seen(news, id, n, i)|)
  }

  ghost predicate NewSoFar(env: Env, key: Key, info: map<Id, Info>, news: map<Slot, Id>, mapNew: map<Id, int>,
                           left: map<Id, int>, n: nat, i: nat) {
    RightSoFar(env, key, info, news, n, i) && LeftSoFar(news, mapNew, left, n, i)
  }

  /** Reference counts of new entries are numbers of slots. */
  ghost predicate RefsExact(news: map<Slot, Id>, mapNew: map<Id, int>) {
    forall id | id in mapNew :: mapNew[id] == |Refs(news, id)|
  }

  lemma NewStart(env: Env, key: Key, info: map<Id, Info>, news: map<Slot, Id>, mapNew: map<Id, int>)
    requires forall id | id in mapNew :: mapNew[id] > 0
    ensures NewSoFar(env, key, info, news, mapNew, mapNew, 0, 0)
  {
    forall id ensures Seen(news, id, 0, 0) == {} {}
  }

  lemma SeenNext(news: map<Slot, Id>, id: Id, n: nat, i: nat)
    ensures |Seen(news, id, n, i + 1)| == |Seen(news, id, n, i)| +
        if Slot(n, i) in news && news[Slot(n, i)] == id then 1 else 0
  {
    var s := Slot(n, i);
    if s in news && news[s] == id {
      assert Seen(news, id, n, i + 1) == Seen(news, id, n, i) + {s};
      AddOne(Seen(news, id, n, i), s);
    } else {
      assert Seen(news, id, n, i + 1) == Seen(news, id, n, i);
    }
  }

  function Less(left: map<Id, int>, id: Id): map<Id, int>
    requires id in left
  {
    if left[id] == 1 then left - {id} else left[id := left[id] - 1]
  }

  lemma RightNext(env: Env, key: Key, info: map<Id, Info>, news: map<Slot, Id>, n: nat, i: nat)
    requires RightSoFar(env, key, info, news, n, i)
    requires Slot(n, i) in news ==> NewRight(env, key, info, Slot(n, i), news[Slot(n, i)])
    ensures RightSoFar(env, key, info, news, n, i + 1)
  {
    forall s | s in news ensures Before(s, n, i + 1) <==> Before(s, n, i) || s == Slot(n, i) { BeforeNext(s, n, i); }
    hide Before, NewRight;
  }

  lemma LeftNext(news: map<Slot, Id>, mapNew: map<Id, int>, left: map<Id, int>, n: nat, i: nat)
    requires LeftSoFar(news, mapNew, left, n, i) && (Slot(n, i) in news ==> news[Slot(n, i)] in left)
    ensures LeftSoFar(news, mapNew, if Slot(n, i) in news then Less(left, news[Slot(n, i)]) else left, n, i + 1)
  {
    hide Seen, Before;
    var next := if Slot(n, i) in news then Less(left, news[Slot(n, i)]) else left;
    forall id | id in next ensures id in mapNew && next[id] == mapNew[id] - |Seen(news, id, n, i + 1)| > 0 {
      SeenNext(news, id, n, i);
    }
    forall id | id in mapNew && id !in next ensures mapNew[id] == |Seen(news, id, n, i + 1)| {
      SeenNext(news, id, n, i);
    }
  }

  lemma NewStep(env: Env, key: Key, info: map<Id, Info>, news: map<Slot, Id>, mapNew: map<Id, int>, left: map<Id, int>,
                n: nat, i: nat)
    requires NewSoFar(env, key, info, news, mapNew, left, n, i)
    ensures Slot(n, i) !in news ==> NewSoFar(env, key, info, news, mapNew, left, n, i + 1)
    ensures Slot(n, i) in news && NewRight(env, key, info, Slot(n, i), news[Slot(n, i)]) && news[Slot(n, i)] in left ==>
              NewSoFar(env, key, info, news, mapNew, Less(left, news[Slot(n, i)]), n, i + 1)
  {
    hide RightSoFar, LeftSoFar, NewRight, Less;
    if Slot(n, i) !in news || (NewRight(env, key, info, Slot(n, i), news[Slot(n, i)]) && news[Slot(n, i)] in left) {
      RightNext(env, key, info, news, n, i);
      LeftNext(news, mapNew, left, n, i);
    }
  }

  /** The first thing wrong with one occupied new slot, or 0. */
  function NewSlotCode(env: Env, key: Key, info: map<Id, Info>, left: map<Id, int>, id: Id, n: nat, i: nat): int {
    if id !in left then -12
    else if id !in info || BucketPosition(env, key, true, n, info[id].addr) != i then -19
    else 0
  }

  /** An id met at a slot beyond its count has too many slots. */
  lemma SeenTooMany(news: map<Slot, Id>, id: Id, n: nat, i: nat)
    requires Slot(n, i) in news && news[Slot(n, i)] == id
    ensures |Refs(news, id)| > |Seen(news, id, n, i)|
  {
    var s, seen := Slot(n, i), Seen(news, id, n, i);
    AddOne(seen, s);
    Fewer(seen + {s}, Refs(news, id));
  }

  lemma NewCodeMeans(env: Env, key: Key, info: map<Id, Info>, news: map<Slot, Id>, mapNew: map<Id, int>,
                     left: map<Id, int>, n: nat, i: nat)
    requires NewSoFar(env, key, info, news, mapNew, left, n, i) && Slot(n, i) in news
    requires mapNew.Keys == NewIds(info, {})
    ensures var code := NewSlotCode(env, key, info, left, news[Slot(n, i)], n, i);
            (code == 0 ==> news[Slot(n, i)] in left && NewRight(env, key, info, Slot(n, i), news[Slot(n, i)]))
            && (code != 0 ==> !(NewOk(env, key, info, news) && RefsExact(news, mapNew)))
  {
    hide BucketPosition, Seen, Refs, Before;
    var id := news[Slot(n, i)];
    SeenTooMany(news, id, n, i);
    assert id in mapNew <==> id in NewIds(info, {});
    assert id in left ==> id in mapNew;
    assert id in mapNew ==> id in info && !info[id].inTried;
  }

  lemma NewRow(env: Env, key: Key, info: map<Id, Info>, news: map<Slot, Id>, mapNew: map<Id, int>, left: map<Id, int>,
               n: nat)
    requires NewSoFar(env, key, info, news, mapNew, left, n, BUCKET_SIZE) && forall s | s in news :: s.pos < BUCKET_SIZE
    ensures NewSoFar(env, key, info, news, mapNew, left, n + 1, 0)
  {
    hide NewRight;
    forall id ensures Seen(news, id, n, BUCKET_SIZE) == Seen(news, id, n + 1, 0) {}
    assert RightSoFar(env, key, info, news, n + 1, 0);
    hide Seen, RightSoFar;
  }

  /** At the end nothing is left exactly if the table and the counts are right. */
  lemma NewDone(env: Env, key: Key, info: map<Id, Info>, news: map<Slot, Id>, mapNew: map<Id, int>, left: map<Id, int>)
    requires NewSoFar(env, key, info, news, mapNew, left, NEW_BUCKET_COUNT, 0)
        && forall s | s in news :: s.bucket < NEW_BUCKET_COUNT
    ensures left == map[] <==> NewOk(env, key, info, news) && RefsExact(news, mapNew)
  {
    hide NewSlotIn;
    forall id ensures Seen(news, id, NEW_BUCKET_COUNT, 0) == Refs(news, id) {}
    assert NewOk(env, key, info, news) by {
      forall s | s in news ensures NewRight(env, key, info, s, news[s]) { assert Before(s, NEW_BUCKET_COUNT, 0); }
    }
    hide Seen, Refs, RightSoFar, NewOk;
    if left == map[] {
      forall id | id in mapNew ensures mapNew[id] == |Refs(news, id)| { assert id !in left; }
    } else {
      var id :| id in left;
    }
  }

  /** Either everything up to a slot is right, or an error shows that something is wrong. */
  ghost predicate NewJudged(env: Env, key: Key, info: map<Id, Info>, news: map<Slot, Id>, mapNew: map<Id, int>,
                            left: map<Id, int>,
                            n: nat, i: nat, code: int) {
    if code == 0 then NewSoFar(env, key, info, news, mapNew, left, n, i)
    else !(NewOk(env, key, info, news) && RefsExact(news, mapNew))
  }

  lemma NewRowJudged(env: Env, key: Key, info: map<Id, Info>, news: map<Slot, Id>, mapNew: map<Id, int>,
                     left: map<Id, int>,
                     n: nat, code: int)
    requires NewJudged(env, key, info, news, mapNew, left, n, BUCKET_SIZE, code)
        && forall s | s in news :: s.pos < BUCKET_SIZE
    ensures NewJudged(env, key, info, news, mapNew, left, n + 1, 0, code)
  {
    hide NewSoFar, NewOk, RefsExact;
    if code == 0 { NewRow(env, key, info, news, mapNew, left, n); }
  }

  lemma NewTableJudged(env: Env, key: Key, info: map<Id, Info>, news: map<Slot, Id>, mapNew: map<Id, int>,
                       left: map<Id, int>,
                       n: nat, code: int)
    requires NewJudged(env, key, info, news, mapNew, left, n, 0, code) && (code == 0 ==> n == NEW_BUCKET_COUNT)
    requires forall s | s in news :: s.bucket < NEW_BUCKET_COUNT
    ensures code == 0 && left == map[] <==> NewOk(env, key, info, news) && RefsExact(news, mapNew)
  {
    hide NewSoFar, NewOk, RefsExact;
    if code == 0 { NewDone(env, key, info, news, mapNew, left); }
  }

  method CheckNewTable(m: AddrManImpl, mapNew: map<Id, int>) returns (code: int, left: map<Id, int>)
    requires m.Shape() && mapNew.Keys == NewIds(m.info, {}) && forall id | id in mapNew :: mapNew[id] > 0
    ensures code == 0 && left == map[] <==>
        NewOk(m.env, m.key, m.info, Table(m.vvNew)) && RefsExact(Table(m.vvNew), mapNew)
  {
    hide Table, NewOk, NewSoFar, NewIds, RefsExact, NewJudged;
    TableRange(m.vvNew);
    code, left := 0, mapNew;
    ghost var news := Table(m.vvNew);
    NewJudgedStart(m.env, m.key, m.info, news, mapNew);
    var n := 0;
    while n < NEW_BUCKET_COUNT && code == 0
      invariant 0 <= n <= NEW_BUCKET_COUNT && NewJudged(m.env, m.key, m.info, news, mapNew, left, n, 0, code)
    {
      code, left := CheckNewBucket(m, mapNew, left, n);
      NewRowJudged(m.env, m.key, m.info, news, mapNew, left, n, code);
      n := n + 1;
    }
    NewTableJudged(m.env, m.key, m.info, news, mapNew, left, n, code);
  }

  lemma NewJudgedStart(env: Env, key: Key, info: map<Id, Info>, news: map<Slot, Id>, mapNew: map<Id, int>)
    requires forall id | id in mapNew :: mapNew[id] > 0
    ensures NewJudged(env, key, info, news, mapNew, mapNew, 0, 0, 0)
  {
    hide NewSoFar;
    NewStart(env, key, info, news, mapNew);
  }

  method CheckNewBucket(m: AddrManImpl, mapNew: map<Id, int>, left0: map<Id, int>, n: nat)
    returns (code: int, left: map<Id, int>)
    requires m.Shape() && mapNew.Keys == NewIds(m.info, {}) && n < NEW_BUCKET_COUNT
    requires NewJudged(m.env, m.key, m.info, Table(m.vvNew), mapNew, left0, n, 0, 0)
    ensures NewJudged(m.env, m.key, m.info, Table(m.vvNew), mapNew, left, n, BUCKET_SIZE, code)
  {
    hide Table, NewOk, NewSoFar, NewSlotCode, NewIds, NewRight, RefsExact;
    code, left := 0, left0;
    ghost var news := Table(m.vvNew);
    var i := 0;
    while i < BUCKET_SIZE && code == 0
      invariant 0 <= i <= BUCKET_SIZE && NewJudged(m.env, m.key, m.info, news, mapNew, left, n, i, code)
    {
      TableAt(m.vvNew, Slot(n, i));
      NewStep(m.env, m.key, m.info, news, mapNew, left, n, i);
      var id := m.vvNew[n, i];
      if id != EMPTY {
        NewCodeMeans(m.env, m.key, m.info, news, mapNew, left, n, i);
        code := NewSlotCode(m.env, m.key, m.info, left, id, n, i);
        if code == 0 { left := Less(left, id); }
      }
      i := i + 1;
    }
  }

  // ---------------------------------------------------------------- totals

  /** The networks that have entries. */
  ghost function Nets(env: Env, info: map<Id, Info>): set<Network> {
    set id | id in info :: env.network(info[id].addr.host)
  }

  ghost function Totals(env: Env, info: map<Id, Info>, net: Network): NewTriedCount {
    NewTriedCount(|Within(env, info, NewIds(info, {}), net)|, |Within(env, info, TriedIds(info), net)|)
  }

  lemma GatheredAll(env: Env, info: map<Id, Info>, setTried: set<Id>, mapNew: map<Id, int>,
                    local: map<Network, NewTriedCount>)
    requires Gathered(env, info, info.Keys, setTried, mapNew, local)
    ensures setTried == TriedIds(info) && mapNew.Keys == NewIds(info, {}) && Copied(info, mapNew) && Positive(local)
    ensures |mapNew| == |NewIds(info, {})| && forall net :: CountAt(local, net) == Totals(env, info, net)
  {
    hide Copied, Positive, Within;
    assert setTried == TriedIds(info) && mapNew.Keys == NewIds(info, {});
  }

  lemma TotalsNone(env: Env, info: map<Id, Info>, net: Network)
    ensures net in Nets(env, info) <==> Totals(env, info, net).inNew + Totals(env, info, net).inTried > 0
  {
    var a, c := Within(env, info, NewIds(info, {}), net), Within(env, info, TriedIds(info), net);
    if net in Nets(env, info) {
      var id :| id in info && env.network(info[id].addr.host) == net;
      assert id in a || id in c;
    }
    if a != {} { var id :| id in a; }
    if c != {} { var id :| id in c; }
  }

  lemma LocalNets(env: Env, info: map<Id, Info>, setTried: set<Id>, mapNew: map<Id, int>,
                  local: map<Network, NewTriedCount>)
    requires Gathered(env, info, info.Keys, setTried, mapNew, local)
    ensures |local| == |Nets(env, info)|
  {
    GatheredAll(env, info, setTried, mapNew, local);
    hide Gathered, Totals, Nets;
    forall net ensures net in local <==> net in Nets(env, info) { TotalsNone(env, info, net); }
    assert local.Keys == Nets(env, info) && |local| == |local.Keys|;
  }

  method CheckCounts(m: AddrManImpl, local: map<Network, NewTriedCount>) returns (code: int)
    ensures code == 0 <==> forall net | net in m.counts :: CountAt(local, net) == m.counts[net]
  {
    code := 0;
    var todo := m.counts.Keys;
    while todo != {} && code == 0
      invariant todo <= m.counts.Keys
      invariant code == 0 ==> forall net | net in m.counts && net !in todo :: CountAt(local, net) == m.counts[net]
      invariant code != 0 ==> exists net | net in m.counts :: CountAt(local, net) != m.counts[net]
      decreases todo
    {
      var net :| net in todo;
      todo := todo - {net};
      if CountAt(local, net).inNew != m.counts[net].inNew
        || CountAt(local, net).inTried != m.counts[net].inTried { code := -21; }
    }
  }

  // ---------------------------------------------------------------- the whole check

  ghost predicate RefsRight(info: map<Id, Info>, news: map<Slot, Id>) {
    forall id | id in info && !info[id].inTried :: info[id].refCount == |Refs(news, id)|
  }

  /** What the check establishes. */
  ghost predicate Passes(env: Env, key: Key, b: Book) {
    |b.random| == b.nTried + b.nNew && EntriesFine(b.info, b.info.Keys, b.addrs, b.random)
    && |TriedIds(b.info)| == b.nTried && |NewIds(b.info, {})| == b.nNew
    && TriedOk(env, key, b.info, b.tried) && NewOk(env, key, b.info, b.news) && RefsRight(b.info, b.news)
    && key != 0 && |Nets(env, b.info)| <= |b.counts|
    && forall net | net in b.counts :: b.counts[net] == Totals(env, b.info, net)
  }

  lemma CopiedRefs(info: map<Id, Info>, addrs: map<Service, Id>, random: seq<Id>, news: map<Slot, Id>,
                   mapNew: map<Id, int>)
    requires EntriesFine(info, info.Keys, addrs, random) && Copied(info, mapNew) && mapNew.Keys == NewIds(info, {})
    ensures forall id | id in mapNew :: mapNew[id] > 0
    ensures RefsExact(news, mapNew) <==> RefsRight(info, news)
  {
    hide Refs;
    forall id | id in mapNew ensures id in NewIds(info, {}) && EntryCode(id, info[id], addrs, random) == 0 {
      assert id in mapNew.Keys && id in info.Keys;
    }
    forall id | id in info && !info[id].inTried ensures id in mapNew { assert id in NewIds(info, {}); }
  }

  /** The consistency check of any address manager returns 0 exactly if everything it looks at is right. */
  method CheckAddrman(m: AddrManImpl) returns (code: int)
    requires m.Shape()
    ensures code == 0 <==> Passes(m.env, m.key, m.State())
  {
    hide Table, Gathered, NewIds, TriedIds, Copied, CountAt, EntriesFine, TriedOk, NewOk, RefsRight, RefsExact, Nets,
         Totals, Positive;
    if |m.random| != m.nTried + m.nNew { return -7; }
    var setTried, mapNew, local, leftTried, leftNew;
    code, setTried, mapNew, local := CheckEntries(m);
    if code != 0 { return; }
    GatheredAll(m.env, m.info, setTried, mapNew, local);
    LocalNets(m.env, m.info, setTried, mapNew, local);
    CopiedRefs(m.info, m.addrs, m.random, Table(m.vvNew), mapNew);
    if |setTried| != m.nTried { return -9; }
    if |mapNew| != m.nNew { return -10; }
    code, leftTried := CheckTriedTable(m, setTried);
    if code != 0 { return; }
    code, leftNew := CheckNewTable(m, mapNew);
    if code != 0 { return; }
    if leftTried != {} { return -13; }
    if leftNew != map[] { return -15; }
    if m.key == 0 { return -16; }
    if |m.counts| < |local| { return -20; }
    code := CheckCounts(m, local);
  }

  // ---------------------------------------------------------------- what the check leaves open

  /** No address leads to a missing entry or to one with another address. */
  ghost predicate NoStale(b: Book) {
    forall a | a in b.addrs :: b.addrs[a] in b.info && b.info[b.addrs[a]].addr == a
  }

  /** A list of different elements is as long as the set of them. */
  lemma {:induction false} Listing(s: seq<Id>, keys: set<Id>)
    requires forall j, k | 0 <= j < k < |s| :: s[j] != s[k]
    requires forall id :: id in keys <==> id in s
    ensures |s| == |keys|
    decreases s
  {
    if s == [] {
      assert keys == {};
    } else {
      var last, front := s[|s| - 1], s[..|s| - 1];
      assert s == front + [last];
      Listing(front, keys - {last});
      DropOne(keys, last);
    }
  }

  /** A list as long as the set of its places for all of these lists nothing else. */
  lemma {:induction false} PlacesFill(places: map<Id, int>, keys: set<Id>, free: set<int>)
    requires keys <= places.Keys && |free| == |keys|
    requires forall id | id in keys :: places[id] in free
    requires forall x, y | x in keys && y in keys && places[x] == places[y] :: x == y
    ensures forall p | p in free :: exists id | id in keys :: places[id] == p
    decreases keys
  {
    if keys != {} {
      var id :| id in keys;
      DropOne(keys, id);
      DropOne(free, places[id]);
      PlacesFill(places, keys - {id}, free - {places[id]});
      forall p | p in free ensures exists x | x in keys :: places[x] == p {
        if p != places[id] {
          assert p in free - {places[id]};
          var x :| x in keys - {id} && places[x] == p;
        }
      }
    }
  }

  function Places(n: nat): (r: set<int>)
    ensures |r| == n && forall p :: p in r <==> 0 <= p < n
  {
    if n == 0 then {} else Places(n - 1) + {n - 1}
  }

  ghost predicate Placed(info: map<Id, Info>, random: seq<Id>) {
    forall id | id in info :: 0 <= info[id].randomPos < |random| && random[info[id].randomPos] == id
  }

  /** Entries that know their places, in an order no longer than there are entries, fill the order. */
  lemma RandomFilled(info: map<Id, Info>, random: seq<Id>)
    requires Placed(info, random) && |random| == |info.Keys|
    ensures RandomOk(info, random)
  {
    var places := map id | id in info :: info[id].randomPos;
    PlacesFill(places, info.Keys, Places(|random|));
    forall p | 0 <= p < |random| ensures random[p] in info && info[random[p]].randomPos == p {
      assert p in Places(|random|);
      var id :| id in info.Keys && places[id] == p;
    }
  }

  lemma IdsSplit(info: map<Id, Info>)
    ensures |NewIds(info, {})| + |TriedIds(info)| == |info.Keys|
  {
    var a, c: set<Id> := NewIds(info, {}), TriedIds(info);
    assert a + c == info.Keys && a !! c;
  }

  lemma RandomTotal(info: map<Id, Info>, random: seq<Id>)
    requires RandomOk(info, random)
    ensures |random| == |info.Keys|
  {
    Listing(random, info.Keys);
  }

  lemma FineParts(b: Book)
    requires EntriesFine(b.info, b.info.Keys, b.addrs, b.random)
    ensures Placed(b.info, b.random) && TimesOk(b.info) && (NoStale(b) ==> AddrOk(b.info, b.addrs))
    ensures forall id | id in b.info :: b.info[id].inTried ==> b.info[id].refCount == 0
    ensures forall id | id in b.info :: !b.info[id].inTried ==> 0 < b.info[id].refCount <= NEW_BUCKETS_PER_ADDRESS
  {
    forall id | id in b.info ensures EntryCode(id, b.info[id], b.addrs, b.random) == 0 { assert id in b.info.Keys; }
    hide EntriesFine;
  }

  lemma RefsFromParts(env: Env, key: Key, info: map<Id, Info>, news: map<Slot, Id>)
    requires NewOk(env, key, info, news) && RefsRight(info, news)
    requires forall id | id in info :: info[id].inTried ==> info[id].refCount == 0
    requires forall id | id in info :: !info[id].inTried ==> 0 < info[id].refCount <= NEW_BUCKETS_PER_ADDRESS
    ensures RefsOk(info, news, {}, {})
  {
    hide NewSlotIn;
    forall id | id in info && info[id].inTried ensures Refs(news, id) == {} {}
    hide Refs;
  }

  lemma CountsFromTotals(env: Env, b: Book)
    requires |TriedIds(b.info)| == b.nTried && |NewIds(b.info, {})| == b.nNew
    requires forall net | net in b.counts :: b.counts[net] == Totals(env, b.info, net)
    requires Nets(env, b.info) <= b.counts.Keys
    ensures CountsOk(env, b.info, {}, b.nNew, b.nTried, b.counts)
  {
    forall net ensures CountAt(b.counts, net) == Totals(env, b.info, net) {
      TotalsNone(env, b.info, net);
      hide NewIds, TriedIds, Within, Nets;
    }
  }

  /** Passing the check, together with what the check does not look at, is the invariant. */
  lemma CheckSound(env: Env, key: Key, b: Book)
    requires Passes(env, key, b) && NoStale(b) && Nets(env, b.info) <= b.counts.Keys && IdsOk(b.info, b.nextId)
    ensures Inv(env, key, b, {}, {})
  {
    FineParts(b);
    IdsSplit(b.info);
    RandomFilled(b.info, b.random);
    RefsFromParts(env, key, b.info, b.news);
    CountsFromTotals(env, b);
    hide RandomOk, AddrOk, NewOk, RefsOk, TriedOk, CountsOk, TimesOk, IdsOk;
  }

  lemma EntryFine(env: Env, key: Key, b: Book, id: Id)
    requires Inv(env, key, b, {}, {}) && id in b.info
    ensures EntryCode(id, b.info[id], b.addrs, b.random) == 0
  {
    hide NewOk, TriedOk, CountsOk, IdsOk, Refs;
  }

  lemma CountsTotals(env: Env, b: Book)
    requires CountsOk(env, b.info, {}, b.nNew, b.nTried, b.counts)
    ensures |TriedIds(b.info)| == b.nTried && |NewIds(b.info, {})| == b.nNew
    ensures forall net :: CountAt(b.counts, net) == Totals(env, b.info, net)
  {
    hide NewIds, TriedIds, Within;
  }

  lemma NetsCounted(env: Env, b: Book)
    requires forall net :: CountAt(b.counts, net) == Totals(env, b.info, net)
    ensures Nets(env, b.info) <= b.counts.Keys && |Nets(env, b.info)| <= |b.counts|
    ensures forall net | net in b.counts :: b.counts[net] == Totals(env, b.info, net)
  {
    hide Totals, Nets;
    forall net | net in Nets(env, b.info) ensures net in b.counts.Keys { TotalsNone(env, b.info, net); }
    Fewer(Nets(env, b.info), b.counts.Keys);
    assert |b.counts| == |b.counts.Keys|;
    forall net | net in b.counts ensures b.counts[net] == Totals(env, b.info, net) {
      assert CountAt(b.counts, net) == Totals(env, b.info, net);
    }
  }

  lemma RefsRightFrom(info: map<Id, Info>, news: map<Slot, Id>)
    requires RefsOk(info, news, {}, {})
    ensures RefsRight(info, news)
  {
    hide Refs;
  }

  /** A consistent address manager with a key passes the check. */
  lemma CheckComplete(env: Env, key: Key, b: Book)
    requires Inv(env, key, b, {}, {}) && key != 0
    ensures Passes(env, key, b) && NoStale(b) && Nets(env, b.info) <= b.counts.Keys && IdsOk(b.info, b.nextId)
  {
    forall id | id in b.info.Keys
      ensures EntryCode(id, b.info[id], b.addrs, b.random) == 0
    {
      EntryFine(env, key, b, id);
    }
    hide EntryCode;
    RandomTotal(b.info, b.random);
    IdsSplit(b.info);
    RefsRightFrom(b.info, b.news);
    CountsTotals(env, b);
    NetsCounted(env, b);
    hide RandomOk, NewOk, RefsOk, TriedOk, CountsOk, TimesOk, IdsOk, RefsRight, NewIds, TriedIds, Nets, Totals;
  }

  /** With a key, the invariant is exactly: the check passes, no address is stale, every network in use has its
      totals, and ids are in range. */
  lemma CheckExact(env: Env, key: Key, b: Book)
    requires key != 0
    ensures Inv(env, key, b, {}, {}) <==>
            Passes(env, key, b) && NoStale(b) && Nets(env, b.info) <= b.counts.Keys && IdsOk(b.info, b.nextId)
  {
    hide Inv, Passes, NoStale, IdsOk, Nets;
    if Inv(env, key, b, {}, {}) { CheckComplete(env, key, b); }
    if Passes(env, key, b) && NoStale(b) && Nets(env, b.info) <= b.counts.Keys
      && IdsOk(b.info, b.nextId) { CheckSound(env, key, b); }
  }

  /** An address that leads to no entry is not noticed by the check. */
  lemma StaleUnnoticed(env: Env, key: Key, a: Service)
    requires key != 0
    ensures var b := EMPTY_BOOK.(addrs := map[a := Id(0)]);
      Passes(env, key, b) && !NoStale(b) && !Inv(env, key, b, {}, {})
  {
    var b := EMPTY_BOOK.(addrs := map[a := Id(0)]);
    assert a in b.addrs;
    assert TriedIds(b.info) == {} && NewIds(b.info, {}) == {} && Nets(env, b.info) == {};
    CheckExact(env, key, b);
  }

  /** A book with one new entry, in bucket 0, with any totals and next id. */
  ghost function OneEntry(env: Env, key: Key, a: Service, count: map<Network, NewTriedCount>, nextId: nat): Book {
    Book(map[Id(0) := Info(a, a.host, 0, 0, 0, 0, 0, 0, 1, false, 0)], map[a := Id(0)], [Id(0)],
         map[NewSlotIn(env, key, a, 0) := Id(0)], map[], 1, 0, count, nextId)
  }

  lemma OnePasses(env: Env, key: Key, a: Service, counts: map<Network, NewTriedCount>, nextId: nat)
    requires key != 0 && |counts| == 1
    requires forall net | net in counts :: counts[net] == NewTriedCount(if net == env.network(a.host) then 1 else 0, 0)
    ensures Passes(env, key, OneEntry(env, key, a, counts, nextId)) && NoStale(OneEntry(env, key, a, counts, nextId))
    ensures Nets(env, OneEntry(env, key, a, counts, nextId).info) == {env.network(a.host)}
  {
    hide NewSlotIn;
    var b, s := OneEntry(env, key, a, counts, nextId), NewSlotIn(env, key, a, 0);
    assert NewIds(b.info, {}) == {Id(0)} && TriedIds(b.info) == {} && Refs(b.news, Id(0)) == {s};
    assert Nets(env, b.info) == {env.network(a.host)};
    assert s.bucket == 0 by { NewSlotRange(env, key, a, 0); }
    forall net ensures Totals(env, b.info, net) == NewTriedCount(if net == env.network(a.host) then 1 else 0, 0) {
      assert Within(env, b.info, {Id(0)}, net) == if net == env.network(a.host) then {Id(0)} else {};
      assert Within(env, b.info, {}, net) == {};
    }
  }

  /** A network in use without recorded totals is not noticed if another one is recorded in its place. */
  lemma TotalsUnnoticed(env: Env, key: Key, a: Service, other: Network)
    requires key != 0 && other != env.network(a.host)
    ensures var b := OneEntry(env, key, a, map[other := NewTriedCount(0, 0)], 1);
      Passes(env, key, b) && NoStale(b) && IdsOk(b.info, b.nextId) && !(Nets(env, b.info) <= b.counts.Keys)
        && !Inv(env, key, b, {}, {})
  {
    hide Passes, NoStale, NewSlotIn, Inv;
    OnePasses(env, key, a, map[other := NewTriedCount(0, 0)], 1);
    CheckExact(env, key, OneEntry(env, key, a, map[other := NewTriedCount(0, 0)], 1));
  }

  /** An id that is still to be given out is not noticed. */
  lemma IdUnnoticed(env: Env, key: Key, a: Service)
    requires key != 0
    ensures var b := OneEntry(env, key, a, map[env.network(a.host) := NewTriedCount(1, 0)], 0);
      Passes(env, key, b) && NoStale(b) && Nets(env, b.info) <= b.counts.Keys && !IdsOk(b.info, b.nextId)
        && !Inv(env, key, b, {}, {})
  {
    hide Passes, NoStale, NewSlotIn, Inv;
    var b := OneEntry(env, key, a, map[env.network(a.host) := NewTriedCount(1, 0)], 0);
    OnePasses(env, key, a, b.counts, 0);
    assert Id(0) in b.info;
    CheckExact(env, key, b);
  }
}
