/** The address manager: tables, indexes and counters updated in place. */
module AddrMan {
  import opened Options
  import opened Arith
  import opened AddrBook
  import opened AddrSteps

  const EMPTY: Id := Id(-1)

  /** An address manager that knows nothing. */
  const EMPTY_BOOK: Book := Book(map[], map[], [], map[], map[], 0, 0, map[], 0)

  // ---------------------------------------------------------------- bucket tables

  /** The occupied slots of a table. */
  ghost function Table(a: array2<Id>): map<Slot, Id>
    reads a
  {
    map i, j | 0 <= i < a.Length0 && 0 <= j < a.Length1 && a[i, j] != EMPTY :: Slot(i, j) := a[i, j]
  }

  ghost predicate InTable(a: array2<Id>, s: Slot) {
    s.bucket < a.Length0 && s.pos < a.Length1
  }

  lemma TableAt(a: array2<Id>, s: Slot)
    requires InTable(a, s)
    ensures a[s.bucket, s.pos] != EMPTY <==> s in Table(a)
    ensures s in Table(a) ==> Table(a)[s] == a[s.bucket, s.pos]
  {
    assert s == Slot(s.bucket, s.pos);
  }

  method Fill(a: array2<Id>, s: Slot, id: Id)
    requires InTable(a, s) && id != EMPTY
    modifies a
    ensures Table(a) == old(Table(a))[s := id]
  {
    a[s.bucket, s.pos] := id;
    forall t ensures t in Table(a) <==> t in old(Table(a))[s := id] {}
  }

  method Wipe(a: array2<Id>, s: Slot)
    requires InTable(a, s)
    modifies a
    ensures Table(a) == old(Table(a)) - {s}
  {
    a[s.bucket, s.pos] := EMPTY;
    forall t ensures t in Table(a) <==> t in old(Table(a)) - {s} {}
  }

  // ---------------------------------------------------------------- the manager

  class AddrManImpl {
    const env: Env
    const key: Key
    const vvNew: array2<Id>
    const vvTried: array2<Id>
    var nextId: nat
    var info: map<Id, Info>
    var addrs: map<Service, Id>
    var random: seq<Id>
    var nTried: int
    var nNew: int
    var lastGood: int
    var collisions: set<Id>
    var counts: map<Network, NewTriedCount>

    ghost function State(): Book
      reads this, vvNew, vvTried
    {
      Book(info, addrs, random, Table(vvNew), Table(vvTried), nNew, nTried, counts, nextId)
    }

    ghost predicate Shape()
      reads this
    {
      vvNew != vvTried && vvNew.Length0 == NEW_BUCKET_COUNT && vvNew.Length1 == BUCKET_SIZE
      && vvTried.Length0 == TRIED_BUCKET_COUNT && vvTried.Length1 == BUCKET_SIZE
    }

    /** The invariant for entries with any addresses and times, as a file may hold them. */
    ghost predicate HoldsTables(moving: set<Id>, bare: set<Id>)
      reads this, vvNew, vvTried
    {
      Shape() && TablesOk(env, key, State(), moving, bare)
    }

    /** The invariant while some entries are on their way between tables, and some are not yet in one. */
    ghost predicate Holds(moving: set<Id>, bare: set<Id>)
      reads this, vvNew, vvTried
    {
      Shape() && Inv(env, key, State(), moving, bare)
    }

    constructor (env: Env, key: Key)
      ensures this.env == env && this.key == key && fresh(vvNew) && fresh(vvTried)
      ensures Valid() && State() == EMPTY_BOOK && collisions == {} && lastGood == 1
    {
      this.env, this.key := env, key;
      vvNew := new Id[NEW_BUCKET_COUNT, BUCKET_SIZE]((i, j) => EMPTY);
      vvTried := new Id[TRIED_BUCKET_COUNT, BUCKET_SIZE]((i, j) => EMPTY);
      nextId, info, addrs, random, nTried, nNew := 0, map[], map[], [], 0, 0;
      lastGood, collisions, counts := 1, {}, map[];
      new;
      assert Table(vvNew) == map[] && Table(vvTried) == map[];
      EmptyOk(env, key);
      hide Inv, TablesOk, Table;
    }

    method SwapRandom(p: nat, q: nat, ghost moving: set<Id>, ghost bare: set<Id>)
      requires HoldsTables(moving, bare) && p < |random| && q < |random|
      modifies `info, `random
      ensures random == old(random)[p := old(random)[q]][q := old(random)[p]]
      ensures HoldsTables(moving, bare) && (old(Holds(moving, bare)) ==> Holds(moving, bare))
      ensures SameUse(old(info), info) && Kept(old(info), info, {})
    {
      ghost var b := State();
      hide Inv, TablesOk, Table, SameUse, Kept, Moved;
      RandomLive(env, key, b, moving, bare, p);
      RandomLive(env, key, b, moving, bare, q);
      SwapKept(env, key, b, moving, bare, p, q);
      if p == q { return; }
      var id1, id2 := random[p], random[q];
      var swapped := Moved(info, id1, q);
      info := Moved(swapped, id2, p);
      random := random[p := id2][q := id1];
      assert State() == Swapped(b, p, q);
    }

    /** The id an address is known under. */
    method Find(a: Service) returns (r: Option<Id>)
      requires Holds({}, {})
      ensures r.Some? ==> r.value in info && info[r.value].addr == a
      ensures r.None? ==> forall id | id in info :: info[id].addr != a
    {
      FindFacts(env, key, State(), a);
      if a !in addrs { return None; }
      r := Some(addrs[a]);
    }

    method Create(a: Service, time: int, services: bv64, source: NetAddr) returns (id: Id)
      requires Holds({}, {}) && a !in addrs
      modifies this
      ensures id == Id(old(nextId)) && id !in old(info) && nextId == old(nextId) + 1
      ensures info == old(info)[id := Info(a, source, time, services, 0, 0, 0, 0, 0, false, |old(random)|)]
      ensures Holds({}, {id}) && collisions == old(collisions) && lastGood == old(lastGood)
    {
      ghost var b := State();
      ghost var i := Info(a, source, time, services, 0, 0, 0, 0, 0, false, -1);
      hide Inv, TablesOk, Table, CountNew, Kept;
      CreateOk(env, key, b, {}, i);
      assert {} + {Id(b.nextId)} == {Id(b.nextId)};
      id := Id(nextId);
      nextId := nextId + 1;
      info := info[id := Info(a, source, time, services, 0, 0, 0, 0, 0, false, |random|)];
      addrs := addrs[a := id];
      random := random + [id];
      nNew := nNew + 1;
      counts := CountNew(env, counts, a.host, 1);
      assert State() == Created(env, b, i);
    }

    /** Removes an entry that no table refers to. */
    method Delete(id: Id, ghost moving: set<Id>, ghost bare: set<Id>)
      requires HoldsTables(moving, bare) && id in info && id in bare && id !in moving
      modifies this
      ensures HoldsTables(moving, bare - {id}) && (old(Holds(moving, bare)) ==> Holds(moving, bare - {id}))
      ensures id !in info && Kept(old(info), info, {id}) && addrs == old(addrs) - {old(info)[id].addr}
      ensures collisions == old(collisions) && lastGood == old(lastGood) && nextId == old(nextId)
          && nTried == old(nTried)
    {
      hide Inv, TablesOk, Table, SameUse, Kept, CountNew;
      RandomPlace(env, key, State(), moving, bare, id);
      SwapRandom(info[id].randomPos, |random| - 1, moving, bare);
      ghost var b := State();
      SameUseHas(old(info), info, id);
      PopKept(env, key, b, moving, bare, id, old(info));
      counts := CountNew(env, counts, info[id].addr.host, -1);
      random := random[..|random| - 1];
      addrs := addrs - {info[id].addr};
      info := info - {id};
      nNew := nNew - 1;
      assert State() == Popped(env, b, id);
    }

    /** Empties a new slot, deleting the entry if that was its last one. */
    method ClearNew(s: Slot, ghost moving: set<Id>, ghost bare: set<Id>)
      requires Holds(moving, bare) && InTable(vvNew, s)
      modifies this, vvNew
      ensures Holds(moving, bare) && Table(vvNew) == old(Table(vvNew)) - {s}
      ensures Kept(old(info), info, if s in old(Table(vvNew)) then {old(Table(vvNew))[s]} else {})
      ensures collisions == old(collisions) && lastGood == old(lastGood) && nextId == old(nextId)
          && nTried == old(nTried)
    {
      hide Inv, TablesOk, Table, Kept;
      TableAt(vvNew, s);
      KeptSelf(info);
      var id := vvNew[s.bucket, s.pos];
      if id == EMPTY {
        assert Table(vvNew) - {s} == Table(vvNew);
        return;
      }
      ghost var b := State();
      DropRefOk(env, key, b, moving, bare, s);
      KeptRefs(info, id, info[id].refCount - 1);
      info := info[id := info[id].(refCount := info[id].refCount - 1)];
      Wipe(vvNew, s);
      assert State() == DropRef(b, s);
      if info[id].refCount == 0 {
        InvTables(env, key, State(), moving, bare + {id});
        Delete(id, moving, bare + {id});
        KeptTwice(old(info), b.info[id := b.info[id].(refCount := 0)], info, {id}, {id});
        assert bare + {id} - {id} == bare && {id} + {id} == {id};
      }
    }

    /** Takes an entry out of one new slot. */
    method DropReference(id: Id, s: Slot, ghost bare: set<Id>)
      requires id in info && InTable(vvNew, s) && s in Table(vvNew) && Table(vvNew)[s] == id
      requires Holds({}, bare) && bare <= {id}
      modifies `info, vvNew
      ensures info == WithRefs(old(info), id, old(info)[id].refCount - 1) && Table(vvNew) == old(Table(vvNew)) - {s}
      ensures Holds({}, if old(info)[id].refCount == 1 then {id} else {})
    {
      hide Inv, TablesOk, Table;
      ghost var b := State();
      DropRefOk(env, key, b, {}, bare, s);
      assert bare == {} && bare + {id} == {id};
      info := info[id := info[id].(refCount := info[id].refCount - 1)];
      Wipe(vvNew, s);
      assert State() == DropRef(b, s);
    }

    /** Takes an entry out of every new bucket it is in. */
    method RemoveFromNew(id: Id)
      requires Holds({}, {}) && id in info && info[id].refCount > 0
      modifies `info, vvNew
      ensures Holds({}, {id}) && Table(vvNew) == old(Table(vvNew)) - Refs(old(Table(vvNew)), id)
      ensures info == WithRefs(old(info), id, 0)
    {
      hide Inv, TablesOk, Table, Refs, OnlyDropped, Scanned, NewSlotIn, NewBucket;
      ghost var b := State();
      var a := info[id].addr;
      var start := NewBucket(env, key, a, info[id].source);
      NewBucketRange(env, key, a, info[id].source);
      IdLive(env, key, b, {}, {}, id);
      DroppedNone(b.news, id);
      ScannedNone(env, key, a, b.news, id, start);
      var n := 0;
      while n < NEW_BUCKET_COUNT
        invariant 0 <= n <= NEW_BUCKET_COUNT && id in info && info == WithRefs(b.info, id, info[id].refCount)
        invariant Holds({}, if info[id].refCount == 0 then {id} else {})
        invariant OnlyDropped(b.news, Table(vvNew), id) && Scanned(env, key, a, Table(vvNew), id, start, n)
      {
        var bucket := (start + n) % NEW_BUCKET_COUNT;
        var s := NewSlotIn(env, key, a, bucket);
        NewSlotRange(env, key, a, bucket);
        TableAt(vvNew, s);
        ScannedStep(env, key, a, Table(vvNew), id, start, n, s);
        if vvNew[s.bucket, s.pos] == id {
          DroppedStep(b.news, Table(vvNew), id, s);
          DropReference(id, s, if info[id].refCount == 0 then {id} else {});
          if info[id].refCount == 0 { break; }
        }
        n := n + 1;
      }
      if info[id].refCount != 0 { ScannedAll(env, key, State(), id, start); }
      DroppedAll(env, key, b.news, State(), id);
    }

    /** Takes the entry in a tried slot out of the tried table. */
    method TakeFromTried(t: Slot, ghost id: Id) returns (e: Id)
      requires Holds({id}, {}) && InTable(vvTried, t) && t in Table(vvTried)
      modifies `info, `nTried, `counts, vvTried
      ensures e == old(Table(vvTried))[t] && e in old(info) && e != id && Holds({id, e}, {})
      ensures info == WithTried(old(info), e, false) && Table(vvTried) == old(Table(vvTried)) - {t}
    {
      hide Inv, TablesOk, Table, TriedSlot, CountTried;
      TableAt(vvTried, t);
      e := vvTried[t.bucket, t.pos];
      ghost var b := State();
      TriedFacts(env, key, b, {id}, {}, t);
      LeaveTriedOk(env, key, b, {id}, {}, e);
      info := info[e := info[e].(inTried := false)];
      Wipe(vvTried, t);
      nTried := nTried - 1;
      counts := CountTried(env, counts, info[e].addr.host, -1);
      assert State() == LeaveTried(env, key, b, e) && {id} + {e} == {id, e};
    }

    /** Puts an entry into its own slot of the new table. */
    method ReturnToNew(e: Id, home: Slot, ghost id: Id)
      requires Holds({id, e}, {}) && e in info && e != id && home !in Table(vvNew) && InTable(vvNew, home)
      requires home == NewSlotIn(env, key, info[e].addr, home.bucket)
      modifies `info, `nNew, `counts, vvNew
      ensures Holds({id}, {}) && info == WithRefs(old(info), e, 1) && Table(vvNew) == old(Table(vvNew))[home := e]
    {
      hide Inv, TablesOk, Table, NewSlotIn, CountNew;
      ghost var b := State();
      MovingFacts(env, key, b, {id, e}, {}, e);
      IdLive(env, key, b, {id, e}, {}, e);
      EnterNewOk(env, key, b, {id, e}, {}, e);
      assert {id, e} - {e} == {id} && {} + {e} == {e} && {e} - {e} == {};
      SetRefOk(env, key, EnterNew(env, b, e), {id}, {e}, home, e);
      info := info[e := info[e].(refCount := 1)];
      Fill(vvNew, home, e);
      nNew := nNew + 1;
      counts := CountNew(env, counts, info[e].addr.host, 1);
      assert State() == SetRef(EnterNew(env, b, e), home, e);
    }

    /** Moves the entry in a tried slot back to the new table, clearing its place there. */
    method Evict(t: Slot, ghost id: Id)
      requires Holds({id}, {}) && id in info && InTable(vvTried, t) && t in Table(vvTried)
      modifies this, vvNew, vvTried
      ensures Holds({id}, {}) && Table(vvTried) == old(Table(vvTried)) - {t}
      ensures var e := old(Table(vvTried))[t];
              e in old(info)
                && Table(vvNew) == old(Table(vvNew))[NewSlot(env, key, old(info)[e].addr, old(info)[e].source) := e]
      ensures id in info && Kept(old(info), info, old(info).Keys)
      ensures collisions == old(collisions) && lastGood == old(lastGood) && nextId == old(nextId)
    {
      hide Inv, TablesOk, Table, Kept, NewSlotIn, NewSlot;
      var e := TakeFromTried(t, id);
      KeptTried(old(info), e, false);
      ghost var c := State();
      var home := NewSlot(env, key, info[e].addr, info[e].source);
      NewSlotFacts(env, key, info[e].addr, info[e].source);
      OthersReferenced(env, key, c, {id, e}, home);
      ClearNew(home, {id, e}, {});
      KeptBoth(c.info, info, c.news, home, id, e);
      KeptRefs(info, e, 1);
      ghost var d := info;
      ReturnToNew(e, home, id);
      KeptAll(old(info), c.info, d, info);
    }

    /** Takes an entry out of the new table altogether. */
    method LeaveNewTable(id: Id)
      requires Holds({}, {}) && id in info && info[id].refCount > 0
      modifies `info, `nNew, `counts, vvNew
      ensures Holds({id}, {}) && Table(vvNew) == old(Table(vvNew)) - Refs(old(Table(vvNew)), id)
      ensures info == WithRefs(old(info), id, 0)
    {
      hide Inv, TablesOk, Table, Refs, CountNew;
      RemoveFromNew(id);
      ghost var b := State();
      LeaveNewOk(env, key, b, {}, {id}, id);
      assert {} + {id} == {id} && {id} - {id} == {};
      nNew := nNew - 1;
      counts := CountNew(env, counts, info[id].addr.host, -1);
      assert State() == LeaveNew(env, b, id);
    }

    /** Puts an entry into its tried slot, which is empty. */
    method EnterTriedTable(id: Id, t: Slot)
      requires Holds({id}, {}) && id in info && info[id].lastSuccess > 0
      requires t == TriedSlot(env, key, info[id].addr) && InTable(vvTried, t) && t !in Table(vvTried)
      modifies `info, `nTried, `counts, vvTried
      ensures Holds({}, {}) && info == WithTried(old(info), id, true) && Table(vvTried) == old(Table(vvTried))[t := id]
    {
      hide Inv, TablesOk, Table, TriedSlot, CountTried;
      ghost var b := State();
      EnterTriedOk(env, key, b, {id}, {}, id);
      IdLive(env, key, b, {id}, {}, id);
      assert {id} - {id} == {};
      Fill(vvTried, t, id);
      nTried := nTried + 1;
      info := info[id := info[id].(inTried := true)];
      counts := CountTried(env, counts, info[id].addr.host, 1);
      assert State() == EnterTried(env, key, b, id);
    }

    /** Moves an entry to the tried table; an entry already in its slot goes back to the new table. */
    method MakeTried(id: Id)
      requires Holds({}, {}) && id in info && info[id].refCount > 0 && info[id].lastSuccess > 0
      modifies this, vvNew, vvTried
      ensures Holds({}, {}) && id in info && info[id].inTried && Kept(old(info), info, old(info).Keys)
      ensures var t := TriedSlot(env, key, old(info)[id].addr);
              Table(vvTried) == old(Table(vvTried))[t := id]
              && Table(vvNew) == NewsAfter(env, key, old(State()), id, t)
      ensures collisions == old(collisions) && lastGood == old(lastGood) && nextId == old(nextId)
    {
      hide Inv, TablesOk, Table, Kept, Refs, TriedSlot;
      var t := TriedSlot(env, key, info[id].addr);
      TriedSlotRange(env, key, info[id].addr);
      ghost var b := State();
      EvictLive(env, key, b, t);
      LeaveNewTable(id);
      ghost var c := info;
      KeptSelf(c);
      KeptMore(c, c, {}, c.Keys);
      TableAt(vvTried, t);
      if vvTried[t.bucket, t.pos] != EMPTY {
        Evict(t, id);
        assert Table(vvTried)[t := id] == b.tried[t := id];
      }
      KeptMoving(b.info, info, id);
      EnterTriedTable(id, t);
    }

    // ---------------------------------------------------------------- operations

    /** The new table by address. */
    ghost function NewView(): map<Slot, Service>
      reads this, vvNew
    {
      View(info, Table(vvNew))
    }

    /** The tried table by address. */
    ghost function TriedView(): map<Slot, Service>
      reads this, vvTried
    {
      View(info, Table(vvTried))
    }

    ghost predicate Valid()
      reads this, vvNew, vvTried
    {
      Holds({}, {}) && CollisionsOk(env, key, info, Table(vvTried), collisions, nextId)
    }

    /** Puts an entry into a new slot if the slot is free, or what it holds may be overwritten. */
    method PlaceNew(id: Id, s: Slot, now: int) returns (inserted: bool)
      requires id in info && !info[id].inTried && info[id].refCount < NEW_BUCKETS_PER_ADDRESS
      requires Holds({}, if info[id].refCount == 0 then {id} else {})
      requires InTable(vvNew, s) && s == NewSlotIn(env, key, info[id].addr, s.bucket)
      modifies this, vvNew
      ensures Holds({}, {}) && Kept(old(info), info, old(info).Keys)
      ensures Table(vvNew) == if inserted then old(Table(vvNew))[s := id] else old(Table(vvNew))
      ensures id in info <==> inserted || old(info)[id].refCount != 0
      ensures inserted <==> Replaceable(old(info), old(Table(vvNew)), id, s, now)
      ensures collisions == old(collisions) && lastGood == old(lastGood) && nextId == old(nextId)
    {
      hide Inv, TablesOk, Table, Kept, NewSlotIn, IsTerrible;
      TableAt(vvNew, s);
      ghost var b := State();
      ghost var bare := if info[id].refCount == 0 then {id} else {};
      IdLive(env, key, b, {}, bare, id);
      NewLive(env, key, b, {}, bare, s);
      BareAbsent(env, key, b, bare, id, s);
      KeptSelf(info);
      KeptMore(info, info, {}, info.Keys);
      var there := vvNew[s.bucket, s.pos];
      inserted := there == EMPTY;
      if there != id {
        if !inserted {
          if IsTerrible(info[there], now) || (info[there].refCount > 1 && info[id].refCount == 0) { inserted := true; }
        }
        if inserted {
          ClearNew(s, {}, bare);
          KeptPlaced(b.info, info, b.news, s, id);
          SetRefOk(env, key, State(), {}, bare, s, id);
          assert bare - {id} == {};
          ghost var c := State();
          info := info[id := info[id].(refCount := info[id].refCount + 1)];
          Fill(vvNew, s, id);
          assert State() == SetRef(c, s, id);
        } else if info[id].refCount == 0 {
          InvTables(env, key, State(), {}, bare);
          Delete(id, {}, bare);
          KeptMore(b.info, info, {id}, b.info.Keys);
          assert bare - {id} == {};
        }
      }
    }

    /** News of a known address: updates its time and services, and decides whether it may get another slot. */
    method Refresh(id: Id, time: int, services: bv64, late: int, now: int, lucky: bool) returns (ok: bool)
      requires Holds({}, {}) && id in info
      modifies `info
      ensures Holds({}, {}) && info == old(info)[id := Refreshed(old(info)[id], time, services, late, now)]
      ensures ok ==> !info[id].inTried && 0 < info[id].refCount < NEW_BUCKETS_PER_ADDRESS
      ensures ok <==> Gains(info[id], time, lucky)
    {
      hide Inv, TablesOk, Table, Refreshed;
      ghost var b := State();
      EntryFacts(env, key, b, {}, {}, id);
      var i := RefreshRecord(info[id], time, services, late, now);
      TouchOk(env, key, b, {}, {}, id, i);
      info := info[id := i];
      assert State() == b.(info := b.info[id := i]);
      ok := time > info[id].time && !info[id].inTried && info[id].refCount != NEW_BUCKETS_PER_ADDRESS && lucky;
    }

    /** The entry just created, with the time an announcement claims less a penalty. */
    method CreateLate(a: Service, time: int, services: bv64, source: NetAddr, late: int) returns (id: Id)
      requires Holds({}, {}) && a !in addrs
      modifies this
      ensures id == Id(old(nextId)) && nextId == old(nextId) + 1
      ensures info == old(info)[id := Arrived(a, time, services, source, late, |old(random)|)]
      ensures Holds({}, {id}) && collisions == old(collisions) && lastGood == old(lastGood)
    {
      hide Inv, TablesOk, Table;
      id := Create(a, time, services, source);
      ghost var b := State();
      var i := info[id].(time := if info[id].time - late > 0 then info[id].time - late else 0);
      TouchOk(env, key, b, {}, {id}, id, i);
      info := info[id := i];
      assert State() == b.(info := b.info[id := i]);
    }

    /** The entry an announced address may get a new slot for: a known one that qualifies, or one just created. */
    method Prepare(a: Service, time: int, services: bv64, source: NetAddr, late: int, now: int, lucky: bool)
      returns (r: Option<Id>)
      requires Holds({}, {})
      modifies this
      ensures r.None? ==> Holds({}, {})
      ensures r.Some? ==> r.value in info && info[r.value].addr == a && !info[r.value].inTried
                          && info[r.value].refCount < NEW_BUCKETS_PER_ADDRESS
                          && Holds({}, if info[r.value].refCount == 0 then {r.value} else {})
      ensures Grown(old(info), info, old(nextId)) && nextId >= old(nextId)
      ensures forall id | id in old(info) && old(info)[id].addr == a ::
                info == old(info)[id := Refreshed(old(info)[id], time, services, late, now)]
                && r == (if Gains(info[id], time, lucky) then Some(id) else None)
                  && (r.Some? ==> info[id].refCount != 0)
      ensures (forall id | id in old(info) :: old(info)[id].addr != a) ==>
                r.Some? && r.value !in old(info)
                  && info == old(info)[r.value := Arrived(a, time, services, source, late, |old(random)|)]
      ensures collisions == old(collisions) && lastGood == old(lastGood)
    {
      hide Inv, TablesOk, Table;
      ghost var b := State();
      var known := Find(a);
      FindFacts(env, key, b, a);
      if known.Some? {
        var id := known.value;
        var ok := Refresh(id, time, services, late, now, lucky);
        GrownTouched(b.info, id, info[id], b.nextId);
        SameAddrUnique(env, key, b, id);
        hide Grown;
        r := if ok then Some(id) else None;
      } else {
        FreshId(env, key, b);
        var id := CreateLate(a, time, services, source, late);
        GrownCreated(b.info, id, info[id], b.nextId);
        hide Grown;
        r := Some(id);
      }
    }

    /** Learns of one address. The clock and the outcome of the stochastic test are inputs. */
    method AddSingle(a: Service, time: int, services: bv64, source: NetAddr, penalty: int, now: int,
                     lucky: bool) returns (r: bool)
      requires Valid()
      modifies this, vvNew
      ensures Valid()
          && AddedOne(env, key, old(State()), State(), Announced(a, time, services, now, lucky), source, penalty, r)
      ensures Displaces(env, key, old(State()), State(), a, source, now)
      ensures env.routable(a.host) ==>
          Freshens(old(info), info, a, time, services, if a.host == source then 0 else penalty, now)
          && Introduces(old(info), info, a, time, services, source, if a.host == source then 0 else penalty)
      ensures collisions == old(collisions) && lastGood == old(lastGood)
    {
      hide AddedOne, Displaces, Freshens, Introduces;
      r := Announce(a, time, services, source, penalty, now, lucky);
      ghost var x := Announced(a, time, services, now, lucky);
      AddedDisplaces(env, key, old(State()), State(), x, source, penalty, r);
      if env.routable(a.host) { AddedFreshens(env, key, old(State()), State(), x, source, penalty, r); }
    }

    method Announce(a: Service, time: int, services: bv64, source: NetAddr, penalty: int, now: int, lucky: bool)
      returns (r: bool)
      requires Valid()
      modifies this, vvNew
      ensures Valid()
          && AddedOne(env, key, old(State()), State(), Announced(a, time, services, now, lucky), source, penalty, r)
      ensures collisions == old(collisions) && lastGood == old(lastGood)
    {
      hide Inv, TablesOk, Table, Kept, NewSlotIn, NewSlot, View, CollisionsOk, Live, IsTerrible, Grown, Replaceable,
           Welcome,
           Refreshed, Gains, Learned;
      if !env.routable(a.host) { return false; }
      ghost var b := State();
      var late := if a.host == source then 0 else penalty;
      var p := Prepare(a, time, services, source, late, now, lucky);
      ghost var c := State();
      Prepared(env, key, b, c.info, a, time, services, source, late, now,
               if p.Some? then p.value else EMPTY, |b.random|);
      if p.None? {
        ViewsGrown(env, key, b, c, {}, {}, {}, {});
        CollisionsGrown(env, key, b, c, collisions);
        return false;
      }
      var id := p.value;
      ghost var bare: set<Id> := if info[id].refCount == 0 then {id} else {};
      ViewsGrown(env, key, b, c, {}, {}, {}, bare);
      var s := NewSlot(env, key, a, source);
      NewSlotFacts(env, key, a, source);
      WelcomeIs(env, key, b, c.info, id, s, now);
      ReplaceableIs(b.info, c.info, b.news, id, s, time, services, late, now);
      r := PlaceNew(id, s, now);
      LearnedKept(b.info, c.info, info, a, time, services, source, late, now);
      GrownKept(b.info, c.info, info, b.nextId);
      CollisionsGrown(env, key, b, State(), collisions);
      ViewsPlaced(env, key, c, State(), bare, id, s, r);
    }

    /** Notes a successful connection in the record of an address, if there is one. */
    method Succeed(a: Service, time: int) returns (r: Option<Id>)
      requires Holds({}, {}) && time > 0
      modifies `info, `lastGood
      ensures Holds({}, {}) && lastGood == time
      ensures r.None? ==> info == old(info) && forall id | id in info :: info[id].addr != a
      ensures r.Some? ==> r.value in old(info) && old(info)[r.value].addr == a
                          && info == old(info)[r.value := Successful(old(info)[r.value], time)]
    {
      hide Inv, TablesOk, Table;
      lastGood := time;
      r := Find(a);
      if r.Some? {
        ghost var b := State();
        var i := info[r.value].(lastSuccess := time, lastTry := time, attempts := 0);
        TouchOk(env, key, b, {}, {}, r.value, i);
        info := info[r.value := i];
        assert State() == b.(info := b.info[r.value := i]);
      }
    }

    /** A connection to an address succeeded: moves it to the tried table, unless that would evict an entry that
        is to be tried out first. */
    method Good(a: Service, testBeforeEvict: bool, time: int) returns (r: bool)
      requires Valid() && time > 0
      modifies this, vvNew, vvTried
      ensures Valid() && lastGood == time
      ensures (forall id | id in old(info) :: old(info)[id].addr != a) ==>
          !r && info == old(info) && collisions == old(collisions)
      ensures forall id | id in old(info) && old(info)[id].addr == a ::
                (r <==> !old(info)[id].inTried && !(testBeforeEvict && TriedSlot(env, key, a) in old(Table(vvTried))))
                && id in info && (r ==> info[id].inTried)
                && collisions == (if r || old(info)[id].inTried || |old(collisions)| >= SET_TRIED_COLLISION_SIZE
                                  then old(collisions) else old(collisions) + {id})
      ensures Succeeded(old(info), info, a, time)
      ensures forall id | id in info && info[id].addr == a ::
                info[id].lastSuccess == time && info[id].lastTry == time && info[id].attempts == 0
                && id in old(info) && info[id].time == old(info)[id].time
      ensures forall id | id in info && info[id].addr != a :: id in old(info) && SameRecord(old(info)[id], info[id])
      ensures TriedView() == if r then old(TriedView())[TriedSlot(env, key, a) := a] else old(TriedView())
      ensures NewView() == if r then NewViewAfter(env, key, old(State()), a) else old(NewView())
      ensures r ==> Promoted(env, key, old(State()), State(), a)
    {
      hide Promoted, Inv, TablesOk, Table, Kept, TriedSlot, View, CollisionsOk, Live, Grown, NewViewAfter, NewsAfter,
           Succeeded;
      ghost var b := State();
      var known := Succeed(a, time);
      if known.None? {
        SucceededNone(info, a, time);
        SucceededIs(info, info, a, time);
        return false;
      }
      var id := known.value;
      ghost var c := State();
      SucceededOne(b.info, id, time);
      Touched(env, key, b, c, id);
      CollisionsGrown(env, key, b, c, collisions);
      EntryFacts(env, key, c, {}, {}, id);
      SucceededIs(b.info, c.info, a, time);
      if info[id].inTried { return false; }
      var t := TriedSlot(env, key, a);
      TriedSlotRange(env, key, a);
      TableAt(vvTried, t);
      if testBeforeEvict && vvTried[t.bucket, t.pos] != EMPTY {
        if |collisions| < SET_TRIED_COLLISION_SIZE {
          CollisionAdded(env, key, c, collisions, id);
          collisions := collisions + {id};
        }
        return false;
      }
      MakeTried(id);
      GrownSelfKept(b.info, c.info, info, b.nextId);
      SucceededKept(b.info, c.info, info, a, time);
      CollisionsGrown(env, key, b, State(), collisions);
      ViewsTried(env, key, c, State(), id);
      AfterSame(env, key, b, c, id);
      AfterPromotes(env, key, b, State(), a);
      SucceededIs(b.info, info, a, time);
      r := true;
    }

    /** Learns of several addresses from one source. */
    method Add(list: seq<Announced>, source: NetAddr, penalty: int)
      returns (r: bool, ghost trail: seq<Book>, ghost took: seq<bool>)
      requires Valid()
      modifies this, vvNew
      ensures Valid() && TriedView() == old(TriedView()) && collisions == old(collisions) && lastGood == old(lastGood)
      ensures AddedAll(env, key, list, source, penalty, trail, took, old(State()), State()) && |took| == |list|
      ensures forall k | 0 <= k < |list| ::
          Displaces(env, key, trail[k], trail[k + 1], list[k].addr, source, list[k].now)
      ensures r <==> true in took
      ensures !r ==> NewView() == old(NewView())
      ensures Announces(env, key, list, source, old(NewView()), NewView())
      ensures KnownOrRoutable(env, old(info), info)
    {
      hide Inv, TablesOk, Table, View, CollisionsOk, NewSlot, Announces, Holds, AddedOne, AddedAll, KnownOrRoutable,
           Displaces, Freshens, Introduces;
      var added := 0;
      AnnouncesNone(env, key, list, source, NewView());
      KnownSelf(env, info);
      trail, took := [State()], [];
      AddedNone(env, key, list, source, penalty, State());
      for k := 0 to |list|
        invariant Valid() && TriedView() == old(TriedView()) && collisions == old(collisions)
            && lastGood == old(lastGood)
        invariant AddedAll(env, key, list, source, penalty, trail, took, old(State()), State()) && |took| == k
        invariant added >= 0 && (added == 0 ==> NewView() == old(NewView()))
        invariant added > 0 <==> true in took
        invariant Announces(env, key, list, source, old(NewView()), NewView()) && KnownOrRoutable(env, old(info), info)
      {
        ghost var b := State();
        var x := list[k];
        var one := AddSingle(x.addr, x.time, x.services, source, penalty, x.now, x.lucky);
        AddedViews(env, key, b, State(), x, source, penalty, one);
        AnnouncesMore(env, key, list, source, old(NewView()), View(b.info, b.news), k);
        KnownMore(env, old(info), b.info, info);
        AddedMore(env, key, list, source, penalty, trail, took, old(State()), b, State(), one);
        trail, took := trail + [State()], took + [one];
        if one { added := added + 1; }
      }
      r := added > 0;
      AllDisplace(env, key, list, source, penalty, trail, took, old(State()), State());
    }

    /** Replaces the statistics of an entry. */
    method Touch(id: Id, i: Info)
      requires Valid() && id in info && SamePlace(info[id], i) && TimeOk(i)
      modifies `info
      ensures Valid() && info == old(info)[id := i] && NewView() == old(NewView()) && TriedView() == old(TriedView())
    {
      hide Inv, TablesOk, Table, View, CollisionsOk;
      ghost var b := State();
      TouchOk(env, key, b, {}, {}, id, i);
      info := info[id := i];
      assert State() == b.(info := b.info[id := i]);
      Touched(env, key, b, State(), id);
      CollisionsGrown(env, key, b, State(), collisions);
    }

    /** An attempt to connect, counted as a failure unless one was counted since the last success. */
    method Attempt(a: Service, countFailure: bool, time: int)
      requires Valid() && time >= 0
      modifies `info
      ensures Valid() && NewView() == old(NewView()) && TriedView() == old(TriedView())
      ensures (forall id | id in old(info) :: old(info)[id].addr != a) ==> info == old(info)
      ensures forall id | id in old(info) && old(info)[id].addr == a ::
                var i, counts := old(info)[id], countFailure && old(info)[id].lastCountAttempt < lastGood;
                info == old(info)[id := i.(lastTry := time,
                                           lastCountAttempt := if counts then time else i.lastCountAttempt,
                                           attempts := if counts then i.attempts + 1 else i.attempts)]
    {
      hide Inv, TablesOk, Table, View, CollisionsOk;
      var known := Find(a);
      if known.Some? {
        var id := known.value;
        SameAddrUnique(env, key, State(), id);
        EntryFacts(env, key, State(), {}, {}, id);
        var i := info[id].(lastTry := time);
        if countFailure && i.lastCountAttempt < lastGood {
          i := i.(lastCountAttempt := time, attempts := i.attempts + 1);
        }
        Touch(id, i);
      }
    }

    /** A connection is up: refreshes the time of an address, at most every 20 minutes. */
    method Connected(a: Service, time: int)
      requires Valid()
      modifies `info
      ensures Valid() && NewView() == old(NewView()) && TriedView() == old(TriedView())
      ensures forall id | id in old(info) ::
                id in info && info[id] == if old(info)[id].addr == a && time - old(info)[id].time > 1200
                                          then old(info)[id].(time := time) else old(info)[id]
      ensures info.Keys == old(info).Keys
    {
      hide Inv, TablesOk, Table, View, CollisionsOk;
      var known := Find(a);
      if known.Some? {
        var id := known.value;
        SameAddrUnique(env, key, State(), id);
        EntryFacts(env, key, State(), {}, {}, id);
        if time - info[id].time > 1200 {
          Touch(id, info[id].(time := time));
        }
      }
    }

    method SetServices(a: Service, services: bv64)
      requires Valid()
      modifies `info
      ensures Valid() && NewView() == old(NewView()) && TriedView() == old(TriedView())
      ensures forall id | id in old(info) ::
                id in info && info[id] ==
                  if old(info)[id].addr == a then old(info)[id].(services := services) else old(info)[id]
      ensures info.Keys == old(info).Keys
    {
      hide Inv, TablesOk, Table, View, CollisionsOk;
      var known := Find(a);
      if known.Some? {
        var id := known.value;
        SameAddrUnique(env, key, State(), id);
        EntryFacts(env, key, State(), {}, {}, id);
        Touch(id, info[id].(services := services));
      }
    }

    /** Decides one pending collision; returns whether it is settled. */
    method ResolveOne(id: Id, now: int) returns (settled: bool)
      requires Valid() && now > 0
      modifies this, vvNew, vvTried
      ensures Valid() && collisions == old(collisions)
      ensures settled <==> Verdict(env, key, old(State()), id, now) != Wait
      ensures lastGood == if Verdict(env, key, old(State()), id, now) == Replace then now else old(lastGood)
      ensures Decided(env, key, old(State()), State(), id, now)
      ensures Spared(env, key, old(State()), State(), id, now)
      ensures settled <==> !StaysPending(env, key, old(State()), id, now)
      ensures forall s | s in old(TriedView()) :: s in TriedView()
    {
      hide Inv, TablesOk, Table, View, CollisionsOk, TriedSlot, NewViewAfter, Kept, Succeeded, Spared, StaysPending;
      settled := DecideOne(id, now);
      DecidedSpares(env, key, old(State()), State(), id, now);
    }

    method DecideOne(id: Id, now: int) returns (settled: bool)
      requires Valid() && now > 0
      modifies this, vvNew, vvTried
      ensures Valid() && collisions == old(collisions)
      ensures settled <==> Verdict(env, key, old(State()), id, now) != Wait
      ensures lastGood == if Verdict(env, key, old(State()), id, now) == Replace then now else old(lastGood)
      ensures Decided(env, key, old(State()), State(), id, now)
      ensures forall s | s in old(TriedView()) :: s in TriedView()
    {
      hide Inv, TablesOk, Table, View, CollisionsOk, TriedSlot, NewViewAfter, Kept, Succeeded;
      if id !in info { return true; }
      var t := TriedSlot(env, key, info[id].addr);
      TriedSlotRange(env, key, info[id].addr);
      TableAt(vvTried, t);
      if !env.valid(info[id].addr.host) { return true; }
      EvictLive(env, key, State(), t);
      if vvTried[t.bucket, t.pos] != EMPTY {
        var there := info[vvTried[t.bucket, t.pos]];
        if now - there.lastSuccess < REPLACEMENT {
          settled := true;
        } else if now - there.lastTry < REPLACEMENT {
          if now - there.lastTry > 60 {
            var moved := Good(info[id].addr, false, now);
            settled := true;
          } else {
            settled := false;
          }
        } else if now - info[id].lastSuccess > TEST_WINDOW {
          var moved := Good(info[id].addr, false, now);
          settled := true;
        } else {
          settled := false;
        }
      } else {
        var moved := Good(info[id].addr, false, now);
        settled := true;
      }
    }

    /** Decides the pending collisions in turn. */
    method ResolveCollisions(clock: Id -> int) returns (ghost order: seq<Id>, ghost trail: seq<Book>)
      requires Valid() && forall id :: clock(id) > 0
      modifies this, vvNew, vvTried
      ensures Valid() && collisions <= old(collisions)
      ensures (forall j, k | 0 <= j < k < |order| :: order[j] != order[k])
          && forall id :: id in order <==> id in old(collisions)
      ensures DecidedAll(env, key, order, clock, trail, collisions, old(State()), State())
      ensures forall k | 0 <= k < |order| :: Spared(env, key, trail[k], trail[k + 1], order[k], clock(order[k]))
      ensures forall k | 0 <= k < |order| ::
          order[k] in collisions <==> StaysPending(env, key, trail[k], order[k], clock(order[k]))
      ensures forall s | s in old(TriedView()) :: s in TriedView()
      ensures KnownOrRoutable(env, old(info), info)
    {
      hide Inv, TablesOk, Table, View, CollisionsOk, Verdict, NewViewAfter, TriedSlot, Succeeded, Decided, DecidedAll,
           KnownOrRoutable, Spared, StaysPending;
      var todo := collisions;
      order, trail := [], [State()];
      DecidedNone(env, key, clock, collisions, State());
      KnownSelf(env, info);
      while todo != {}
        invariant Valid() && todo <= collisions <= old(collisions)
        invariant (forall j, k | 0 <= j < k < |order| :: order[j] != order[k])
        invariant forall id :: id in order <==> id in old(collisions) && id !in todo
        invariant DecidedAll(env, key, order, clock, trail, collisions, old(State()), State())
        invariant forall s | s in old(TriedView()) :: s in TriedView()
        invariant KnownOrRoutable(env, old(info), info)
        decreases todo
      {
        var id :| id in todo;
        todo := todo - {id};
        ghost var b, pending := State(), collisions;
        var settled := ResolveOne(id, clock(id));
        DecidedKnown(env, key, b, State(), id, clock(id));
        KnownMore(env, old(info), b.info, info);
        if settled {
          CollisionsFewer(env, key, State(), collisions, id);
          collisions := collisions - {id};
        }
        DecidedMore(env, key, order, clock, trail, pending, collisions, id, old(State()), b, State());
        order, trail := order + [id], trail + [State()];
      }
      AllSpared(env, key, order, clock, trail, collisions, old(State()), State());
    }

    /** The tried address that a pending collision would evict, to be tried out. */
    method SelectTriedCollision(pick: Id) returns (r: Option<(Service, int)>)
      requires Valid() && (collisions != {} ==> pick in collisions)
      modifies `collisions
      ensures Valid() && collisions == if pick in info then old(collisions) else old(collisions) - {pick}
      ensures r.Some? <==> old(collisions) != {} && pick in info
      ensures r.Some? ==> TriedSlot(env, key, info[pick].addr) in TriedView()
                          && r.value.0 == TriedView()[TriedSlot(env, key, info[pick].addr)]
                          && forall id | id in info && info[id].addr == r.value.0 :: r.value.1 == info[id].lastTry
    {
      hide Inv, TablesOk, Table, TriedSlot;
      if collisions == {} {
        assert collisions - {pick} == collisions;
        return None;
      }
      if pick !in info {
        CollisionsFewer(env, key, State(), collisions, pick);
        collisions := collisions - {pick};
        return None;
      }
      var t := TriedSlot(env, key, info[pick].addr);
      TriedSlotRange(env, key, info[pick].addr);
      TableAt(vvTried, t);
      EvictLive(env, key, State(), t);
      SameAddrUnique(env, key, State(), vvTried[t.bucket, t.pos]);
      var there := info[vvTried[t.bucket, t.pos]];
      r := Some((there.addr, there.lastTry));
    }

    /** A random selection of addresses, without those of the wrong kind. The random choices are inputs. */
    method GetAddr(maxAddresses: nat, maxPct: nat, network: Option<Network>, filtered: bool, now: int, roll: nat -> nat)
      returns (r: seq<Service>)
      requires Valid()
      modifies `info, `random
      ensures Valid() && NewView() == old(NewView()) && TriedView() == old(TriedView())
      ensures |r| <= SelectionSize(|old(random)|, maxAddresses, maxPct) && |r| <= |old(random)|
      ensures maxAddresses != 0 ==> |r| <= maxAddresses
      ensures maxPct != 0 ==> 100 * |r| <= (if maxPct < 100 then maxPct else 100) * |old(random)|
      ensures || Selection(env, old(info), r, true, Query(network, filtered, now))
              || (maxAddresses != 0 && |r| == maxAddresses)
              || (maxPct != 0 && 100 * (|r| + 1) > (if maxPct < 100 then maxPct else 100) * |old(random)|)
      ensures Selection(env, old(info), r, |r| < SelectionSize(|old(random)|, maxAddresses, maxPct),
          Query(network, filtered, now))
      ensures Kept(old(info), info, {})
    {
      hide Inv, TablesOk, Table, View, CollisionsOk, Selection, Kept;
      ghost var size := |random|;
      var limit := SelectionSize(|random|, maxAddresses, maxPct);
      ghost var complete;
      r, complete := Draw(limit, network, filtered, now, roll);
      SelectionLess(env, old(info), r, complete, |r| < limit, Query(network, filtered, now));
      SelectionLimits(size, maxAddresses, maxPct);
      hide SelectionSize;
    }

    /** Draws addresses until there are enough or none is left. */
    method Draw(limit: nat, network: Option<Network>, filtered: bool, now: int, roll: nat -> nat)
      returns (r: seq<Service>, ghost complete: bool)
      requires Valid()
      modifies `info, `random
      ensures Valid() && NewView() == old(NewView()) && TriedView() == old(TriedView())
      ensures |r| <= limit && (!complete ==> |r| == limit < |old(random)|)
      ensures Selection(env, old(info), r, complete, Query(network, filtered, now))
      ensures Kept(old(info), info, {})
    {
      hide Inv, TablesOk, Table, View, CollisionsOk, Drawn, Selection, Eligible;
      ghost var b := State();
      var q := Query(network, filtered, now);
      r := [];
      DrawnNone(env, b, q);
      var n := 0;
      while n < |random| && |r| < limit
        invariant 0 <= n <= |random| == |b.random| && |r| <= limit && |r| <= n && Holds({}, {})
        invariant Drawn(env, b.info, State(), n, r, q)
      {
        var pos := roll(n) % (|random| - n) + n;
        ghost var c := State();
        InvTables(env, key, State(), {}, {});
        SwapRandom(n, pos, {}, {});
        DrawnStep(env, key, b.info, c, State(), n, pos, r, q);
        var i := info[random[n]];
        EligibleIs(env, i, q);
        assert r + [] == r;
        if (network.Some? && env.netClass(i.addr.host) != network.value) || (filtered && IsTerrible(i, now)) {
        } else {
          r := r + [i.addr];
        }
        n := n + 1;
      }
      complete := n == |random|;
      DrawnAll(env, key, b, State(), n, r, complete, q);
      ViewsGrown(env, key, b, State(), {}, {}, {}, {});
      CollisionsGrown(env, key, b, State(), collisions);
    }
  }

  /** How many addresses may be returned: a percentage of all, and at most a given number, where 0 means no limit. */
  function SelectionSize(size: nat, maxAddresses: nat, maxPct: nat): nat {
    var n := if maxPct != 0 then (if maxPct < 100 then maxPct else 100) * size / 100 else size;
    if maxAddresses != 0 && maxAddresses < n then maxAddresses else n
  }

  lemma SelectionLimits(size: nat, maxAddresses: nat, maxPct: nat)
    ensures var n, pct := SelectionSize(size, maxAddresses, maxPct), if maxPct < 100 then maxPct else 100;
      && n <= size && (maxAddresses != 0 ==> n <= maxAddresses) && (maxPct != 0 ==> 100 * n <= pct * size)
      && (n == size || (maxAddresses != 0 && n == maxAddresses) || (maxPct != 0 && 100 * (n + 1) > pct * size))
  {
    var pct := if maxPct < 100 then maxPct else 100;
    assert pct * size <= 100 * size by { MulLe(pct, 100, size); }
  }

  datatype Query = Query(network: Option<Network>, filtered: bool, now: int)

  ghost predicate Eligible(env: Env, i: Info, q: Query) {
    !(q.network.Some? && env.netClass(i.addr.host) != q.network.value) && !(q.filtered && IsTerrible(i, q.now))
  }

  lemma EligibleIs(env: Env, i: Info, q: Query)
    ensures Eligible(env, i, q) <==>
            !((q.network.Some? && env.netClass(i.addr.host) != q.network.value) || (q.filtered && IsTerrible(i, q.now)))
  {}

  /** Different addresses of eligible entries, and of all of them if the selection is complete. */
  ghost predicate Selection(env: Env, info: map<Id, Info>, r: seq<Service>, complete: bool, q: Query) {
    (forall j, k | 0 <= j < k < |r| :: r[j] != r[k])
    && (forall a | a in r :: exists id | id in info :: info[id].addr == a && Eligible(env, info[id], q))
    && (complete ==> forall id | id in info && Eligible(env, info[id], q) :: info[id].addr in r)
  }

  lemma SelectionLess(env: Env, info: map<Id, Info>, r: seq<Service>, complete: bool, complete': bool, q: Query)
    requires Selection(env, info, r, complete, q) && (complete' ==> complete)
    ensures Selection(env, info, r, complete', q)
  {
    hide Eligible;
  }

  /** The addresses of the eligible entries among some ids. */
  ghost function Picked(env: Env, info: map<Id, Info>, ids: seq<Id>, q: Query): seq<Service> {
    if ids == [] then []
    else
      var front, id := Picked(env, info, ids[..|ids| - 1], q), ids[|ids| - 1];
      if id in info && Eligible(env, info[id], q) then front + [info[id].addr] else front
  }

  lemma PickedMore(env: Env, info: map<Id, Info>, ids: seq<Id>, id: Id, q: Query)
    requires id in info
    ensures Picked(env, info, ids + [id], q)
            == Picked(env, info, ids, q) + if Eligible(env, info[id], q) then [info[id].addr] else []
  {
    assert (ids + [id])[..|ids|] == ids;
  }

  lemma {:induction false} PickedIn(env: Env, info: map<Id, Info>, ids: seq<Id>, q: Query)
    requires forall k | 0 <= k < |ids| :: ids[k] in info
    ensures forall a | a in Picked(env, info, ids, q) ::
        exists id | id in ids :: info[id].addr == a && Eligible(env, info[id], q)
    ensures forall id | id in ids && Eligible(env, info[id], q) :: info[id].addr in Picked(env, info, ids, q)
    decreases ids
  {
    hide Eligible;
    if ids != [] {
      var front, id := ids[..|ids| - 1], ids[|ids| - 1];
      PickedIn(env, info, front, q);
      assert ids == front + [id];
    }
  }

  lemma {:induction false} PickedDistinct(env: Env, info: map<Id, Info>, ids: seq<Id>, q: Query)
    requires forall k | 0 <= k < |ids| :: ids[k] in info
    requires forall j, k | 0 <= j < k < |ids| :: info[ids[j]].addr != info[ids[k]].addr
    ensures forall j, k | 0 <= j < k < |Picked(env, info, ids, q)| ::
        Picked(env, info, ids, q)[j] != Picked(env, info, ids, q)[k]
    decreases ids
  {
    hide Eligible;
    if ids != [] {
      var front, last := ids[..|ids| - 1], ids[|ids| - 1];
      PickedDistinct(env, info, front, q);
      PickedIn(env, info, front, q);
      var r := Picked(env, info, front, q);
      forall k | 0 <= k < |r| ensures r[k] != info[last].addr {
        assert r[k] in r;
        var id :| id in front && info[id].addr == r[k];
        var j :| 0 <= j < |front| && front[j] == id;
        assert ids[j] == id;
      }
      assert Picked(env, info, ids, q) == r || Picked(env, info, ids, q) == r + [info[last].addr];
    }
  }

  /** The first n places of the random order have been drawn from. */
  ghost predicate Drawn(env: Env, info: map<Id, Info>, c: Book, n: nat, r: seq<Service>, q: Query) {
    Kept(info, c.info, {}) && n <= |c.random| && r == Picked(env, info, c.random[..n], q)
  }

  lemma DrawnNone(env: Env, b: Book, q: Query)
    ensures Drawn(env, b.info, b, 0, [], q)
  {}

  lemma KeptAgain(i: map<Id, Info>, j: map<Id, Info>, k: map<Id, Info>)
    requires Kept(i, j, {}) && Kept(j, k, {})
    ensures Kept(i, k, {})
  {}

  lemma KeptEntry(env: Env, info: map<Id, Info>, info': map<Id, Info>, id: Id, q: Query)
    requires Kept(info, info', {}) && id in info'
    ensures id in info && info'[id].addr == info[id].addr
    ensures Eligible(env, info'[id], q) <==> Eligible(env, info[id], q)
  {}

  lemma OrderBelow(c: seq<Id>, d: seq<Id>, n: nat, pos: nat)
    requires n <= pos < |c| && d == c[n := c[pos]][pos := c[n]]
    ensures d[..n] == c[..n] && d[..n + 1] == d[..n] + [d[n]]
  {}

  lemma {:induction false} DrawnStep(env: Env, key: Key, info: map<Id, Info>, c: Book, d: Book, n: nat, pos: nat,
                                     r: seq<Service>,
                  q: Query)
    requires Drawn(env, info, c, n, r, q) && n <= pos < |c.random|
        && d.random == c.random[n := c.random[pos]][pos := c.random[n]]
    requires Kept(c.info, d.info, {}) && Inv(env, key, d, {}, {})
    ensures d.random[n] in d.info
    ensures Drawn(env, info, d, n + 1, r +
        if Eligible(env, d.info[d.random[n]], q) then [d.info[d.random[n]].addr] else [], q)
  {
    hide Inv, Eligible, Kept, Picked;
    InvTables(env, key, d, {}, {});
    RandomLive(env, key, d, {}, {}, n);
    var id := d.random[n];
    KeptAgain(info, c.info, d.info);
    KeptEntry(env, info, d.info, id, q);
    OrderBelow(c.random, d.random, n, pos);
    PickedMore(env, info, d.random[..n], id, q);
  }

  /** The random order lists different addresses, and all of them. */
  lemma OrderFacts(env: Env, key: Key, c: Book)
    requires Inv(env, key, c, {}, {})
    ensures forall k | 0 <= k < |c.random| :: c.random[k] in c.info
    ensures forall j, k | 0 <= j < k < |c.random| :: c.info[c.random[j]].addr != c.info[c.random[k]].addr
    ensures forall id | id in c.info :: id in c.random
  {
    hide NewOk, RefsOk, TriedOk, CountsOk, TimesOk, IdsOk;
    forall j, k | 0 <= j < k < |c.random| ensures c.info[c.random[j]].addr != c.info[c.random[k]].addr {
      assert c.info[c.random[j]].randomPos == j && c.info[c.random[k]].randomPos == k;
    }
  }

  lemma KeptOrder(info: map<Id, Info>, c: Book, n: nat)
    requires Kept(info, c.info, {}) && n <= |c.random| && forall k | 0 <= k < |c.random| :: c.random[k] in c.info
    requires forall j, k | 0 <= j < k < |c.random| :: c.info[c.random[j]].addr != c.info[c.random[k]].addr
    requires forall id | id in c.info :: id in c.random
    ensures forall k | 0 <= k < n :: c.random[..n][k] in info
    ensures forall j, k | 0 <= j < k < n :: info[c.random[..n][j]].addr != info[c.random[..n][k]].addr
    ensures n == |c.random| ==> forall id | id in info :: id in c.random[..n]
  {
    assert n == |c.random| ==> c.random[..n] == c.random;
  }

  lemma DrawnAll(env: Env, key: Key, b: Book, c: Book, n: nat, r: seq<Service>, complete: bool, q: Query)
    requires Inv(env, key, c, {}, {}) && Drawn(env, b.info, c, n, r, q) && (complete ==> n == |c.random|)
    ensures Selection(env, b.info, r, complete, q) && Grown(b.info, c.info, b.nextId) && Kept(b.info, c.info, {})
  {
    hide Inv, Eligible, Picked;
    OrderFacts(env, key, c);
    KeptOrder(b.info, c, n);
    assert Grown(b.info, c.info, b.nextId);
    hide Kept, Grown;
    PickedDistinct(env, b.info, c.random[..n], q);
    PickedIn(env, b.info, c.random[..n], q);
  }

  const REPLACEMENT: int := 4 * 3600
  const TEST_WINDOW: int := 40 * 60

  /** What becomes of a pending collision: forgotten, decided for the new address, or left for later. */
  datatype Outcome = Forget | Replace | Wait

  ghost function Verdict(env: Env, key: Key, b: Book, id: Id, now: int): (r: Outcome)
    ensures r != Forget ==> id in b.info
  {
    if id !in b.info || !env.valid(b.info[id].addr.host) then Forget
    else
      var t := TriedSlot(env, key, b.info[id].addr);
      if t in b.tried && b.tried[t] in b.info then
        var there := b.info[b.tried[t]];
        if now - there.lastSuccess < REPLACEMENT then Forget
        else if now - there.lastTry < REPLACEMENT then (if now - there.lastTry > 60 then Replace else Wait)
        else if now - b.info[id].lastSuccess > TEST_WINDOW then Replace
        else Wait
      else Replace
  }

  lemma CollisionsFewer(env: Env, key: Key, b: Book, collisions: set<Id>, id: Id)
    requires CollisionsOk(env, key, b.info, b.tried, collisions, b.nextId)
    ensures CollisionsOk(env, key, b.info, b.tried, collisions - {id}, b.nextId)
  {
    hide TriedSlot;
    if id in collisions {
      DropOne(collisions, id);
    } else {
      assert collisions - {id} == collisions;
    }
  }

  /** One announced address, with the clock and the outcome of the stochastic test when it is handled. */
  datatype Announced = Announced(addr: Service, time: int, services: bv64, now: int, lucky: bool)

  /** What one announcement does to both tables and to the records, and when it takes the slot that address and
      source give. */
  ghost predicate AddedOne(env: Env, key: Key, b: Book, c: Book, x: Announced, source: NetAddr, penalty: int, r: bool) {
    var a, s, late := x.addr, NewSlot(env, key, x.addr, source), if x.addr.host == source then 0 else penalty;
    && View(c.info, c.tried) == View(b.info, b.tried)
    && View(c.info, c.news) == (if r then View(b.info, b.news)[s := a] else View(b.info, b.news))
    && (!env.routable(a.host) ==> !r && c.info == b.info)
    && (env.routable(a.host) ==> Learned(b.info, c.info, a, x.time, x.services, source, late, x.now))
    && ((forall id | id in b.info :: b.info[id].addr != a) ==>
      (r <==> env.routable(a.host) && Welcome(b.info, b.news, s, x.now)))
    && forall id | id in b.info && b.info[id].addr == a && env.routable(a.host) ::
         && id in c.info
         && (r <==> Gains(Refreshed(b.info[id], x.time, x.services, late, x.now), x.time, x.lucky)
                    && Replaceable(b.info, b.news, id, s, x.now))
  }

  /** What an announcement may do to the addresses in the new table. A slot changes its address only if it is the one
      that address and source give, and only if the address there is terrible, or has another slot while the newcomer
      has none. An address that is new always gets the slot if it is free or so held. */
  ghost predicate Displaces(env: Env, key: Key, b: Book, c: Book, a: Service, source: NetAddr, now: int) {
    var v, w, s := View(b.info, b.news), View(c.info, c.news), NewSlot(env, key, a, source);
    && (forall t | t in v || t in w :: t != s ==> t in v && t in w && v[t] == w[t])
    && (s in v ==> s in w && (w[s] != v[s] ==> w[s] == a && GivesWay(b.info, b.info[b.news[s]], a, now)))
    && (env.routable(a.host) && Unknown(b.info, a) ==>
          (s in b.news ==> s in v && GivesWay(b.info, b.info[b.news[s]], a, now)) ==>
            s in w && w[s] == a)
  }

  ghost predicate GivesWay(info: map<Id, Info>, there: Info, a: Service, now: int) {
    IsTerrible(there, now)
    || (there.refCount > 1 && forall id | id in info && info[id].addr == a :: info[id].refCount == 0)
  }

  ghost predicate Unknown(info: map<Id, Info>, a: Service) {
    forall id | id in info :: info[id].addr != a
  }

  lemma ViewAt(info: map<Id, Info>, t: map<Slot, Id>, s: Slot)
    ensures s in View(info, t) <==> s in t && t[s] in info
    ensures s in View(info, t) ==> View(info, t)[s] == info[t[s]].addr
  {}

  /** The part of an announcement's effect that decides about the slot. */
  ghost predicate Took(env: Env, b: Book, c: Book, a: Service, s: Slot, now: int, r: bool) {
    && View(c.info, c.news) == (if r then View(b.info, b.news)[s := a] else View(b.info, b.news))
    && (Unknown(b.info, a) ==> (r <==> env.routable(a.host) && Welcome(b.info, b.news, s, now)))
    && (r ==> forall id | id in b.info && b.info[id].addr == a :: Replaceable(b.info, b.news, id, s, now))
  }

  lemma AddedTook(env: Env, key: Key, b: Book, c: Book, x: Announced, source: NetAddr, penalty: int, r: bool)
    requires AddedOne(env, key, b, c, x, source, penalty, r)
    ensures Took(env, b, c, x.addr, NewSlot(env, key, x.addr, source), x.now, r)
  {
    hide View, NewSlot, Welcome, Gains, Replaceable, Refreshed, Learned;
  }

  lemma AddedDisplaces(env: Env, key: Key, b: Book, c: Book, x: Announced, source: NetAddr, penalty: int, r: bool)
    requires AddedOne(env, key, b, c, x, source, penalty, r)
    ensures Displaces(env, key, b, c, x.addr, source, x.now)
  {
    hide AddedOne, View, NewSlot, Welcome, Replaceable, GivesWay, Unknown;
    AddedTook(env, key, b, c, x, source, penalty, r);
    var s := NewSlot(env, key, x.addr, source);
    ViewAt(b.info, b.news, s);
    if s in View(b.info, b.news) {
      if Unknown(b.info, x.addr) {
        WelcomeHeld(b.info, b.news, s, x.addr, x.now);
      } else if r {
        TakesOver(b.info, b.news, s, x.addr, x.now);
      }
    } else if s !in b.news {
      WelcomeFree(b.info, b.news, s, x.now);
    }
  }

  lemma WelcomeHeld(info: map<Id, Info>, news: map<Slot, Id>, s: Slot, a: Service, now: int)
    requires Unknown(info, a) && s in news && news[s] in info
    ensures Welcome(info, news, s, now) <==> GivesWay(info, info[news[s]], a, now)
  {
    hide IsTerrible;
  }

  lemma WelcomeFree(info: map<Id, Info>, news: map<Slot, Id>, s: Slot, now: int)
    requires s !in news
    ensures Welcome(info, news, s, now)
  {}

  lemma TakesOver(info: map<Id, Info>, news: map<Slot, Id>, s: Slot, a: Service, now: int)
    requires s in news && news[s] in info && !Unknown(info, a)
    requires forall id | id in info && info[id].addr == a :: Replaceable(info, news, id, s, now)
    ensures GivesWay(info, info[news[s]], a, now)
  {
    hide IsTerrible;
  }

  lemma RefreshedIs(i: Info, time: int, services: bv64, late: int, now: int)
    ensures var j := Refreshed(i, time, services, late, now);
      && i.time <= j.time && j.services == i.services | services
      && (i.time != j.time ==>
            j.time == (if time - late > 0 then time - late else 0)
            && time - late - i.time > (if now - time < 86400 then 3600 else 86400))
      && (time - late - i.time > (if now - time < 86400 then 3600 else 86400) ==>
            j.time == (if time - late > 0 then time - late else 0))
  {}

  /** What news of an address does to its record: the time never goes back, moves only to what is claimed less the
      penalty, and exactly if that is over an hour ahead, or over a day for a claim that is a day old; the
      services claimed are added to those it had. */
  ghost predicate Freshens(info: map<Id, Info>, info': map<Id, Info>, a: Service, time: int, services: bv64, late: int,
                           now: int) {
    forall id | id in info && id in info' :: Freshened(info[id], info'[id], a, time, services, late, now)
  }

  ghost predicate Freshened(i: Info, j: Info, a: Service, time: int, services: bv64, late: int, now: int) {
    && i.time <= j.time
    && (i.addr != a ==> SameRecord(i, j))
    && (i.addr == a ==> j.services == i.services | services)
    && (i.addr == a ==>
          j.time == if time - late - i.time > (if now - time < 86400 then 3600 else 86400)
                    then (if time - late > 0 then time - late else 0) else i.time)
  }

  /** What the record of an address that was not known says: what is claimed, from whom, and no history. */
  ghost predicate Introduces(info: map<Id, Info>, info': map<Id, Info>, a: Service, time: int, services: bv64,
                             source: NetAddr, late: int) {
    forall id | id in info' && id !in info ::
      && info'[id].addr == a && info'[id].source == source && info'[id].services == services
      && info'[id].time == (if time - late > 0 then time - late else 0)
      && info'[id].lastTry == 0 && info'[id].lastCountAttempt == 0 && info'[id].lastSuccess == 0
        && info'[id].attempts == 0
  }

  lemma AddedFreshens(env: Env, key: Key, b: Book, c: Book, x: Announced, source: NetAddr, penalty: int, r: bool)
    requires AddedOne(env, key, b, c, x, source, penalty, r) && env.routable(x.addr.host)
    ensures Freshens(b.info, c.info, x.addr, x.time, x.services, if x.addr.host == source then 0 else penalty, x.now)
    ensures Introduces(b.info, c.info, x.addr, x.time, x.services, source, if x.addr.host == source then 0 else penalty)
  {
    hide View, NewSlot, Welcome, Gains, Replaceable, Refreshed, Learned, Freshens, Introduces;
    var late := if x.addr.host == source then 0 else penalty;
    LearnedFreshens(b.info, c.info, x.addr, x.time, x.services, source, late, x.now);
    LearnedIntroduces(b.info, c.info, x.addr, x.time, x.services, source, late, x.now);
  }

  lemma LearnedIntroduces(info: map<Id, Info>, info': map<Id, Info>, a: Service, time: int, services: bv64,
                          source: NetAddr, late: int, now: int)
    requires Learned(info, info', a, time, services, source, late, now)
    ensures Introduces(info, info', a, time, services, source, late)
  {
    hide Refreshed;
  }

  lemma LearnedFreshens(info: map<Id, Info>, info': map<Id, Info>, a: Service, time: int, services: bv64,
                        source: NetAddr, late: int, now: int)
    requires Learned(info, info', a, time, services, source, late, now)
    ensures Freshens(info, info', a, time, services, late, now)
  {
    hide Refreshed, Freshened, SameRecord;
    forall id | id in info && id in info' ensures Freshened(info[id], info'[id], a, time, services, late, now) {
      RecordFreshens(info[id], info'[id], a, time, services, late, now);
    }
  }

  lemma RecordFreshens(i: Info, j: Info, a: Service, time: int, services: bv64, late: int, now: int)
    requires SameRecord(if i.addr == a then Refreshed(i, time, services, late, now) else i, j)
    ensures Freshened(i, j, a, time, services, late, now)
  {
    hide Refreshed;
    RefreshedIs(i, time, services, late, now);
  }

  /** The announcements in turn, from one state to another: the states between them, and which took a slot. */
  ghost predicate AddedAll(env: Env, key: Key, list: seq<Announced>, source: NetAddr, penalty: int, trail: seq<Book>,
                           took: seq<bool>, b: Book, c: Book) {
    |trail| == |took| + 1 && |took| <= |list| && trail[0] == b && trail[|took|] == c
    && forall k | 0 <= k < |took| :: AddedOne(env, key, trail[k], trail[k + 1], list[k], source, penalty, took[k])
  }

  lemma AllDisplace(env: Env, key: Key, list: seq<Announced>, source: NetAddr, penalty: int, trail: seq<Book>,
                    took: seq<bool>, b: Book, c: Book)
    requires AddedAll(env, key, list, source, penalty, trail, took, b, c) && |took| == |list|
    ensures forall k | 0 <= k < |list| :: Displaces(env, key, trail[k], trail[k + 1], list[k].addr, source, list[k].now)
  {
    hide AddedOne, Displaces;
    forall k | 0 <= k < |list|
      ensures Displaces(env, key, trail[k], trail[k + 1], list[k].addr, source, list[k].now)
    {
      AddedDisplaces(env, key, trail[k], trail[k + 1], list[k], source, penalty, took[k]);
    }
  }

  lemma AddedNone(env: Env, key: Key, list: seq<Announced>, source: NetAddr, penalty: int, b: Book)
    ensures AddedAll(env, key, list, source, penalty, [b], [], b, b)
  {}

  lemma AddedMore(env: Env, key: Key, list: seq<Announced>, source: NetAddr, penalty: int, trail: seq<Book>,
                  took: seq<bool>,
                  b: Book, c: Book, d: Book, r: bool)
    requires AddedAll(env, key, list, source, penalty, trail, took, b, c) && |took| < |list|
    requires AddedOne(env, key, c, d, list[|took|], source, penalty, r)
    ensures AddedAll(env, key, list, source, penalty, trail + [d], took + [r], b, d)
  {
    hide AddedOne;
    var trail', took' := trail + [d], took + [r];
    forall k | 0 <= k < |took'|
      ensures AddedOne(env, key, trail'[k], trail'[k + 1], list[k], source, penalty, took'[k])
    {
      if k < |took| { assert trail'[k] == trail[k] && trail'[k + 1] == trail[k + 1] && took'[k] == took[k]; }
    }
  }

  /** Every entry was known before under its address, or has an address that is routable. */
  ghost predicate KnownOrRoutable(env: Env, info: map<Id, Info>, info': map<Id, Info>) {
    forall id | id in info' :: env.routable(info'[id].addr.host) || (id in info && info[id].addr == info'[id].addr)
  }

  lemma KnownSelf(env: Env, info: map<Id, Info>)
    ensures KnownOrRoutable(env, info, info)
  {}

  lemma KnownMore(env: Env, i: map<Id, Info>, j: map<Id, Info>, k: map<Id, Info>)
    requires KnownOrRoutable(env, i, j) && KnownOrRoutable(env, j, k)
    ensures KnownOrRoutable(env, i, k)
  {}

  lemma AddedViews(env: Env, key: Key, b: Book, c: Book, x: Announced, source: NetAddr, penalty: int, r: bool)
    requires AddedOne(env, key, b, c, x, source, penalty, r)
    ensures View(c.info, c.tried) == View(b.info, b.tried)
    ensures View(c.info, c.news) ==
        if r then View(b.info, b.news)[NewSlot(env, key, x.addr, source) := x.addr] else View(b.info, b.news)
    ensures KnownOrRoutable(env, b.info, c.info)
  {
    hide View, NewSlot, Welcome, Gains, Refreshed, Replaceable, Late;
    forall id | id in c.info
      ensures env.routable(c.info[id].addr.host) || (id in b.info && b.info[id].addr == c.info[id].addr)
    {
      RefreshedAddr(b.info, id, x.time, x.services, if x.addr.host == source then 0 else penalty, x.now);
    }
  }

  lemma RefreshedAddr(info: map<Id, Info>, id: Id, time: int, services: bv64, late: int, now: int)
    ensures id in info ==> Refreshed(info[id], time, services, late, now).addr == info[id].addr
  {
    hide Joined;
  }

  /** What deciding one pending collision does to both tables and to the records. */
  ghost predicate Decided(env: Env, key: Key, b: Book, c: Book, id: Id, now: int) {
    var verdict := Verdict(env, key, b, id, now);
    && (verdict == Replace ==> id in b.info && Succeeded(b.info, c.info, b.info[id].addr, now))
    && (verdict != Replace ==> c.info == b.info)
    && (verdict != Replace || b.info[id].inTried ==>
          View(c.info, c.news) == View(b.info, b.news) && View(c.info, c.tried) == View(b.info, b.tried))
    && (verdict == Replace && !b.info[id].inTried ==>
          && View(c.info, c.tried) == View(b.info, b.tried)[TriedSlot(env, key, b.info[id].addr) := b.info[id].addr]
          && View(c.info, c.news) == NewViewAfter(env, key, b, b.info[id].addr))
  }

  /** What a decision may do. A tried slot changes its address only if the address there has not been reached for four
      hours, and has been tried without success for over a minute and less than four hours, or has not been tried for
      four hours while the newcomer was reached over forty minutes ago. Then it does change; and if the slot is taken
      and these times are not met, nothing changes at all. */
  ghost predicate Spared(env: Env, key: Key, b: Book, c: Book, id: Id, now: int) {
    var v, w := View(b.info, b.tried), View(c.info, c.tried);
    (forall s | s in v :: s in w && (w[s] != v[s] ==>
      && id in b.info && s == TriedSlot(env, key, b.info[id].addr) && w[s] == b.info[id].addr
      && now - b.info[b.tried[s]].lastSuccess >= 14400
      && (60 < now - b.info[b.tried[s]].lastTry < 14400
          || (now - b.info[b.tried[s]].lastTry >= 14400 && now - b.info[id].lastSuccess > 2400))))
    && (id in b.info && env.valid(b.info[id].addr.host) && !b.info[id].inTried ==>
          var t := TriedSlot(env, key, b.info[id].addr);
          && (t !in b.tried ==> t in w && w[t] == b.info[id].addr)
          && (t in v && now - b.info[b.tried[t]].lastSuccess >= 14400
              && (60 < now - b.info[b.tried[t]].lastTry < 14400
                  || (now - b.info[b.tried[t]].lastTry >= 14400 && now - b.info[id].lastSuccess > 2400)) ==>
                t in w && w[t] == b.info[id].addr))
    && (id in b.info && env.valid(b.info[id].addr.host) ==>
          var t := TriedSlot(env, key, b.info[id].addr);
          t in v && !(now - b.info[b.tried[t]].lastSuccess >= 14400
                      && (60 < now - b.info[b.tried[t]].lastTry < 14400
                          || (now - b.info[b.tried[t]].lastTry >= 14400 && now - b.info[id].lastSuccess > 2400))) ==>
            c.info == b.info && w == v && View(c.info, c.news) == View(b.info, b.news))
    && (id !in b.info || !env.valid(b.info[id].addr.host) ==>
          c.info == b.info && w == v && View(c.info, c.news) == View(b.info, b.news))
  }

  /** A collision is left for later while the address in the slot, not reached for four hours, was tried within the
      last minute, or has not been tried for four hours and the newcomer was reached within forty minutes. */
  ghost predicate StaysPending(env: Env, key: Key, b: Book, id: Id, now: int) {
    id in b.info && env.valid(b.info[id].addr.host)
    && var v, t := View(b.info, b.tried), TriedSlot(env, key, b.info[id].addr);
       t in v && now - b.info[b.tried[t]].lastSuccess >= 14400
       && (now - b.info[b.tried[t]].lastTry <= 60
           || (now - b.info[b.tried[t]].lastTry >= 14400 && now - b.info[id].lastSuccess <= 2400))
  }

  lemma VerdictIs(env: Env, key: Key, b: Book, id: Id, now: int)
    ensures Verdict(env, key, b, id, now) == Wait <==> StaysPending(env, key, b, id, now)
    ensures id in b.info ==> var t := TriedSlot(env, key, b.info[id].addr);
      (Verdict(env, key, b, id, now) == Replace <==>
        env.valid(b.info[id].addr.host)
        && (t in View(b.info, b.tried) ==>
            && now - b.info[b.tried[t]].lastSuccess >= 14400
            && (60 < now - b.info[b.tried[t]].lastTry < 14400
                || (now - b.info[b.tried[t]].lastTry >= 14400 && now - b.info[id].lastSuccess > 2400))))
  {
    hide View, TriedSlot;
    if id in b.info { ViewAt(b.info, b.tried, TriedSlot(env, key, b.info[id].addr)); }
  }

  lemma DecidedSpares(env: Env, key: Key, b: Book, c: Book, id: Id, now: int)
    requires Decided(env, key, b, c, id, now)
    ensures Spared(env, key, b, c, id, now)
    ensures Verdict(env, key, b, id, now) == Wait <==> StaysPending(env, key, b, id, now)
  {
    hide View, Verdict, TriedSlot, NewViewAfter, Succeeded, StaysPending;
    VerdictIs(env, key, b, id, now);
    forall s { ViewAt(b.info, b.tried, s); }
  }

  lemma AllSpared(env: Env, key: Key, order: seq<Id>, clock: Id -> int, trail: seq<Book>, pending: set<Id>, b: Book,
                  c: Book)
    requires DecidedAll(env, key, order, clock, trail, pending, b, c)
    ensures forall k | 0 <= k < |order| :: Spared(env, key, trail[k], trail[k + 1], order[k], clock(order[k]))
    ensures forall k | 0 <= k < |order| ::
        order[k] in pending <==> StaysPending(env, key, trail[k], order[k], clock(order[k]))
  {
    hide Decided, Verdict, Spared, StaysPending;
    forall k | 0 <= k < |order|
      ensures Spared(env, key, trail[k], trail[k + 1], order[k], clock(order[k]))
      ensures order[k] in pending <==> StaysPending(env, key, trail[k], order[k], clock(order[k]))
    {
      assert DecidedAt(env, key, trail[k], trail[k + 1], order[k], clock(order[k]), pending);
      DecidedSpares(env, key, trail[k], trail[k + 1], order[k], clock(order[k]));
    }
  }

  /** Collisions in turn, from one state to another: those left for later are still pending. */
  ghost predicate DecidedAll(env: Env, key: Key, order: seq<Id>, clock: Id -> int, trail: seq<Book>, pending: set<Id>,
                             b: Book, c: Book) {
    |trail| == |order| + 1 && trail[0] == b && trail[|order|] == c
    && forall k | 0 <= k < |order| :: DecidedAt(env, key, trail[k], trail[k + 1], order[k], clock(order[k]), pending)
  }

  ghost predicate DecidedAt(env: Env, key: Key, b: Book, c: Book, id: Id, now: int, pending: set<Id>) {
    Decided(env, key, b, c, id, now) && (id in pending <==> Verdict(env, key, b, id, now) == Wait)
  }

  lemma DecidedNone(env: Env, key: Key, clock: Id -> int, pending: set<Id>, b: Book)
    ensures DecidedAll(env, key, [], clock, [b], pending, b, b)
  {}

  lemma DecidedMore(env: Env, key: Key, order: seq<Id>, clock: Id -> int, trail: seq<Book>, pending: set<Id>,
                    pending': set<Id>,
                    id: Id, b: Book, c: Book, d: Book)
    requires DecidedAll(env, key, order, clock, trail, pending, b, c) && id !in order && id in pending
    requires Decided(env, key, c, d, id, clock(id))
    requires pending' == if Verdict(env, key, c, id, clock(id)) == Wait then pending else pending - {id}
    ensures DecidedAll(env, key, order + [id], clock, trail + [d], pending', b, d)
  {
    hide Decided, Verdict;
    var order', trail' := order + [id], trail + [d];
    forall k | 0 <= k < |order'|
      ensures DecidedAt(env, key, trail'[k], trail'[k + 1], order'[k], clock(order'[k]), pending')
    {
      if k < |order| {
        assert trail'[k] == trail[k] && trail'[k + 1] == trail[k + 1] && order'[k] == order[k];
        assert DecidedAt(env, key, trail[k], trail[k + 1], order[k], clock(order[k]), pending);
      }
    }
  }

  lemma DecidedKnown(env: Env, key: Key, b: Book, c: Book, id: Id, now: int)
    requires Decided(env, key, b, c, id, now)
    ensures KnownOrRoutable(env, b.info, c.info)
  {
    hide Verdict, View, NewViewAfter, TriedSlot;
  }

  /** New slots are only gained or overwritten, and only by announced addresses at the slots their source gives. */
  ghost predicate Announces(env: Env, key: Key, list: seq<Announced>, source: NetAddr, v: map<Slot, Service>,
                            v': map<Slot, Service>) {
    (forall s | s in v :: s in v')
    && forall s | s in v' :: (s in v && v'[s] == v[s]) || Places(env, key, list, source, s, v'[s])
  }

  ghost predicate Places(env: Env, key: Key, list: seq<Announced>, source: NetAddr, s: Slot, a: Service) {
    exists k | 0 <= k < |list| :: list[k].addr == a && s == NewSlot(env, key, a, source)
  }

  lemma AnnouncesNone(env: Env, key: Key, list: seq<Announced>, source: NetAddr, v: map<Slot, Service>)
    ensures Announces(env, key, list, source, v, v)
  {}

  lemma AnnouncesMore(env: Env, key: Key, list: seq<Announced>, source: NetAddr, v: map<Slot, Service>,
                      v': map<Slot, Service>, k: nat)
    requires k < |list| && Announces(env, key, list, source, v, v')
    ensures Announces(env, key, list, source, v, v'[NewSlot(env, key, list[k].addr, source) := list[k].addr])
  {
    hide NewSlot;
    assert Places(env, key, list, source, NewSlot(env, key, list[k].addr, source), list[k].addr);
  }

  /** A view without an address. */
  ghost function Without(v: map<Slot, Service>, a: Service): map<Slot, Service> {
    map s | s in v && v[s] != a :: v[s]
  }

  /** The new table after an address has left it for its tried slot, and the address it displaces has come back. */
  ghost function NewViewAfter(env: Env, key: Key, b: Book, a: Service): map<Slot, Service> {
    var left, t := Without(View(b.info, b.news), a), TriedSlot(env, key, a);
    if t in b.tried && b.tried[t] in b.info then
      var e := b.info[b.tried[t]];
      left[NewSlot(env, key, e.addr, e.source) := e.addr]
    else left
  }

  /** What a move to the tried table does to the new table, by address. The address leaves all its slots; an address
      that it displaces is not lost, but takes the slot that its own source gives; every other slot stays. */
  ghost predicate Promoted(env: Env, key: Key, b: Book, c: Book, a: Service) {
    var v, w, t := View(b.info, b.news), View(c.info, c.news), TriedSlot(env, key, a);
    if t in View(b.info, b.tried) then
      var e := b.info[b.tried[t]];
      var home := NewSlot(env, key, e.addr, e.source);
      && home in w && w[home] == e.addr
      && forall s | s != home :: (s in w <==> s in v && v[s] != a) && (s in w ==> w[s] == v[s])
    else
      forall s :: (s in w <==> s in v && v[s] != a) && (s in w ==> w[s] == v[s])
  }

  lemma AfterPromotes(env: Env, key: Key, b: Book, c: Book, a: Service)
    requires View(c.info, c.news) == NewViewAfter(env, key, b, a)
    ensures Promoted(env, key, b, c, a)
  {
    hide TriedSlot, NewSlot;
    ViewAt(b.info, b.tried, TriedSlot(env, key, a));
    hide View;
  }

  /** Only the statistics of one entry have changed. */
  lemma Touched(env: Env, key: Key, b: Book, c: Book, id: Id)
    requires Inv(env, key, b, {}, {}) && Inv(env, key, c, {}, {}) && id in b.info && id in c.info
    requires SamePlace(b.info[id], c.info[id]) && c == b.(info := b.info[id := c.info[id]])
    ensures Grown(b.info, c.info, b.nextId)
    ensures View(c.info, c.news) == View(b.info, b.news) && View(c.info, c.tried) == View(b.info, b.tried)
    ensures forall x | x in b.info && b.info[x].addr == b.info[id].addr :: x == id
  {
    hide Inv, View;
    GrownTouched(b.info, id, c.info[id], b.nextId);
    hide Grown, SamePlace;
    ViewsGrown(env, key, b, c, {}, {}, {}, {});
    SameAddrUnique(env, key, b, id);
  }

  lemma CollisionAdded(env: Env, key: Key, b: Book, collisions: set<Id>, id: Id)
    requires CollisionsOk(env, key, b.info, b.tried, collisions, b.nextId) && |collisions| < SET_TRIED_COLLISION_SIZE
    requires Inv(env, key, b, {}, {}) && id in b.info && TriedSlot(env, key, b.info[id].addr) in b.tried
    ensures CollisionsOk(env, key, b.info, b.tried, collisions + {id}, b.nextId)
  {
    hide RandomOk, AddrOk, NewOk, RefsOk, TriedOk, CountsOk, TimesOk, TriedSlot;
    if id in collisions { assert collisions + {id} == collisions; }
  }

  lemma GrownSelfKept(i: map<Id, Info>, j: map<Id, Info>, k: map<Id, Info>, nextId: nat)
    requires Grown(i, j, nextId) && Kept(j, k, j.Keys)
    ensures Grown(i, k, nextId)
  {}

  /** A record that notes a success. */
  function Successful(i: Info, time: int): Info {
    i.(lastSuccess := time, lastTry := time, attempts := 0)
  }

  /** No record changes but that of `a`, which notes a success. */
  ghost predicate Succeeded(info: map<Id, Info>, info': map<Id, Info>, a: Service, time: int) {
    forall id | id in info' ::
      id in info && SameRecord(if info[id].addr == a then Successful(info[id], time) else info[id], info'[id])
  }

  lemma SucceededIs(info: map<Id, Info>, info': map<Id, Info>, a: Service, time: int)
    requires Succeeded(info, info', a, time)
    ensures forall id | id in info' && info'[id].addr == a ::
      info'[id].lastSuccess == time && info'[id].lastTry == time && info'[id].attempts == 0
      && id in info && info'[id].time == info[id].time
    ensures forall id | id in info' && info'[id].addr != a :: id in info && SameRecord(info[id], info'[id])
  {}

  lemma SucceededNone(info: map<Id, Info>, a: Service, time: int)
    requires forall id | id in info :: info[id].addr != a
    ensures Succeeded(info, info, a, time)
  {}

  lemma SucceededOne(info: map<Id, Info>, id: Id, time: int)
    requires id in info
    ensures (forall x | x in info && info[x].addr == info[id].addr :: x == id) ==>
              Succeeded(info, info[id := Successful(info[id], time)], info[id].addr, time)
  {}

  lemma SucceededKept(i: map<Id, Info>, j: map<Id, Info>, k: map<Id, Info>, a: Service, time: int)
    requires Succeeded(i, j, a, time) && Kept(j, k, j.Keys)
    ensures Succeeded(i, k, a, time)
  {}

  lemma RefsView(info: map<Id, Info>, news: map<Slot, Id>, id: Id)
    requires Live(info, news) && id in info && forall x | x in info && info[x].addr == info[id].addr :: x == id
    ensures View(info, news - Refs(news, id)) == Without(View(info, news), info[id].addr)
    ensures Live(info, news - Refs(news, id))
  {
    forall s ensures s in View(info, news - Refs(news, id)) <==> s in Without(View(info, news), info[id].addr) {}
  }

  lemma WithoutRefs(env: Env, key: Key, b: Book, id: Id)
    requires Inv(env, key, b, {}, {}) && id in b.info
    ensures View(b.info, b.news - Refs(b.news, id)) == Without(View(b.info, b.news), b.info[id].addr)
    ensures Live(b.info, b.news - Refs(b.news, id))
  {
    hide Inv, View, Without, Refs, Live;
    SameAddrUnique(env, key, b, id);
    InvLive(env, key, b, {}, {});
    RefsView(b.info, b.news, id);
  }

  lemma NewsAfterView(env: Env, key: Key, b: Book, id: Id)
    requires Inv(env, key, b, {}, {}) && id in b.info
    ensures View(b.info, NewsAfter(env, key, b, id, TriedSlot(env, key, b.info[id].addr)))
        == NewViewAfter(env, key, b, b.info[id].addr)
    ensures Live(b.info, NewsAfter(env, key, b, id, TriedSlot(env, key, b.info[id].addr)))
  {
    hide Inv, View, Live, Without, Refs, NewSlot, TriedSlot;
    WithoutRefs(env, key, b, id);
    var t := TriedSlot(env, key, b.info[id].addr);
    EvictLive(env, key, b, t);
    if t in b.tried {
      var e := b.info[b.tried[t]];
      ViewSet(b.info, b.news - Refs(b.news, id), NewSlot(env, key, e.addr, e.source), b.tried[t]);
    }
  }

  /** A move to the tried table, by address. */
  lemma ViewsTried(env: Env, key: Key, c: Book, d: Book, id: Id)
    requires Inv(env, key, c, {}, {}) && Inv(env, key, d, {}, {}) && id in c.info && id in d.info
        && Kept(c.info, d.info, c.info.Keys)
    requires d.tried == c.tried[TriedSlot(env, key, c.info[id].addr) := id]
    requires d.news == NewsAfter(env, key, c, id, TriedSlot(env, key, c.info[id].addr))
    ensures View(d.info, d.tried) == View(c.info, c.tried)[TriedSlot(env, key, c.info[id].addr) := c.info[id].addr]
    ensures View(d.info, d.news) == NewViewAfter(env, key, c, c.info[id].addr)
  {
    hide Inv, View, Live, NewsAfter, NewViewAfter, TriedSlot;
    InvLive(env, key, c, {}, {});
    InvLive(env, key, d, {}, {});
    NewsAfterView(env, key, c, id);
    ViewFilled(c.info, d.info, c.tried, TriedSlot(env, key, c.info[id].addr), id);
    ViewKept(c.info, d.info, d.news);
  }

  lemma AfterSame(env: Env, key: Key, b: Book, c: Book, id: Id)
    requires id in b.info && id in c.info && c == b.(info := b.info[id := c.info[id]])
        && SamePlace(b.info[id], c.info[id])
    requires View(c.info, c.news) == View(b.info, b.news)
    ensures NewViewAfter(env, key, c, b.info[id].addr) == NewViewAfter(env, key, b, b.info[id].addr)
  {
    hide View, Without, TriedSlot, NewSlot;
  }

  lemma WelcomeIs(env: Env, key: Key, b: Book, info': map<Id, Info>, id: Id, s: Slot, now: int)
    requires Inv(env, key, b, {}, {}) && id in info'
    ensures id !in b.info && info' == b.info[id := info'[id]] && info'[id].refCount == 0 ==>
              (Replaceable(info', b.news, id, s, now) <==> Welcome(b.info, b.news, s, now))
  {
    hide Inv, IsTerrible;
    NewLive(env, key, b, {}, {}, s);
  }

  /** Entries keep their address, and new entries have new ids. */
  ghost predicate Grown(info: map<Id, Info>, info': map<Id, Info>, nextId: nat) {
    forall id | id in info' :: id.n >= nextId || (id in info && info'[id].addr == info[id].addr)
  }

  lemma GrownTouched(info: map<Id, Info>, id: Id, i: Info, nextId: nat)
    requires id in info && SamePlace(info[id], i)
    ensures Grown(info, info[id := i], nextId)
  {}

  lemma GrownCreated(info: map<Id, Info>, id: Id, i: Info, nextId: nat)
    requires id == Id(nextId)
    ensures Grown(info, info[id := i], nextId)
  {}

  lemma GrownKept(info: map<Id, Info>, info': map<Id, Info>, info'': map<Id, Info>, nextId: nat)
    requires Grown(info, info', nextId) && Kept(info', info'', info'.Keys)
    ensures Grown(info, info'', nextId)
  {}

  lemma CollisionsGrown(env: Env, key: Key, b: Book, b': Book, collisions: set<Id>)
    requires CollisionsOk(env, key, b.info, b.tried, collisions, b.nextId) && b.nextId <= b'.nextId
    requires Grown(b.info, b'.info, b.nextId) && forall s | s in b.tried :: s in b'.tried
    ensures CollisionsOk(env, key, b'.info, b'.tried, collisions, b'.nextId)
  {
    CollisionsKept(env, key, b.info, b'.info, b.tried, b'.tried, collisions, b.nextId, b'.nextId);
  }

  /** Entries coming, and records changing, does not alter what the tables hold. */
  lemma ViewsGrown(env: Env, key: Key, b: Book, b': Book, moving: set<Id>, bare: set<Id>, moving': set<Id>,
                   bare': set<Id>)
    requires Inv(env, key, b, moving, bare) && Inv(env, key, b', moving', bare') && Grown(b.info, b'.info, b.nextId)
    requires b'.news == b.news && b'.tried == b.tried
    ensures View(b'.info, b.news) == View(b.info, b.news) && View(b'.info, b.tried) == View(b.info, b.tried)
  {
    hide Inv, View, Live, Grown;
    InvLive(env, key, b, moving, bare);
    InvLive(env, key, b', moving', bare');
    GrownSame(env, key, b, moving, bare, b'.info);
    ViewKept(b.info, b'.info, b.news);
    ViewKept(b.info, b'.info, b.tried);
  }

  lemma GrownSame(env: Env, key: Key, b: Book, moving: set<Id>, bare: set<Id>, info': map<Id, Info>)
    requires Inv(env, key, b, moving, bare) && Grown(b.info, info', b.nextId)
    ensures forall id | id in b.info && id in info' :: info'[id].addr == b.info[id].addr
  {
    hide RandomOk, AddrOk, NewOk, RefsOk, TriedOk, CountsOk, TimesOk;
  }

  lemma SameAddrUnique(env: Env, key: Key, b: Book, id: Id)
    requires Inv(env, key, b, {}, {}) && id in b.info
    ensures forall x | x in b.info && b.info[x].addr == b.info[id].addr :: x == id
  {
    hide RandomOk, NewOk, RefsOk, TriedOk, CountsOk, TimesOk, IdsOk;
  }

  lemma ViewsPlaced(env: Env, key: Key, c: Book, d: Book, bare: set<Id>, id: Id, s: Slot, r: bool)
    requires Inv(env, key, c, {}, bare) && Inv(env, key, d, {}, {}) && Kept(c.info, d.info, c.info.Keys)
    requires id in c.info && (r ==> id in d.info) && d.news == (if r then c.news[s := id] else c.news)
        && d.tried == c.tried
    ensures View(d.info, d.news) == if r then View(c.info, c.news)[s := c.info[id].addr] else View(c.info, c.news)
    ensures View(d.info, d.tried) == View(c.info, c.tried)
  {
    hide Inv, View, Live;
    InvLive(env, key, c, {}, bare);
    InvLive(env, key, d, {}, {});
    ViewKept(c.info, d.info, c.tried);
    if r {
      ViewFilled(c.info, d.info, c.news, s, id);
    } else {
      ViewKept(c.info, d.info, c.news);
    }
  }

  /** A claimed time less a penalty. */
  function Late(time: int, late: int): int {
    if time - late > 0 then time - late else 0
  }

  /** The services of either. */
  function Joined(a: bv64, b: bv64): bv64 {
    a | b
  }

  /** A known record after news of its address: the time moves forward in steps of an hour, or of a day for an
      address not seen within a day, and services accumulate. */
  function Refreshed(i: Info, time: int, services: bv64, late: int, now: int): Info {
    var interval := if now - time < 86400 then 3600 else 86400;
    i.(time := if i.time < time - interval - late then Late(time, late) else i.time,
       services := Joined(i.services, services))
  }

  method RefreshRecord(i: Info, time: int, services: bv64, late: int, now: int) returns (j: Info)
    ensures j == Refreshed(i, time, services, late, now) && SamePlace(i, j) && (TimeOk(i) ==> TimeOk(j))
  {
    hide Joined;
    j := i;
    var interval := if now - time < 86400 then 3600 else 86400;
    if j.time < time - interval - late {
      j := j.(time := if time - late > 0 then time - late else 0);
    }
    j := j.(services := Joined(j.services, services));
  }

  /** Whether news of a known address may give it another new slot. */
  predicate Gains(i: Info, time: int, lucky: bool) {
    time > i.time && !i.inTried && i.refCount != NEW_BUCKETS_PER_ADDRESS && lucky
  }

  function Arrived(a: Service, time: int, services: bv64, source: NetAddr, late: int, pos: int): Info {
    Info(a, source, Late(time, late), services, 0, 0, 0, 0, 0, false, pos)
  }

  /** News of `a` changes no other record, refreshes that of `a`, and brings in no entry but one for `a`. */
  ghost predicate Learned(info: map<Id, Info>, info': map<Id, Info>, a: Service, time: int, services: bv64,
                          source: NetAddr,
                          late: int, now: int) {
    forall id | id in info' ::
      if id in info then
        SameRecord(if info[id].addr == a then Refreshed(info[id], time, services, late, now) else info[id], info'[id])
      else SameRecord(Arrived(a, time, services, source, late, 0), info'[id])
  }

  lemma Prepared(env: Env, key: Key, b: Book, info': map<Id, Info>, a: Service, time: int, services: bv64,
                 source: NetAddr,
                 late: int, now: int, nid: Id, pos: int)
    requires Inv(env, key, b, {}, {})
    requires forall id | id in b.info
        && b.info[id].addr == a :: info' == b.info[id := Refreshed(b.info[id], time, services, late, now)]
    requires (forall id | id in b.info :: b.info[id].addr != a) ==>
               nid !in b.info && info' == b.info[nid := Arrived(a, time, services, source, late, pos)]
    ensures Learned(b.info, info', a, time, services, source, late, now)
  {
    hide Inv, Refreshed;
    if id :| id in b.info && b.info[id].addr == a {
      SameAddrUnique(env, key, b, id);
    }
  }

  lemma LearnedKept(i: map<Id, Info>, j: map<Id, Info>, k: map<Id, Info>, a: Service, time: int, services: bv64,
                    source: NetAddr,
                    late: int, now: int)
    requires Learned(i, j, a, time, services, source, late, now) && Kept(j, k, j.Keys)
    ensures Learned(i, k, a, time, services, source, late, now)
  {
    hide Refreshed, Arrived;
  }

  lemma ReplaceableIs(i: map<Id, Info>, j: map<Id, Info>, news: map<Slot, Id>, id: Id, s: Slot, time: int,
                      services: bv64, late: int, now: int)
    requires id in j
    ensures id in i && j == i[id := Refreshed(i[id], time, services, late, now)] ==>
              (Replaceable(j, news, id, s, now) <==> Replaceable(i, news, id, s, now))
  {
    hide IsTerrible;
  }

  /** Whether an unknown address gets its slot. */
  ghost predicate Welcome(info: map<Id, Info>, news: map<Slot, Id>, s: Slot, now: int) {
    s !in news || (news[s] in info && (IsTerrible(info[news[s]], now) || info[news[s]].refCount > 1))
  }

  lemma EntryFacts(env: Env, key: Key, b: Book, moving: set<Id>, bare: set<Id>, id: Id)
    requires Inv(env, key, b, moving, bare) && id in b.info
    ensures TimeOk(b.info[id]) && 0 <= b.info[id].refCount <= NEW_BUCKETS_PER_ADDRESS
    ensures b.info[id].refCount == 0 <==> b.info[id].inTried || id in moving || id in bare
  {
    hide RandomOk, AddrOk, NewOk, TriedOk, CountsOk, IdsOk;
  }

  /** Too old, from the future, or failing too often. */
  predicate IsTerrible(i: Info, now: int) {
    now - i.lastTry > 60
    && (i.time > now + 600 || now - i.time > 30 * 86400 || (i.lastSuccess == 0 && i.attempts >= 3)
        || (now - i.lastSuccess > 7 * 86400 && i.attempts >= 10))
  }

  /** Who is never given up, and who is, in seconds. An address tried within the last minute is kept; one seen within
      thirty days is kept before its third failure, with any success before its tenth, and always if the success is
      less than a week ago. */
  lemma TerribleIs(i: Info, now: int)
    ensures now - i.lastTry <= 60 ==> !IsTerrible(i, now)
    ensures now - 2592000 <= i.time <= now + 600 && i.attempts < 3 ==> !IsTerrible(i, now)
    ensures now - 2592000 <= i.time <= now + 600 && i.lastSuccess != 0 && i.attempts < 10 ==> !IsTerrible(i, now)
    ensures now - 2592000 <= i.time <= now + 600 && i.lastSuccess != 0 && now - i.lastSuccess <= 604800 ==>
        !IsTerrible(i, now)
    ensures now - i.lastTry > 60 && !(now - 2592000 <= i.time <= now + 600) ==> IsTerrible(i, now)
    ensures now - i.lastTry > 60 && i.lastSuccess == 0 && i.attempts >= 3 ==> IsTerrible(i, now)
    ensures now - i.lastTry > 60 && now - i.lastSuccess > 604800 && i.attempts >= 10 ==> IsTerrible(i, now)
  {}

  /** Whether an entry gets a new slot: a free one, one whose entry is terrible, or, for an entry in no slot yet,
      one whose entry has others. */
  ghost predicate Replaceable(info: map<Id, Info>, news: map<Slot, Id>, id: Id, s: Slot, now: int)
    requires id in info
  {
    s !in news || (news[s] != id && news[s] in info
                   && (IsTerrible(info[news[s]], now) || (info[news[s]].refCount > 1 && info[id].refCount == 0)))
  }

  lemma NewLive(env: Env, key: Key, b: Book, moving: set<Id>, bare: set<Id>, s: Slot)
    requires Inv(env, key, b, moving, bare)
    ensures s in b.news ==> b.news[s] in b.info
  {
    hide RandomOk, AddrOk, RefsOk, TriedOk, CountsOk, TimesOk, IdsOk, NewSlotIn;
  }

  lemma BareAbsent(env: Env, key: Key, b: Book, bare: set<Id>, id: Id, s: Slot)
    requires Inv(env, key, b, {}, bare) && id in b.info && (b.info[id].refCount == 0 ==> id in bare)
    ensures s in b.news && b.news[s] == id ==> b.info[id].refCount != 0
  {
    hide Inv;
    if b.info[id].refCount == 0 {
      MovingFacts(env, key, b, {}, bare, id);
      assert s in b.news ==> b.news[s] in b.news.Values;
    }
  }

  lemma KeptPlaced(info: map<Id, Info>, info': map<Id, Info>, news: map<Slot, Id>, s: Slot, id: Id)
    requires Kept(info, info', if s in news then {news[s]} else {}) && id in info && (s in news ==> news[s] != id)
    ensures id in info' && info'[id].addr == info[id].addr && info'[id].inTried == info[id].inTried
    ensures info'[id].refCount == info[id].refCount
    ensures forall n :: Kept(info, WithRefs(info', id, n), info.Keys)
  {}

  /** The new table after an entry has left it for a tried slot, and the entry it displaces has come back. */
  ghost function NewsAfter(env: Env, key: Key, b: Book, id: Id, t: Slot): map<Slot, Id> {
    var left := b.news - Refs(b.news, id);
    if t in b.tried && b.tried[t] in b.info then
      left[NewSlot(env, key, b.info[b.tried[t]].addr, b.info[b.tried[t]].source) := b.tried[t]]
    else left
  }

  lemma KeptMoving(i: map<Id, Info>, j: map<Id, Info>, id: Id)
    requires id in i && id in j && Kept(WithRefs(i, id, 0), j, WithRefs(i, id, 0).Keys)
    ensures j[id].addr == i[id].addr && j[id].lastSuccess == i[id].lastSuccess
    ensures Kept(i, WithTried(j, id, true), i.Keys)
  {}

  lemma TriedSlotRange(env: Env, key: Key, a: Service)
    ensures TriedSlot(env, key, a).bucket < TRIED_BUCKET_COUNT && TriedSlot(env, key, a).pos < BUCKET_SIZE
  {}

  lemma EvictLive(env: Env, key: Key, b: Book, t: Slot)
    requires Inv(env, key, b, {}, {})
    ensures t in b.tried ==> b.tried[t] in b.info && b.info[b.tried[t]].inTried
  {
    hide Inv;
    if t in b.tried { TriedFacts(env, key, b, {}, {}, t); }
  }

  lemma TriedFacts(env: Env, key: Key, b: Book, moving: set<Id>, bare: set<Id>, t: Slot)
    requires Inv(env, key, b, moving, bare) && t in b.tried
    ensures b.tried[t] in b.info && b.info[b.tried[t]].inTried && t == TriedSlot(env, key, b.info[b.tried[t]].addr)
    ensures b.tried[t] !in moving
  {
    hide RandomOk, AddrOk, NewOk, CountsOk, TimesOk, IdsOk, TriedSlot;
  }

  lemma MovingFacts(env: Env, key: Key, b: Book, moving: set<Id>, bare: set<Id>, id: Id)
    requires Inv(env, key, b, moving, bare) && id in b.info && (id in moving || id in bare)
    ensures !b.info[id].inTried && b.info[id].refCount == 0 && id !in b.news.Values
  {
    hide RandomOk, AddrOk, NewOk, TriedOk, CountsOk, TimesOk, IdsOk, RefsOk;
    RefFacts(b.info, b.news, moving, bare, id);
    Unreferenced(b.info, b.news, moving, bare, id);
  }

  /** Entries on the way are in no new slot. */
  lemma OthersReferenced(env: Env, key: Key, b: Book, moving: set<Id>, s: Slot)
    requires Inv(env, key, b, moving, {}) && forall id | id in moving :: id in b.info
    ensures s in b.news ==> b.news[s] !in moving
  {
    hide Inv;
    forall id | id in moving ensures id !in b.news.Values { MovingFacts(env, key, b, moving, {}, id); }
    assert s in b.news ==> b.news[s] in b.news.Values;
  }

  lemma KeptBoth(info: map<Id, Info>, info': map<Id, Info>, news: map<Slot, Id>, s: Slot, id: Id, e: Id)
    requires Kept(info, info', if s in news then {news[s]} else {}) && id in info && e in info
    requires s in news ==> news[s] != id && news[s] != e
    ensures id in info' && e in info' && info'[e].addr == info[e].addr && info'[e].inTried == info[e].inTried
    ensures info'[id].refCount == info[id].refCount
  {}

  lemma KeptAll(i: map<Id, Info>, j: map<Id, Info>, k: map<Id, Info>, l: map<Id, Info>)
    requires exists x, y, z :: Kept(i, j, x) && Kept(j, k, y) && Kept(k, l, z)
    ensures Kept(i, l, i.Keys)
  {
    var x, y, z :| Kept(i, j, x) && Kept(j, k, y) && Kept(k, l, z);
  }

  lemma NewBucketRange(env: Env, key: Key, a: Service, source: NetAddr)
    ensures NewBucket(env, key, a, source) < NEW_BUCKET_COUNT
  {}

  lemma NewSlotRange(env: Env, key: Key, a: Service, bucket: nat)
    ensures NewSlotIn(env, key, a, bucket).bucket == bucket && NewSlotIn(env, key, a, bucket).pos < BUCKET_SIZE
  {}

  lemma NewSlotFacts(env: Env, key: Key, a: Service, source: NetAddr)
    ensures var s := NewSlot(env, key, a, source);
            s.bucket < NEW_BUCKET_COUNT && s.pos < BUCKET_SIZE && s == NewSlotIn(env, key, a, s.bucket)
  {}

  /** Only slots of one entry have been emptied. */
  ghost predicate OnlyDropped(t: map<Slot, Id>, t': map<Slot, Id>, id: Id) {
    (forall s | s in t' :: s in t && t'[s] == t[s]) && (forall s | s in t && s !in t' :: t[s] == id)
  }

  function ScanSlot(env: Env, key: Key, a: Service, start: nat, n: nat): Slot {
    NewSlotIn(env, key, a, (start + n) % NEW_BUCKET_COUNT)
  }

  /** The entry is in none of the buckets looked at. */
  ghost predicate Scanned(env: Env, key: Key, a: Service, t: map<Slot, Id>, id: Id, start: nat, n: nat) {
    forall m: nat | m < n :: ScanSlot(env, key, a, start, m) in t ==> t[ScanSlot(env, key, a, start, m)] != id
  }

  lemma DroppedNone(t: map<Slot, Id>, id: Id)
    ensures OnlyDropped(t, t, id)
  {}

  lemma DroppedStep(t: map<Slot, Id>, t': map<Slot, Id>, id: Id, s: Slot)
    requires OnlyDropped(t, t', id) && s in t' && t'[s] == id
    ensures OnlyDropped(t, t' - {s}, id)
  {}

  lemma ScannedNone(env: Env, key: Key, a: Service, t: map<Slot, Id>, id: Id, start: nat)
    ensures Scanned(env, key, a, t, id, start, 0)
  {}

  lemma ScannedStep(env: Env, key: Key, a: Service, t: map<Slot, Id>, id: Id, start: nat, n: nat, s: Slot)
    requires Scanned(env, key, a, t, id, start, n) && s == NewSlotIn(env, key, a, (start + n) % NEW_BUCKET_COUNT)
    ensures Scanned(env, key, a, t - {s}, id, start, n + 1)
    ensures (s in t && t[s] == id) || Scanned(env, key, a, t, id, start, n + 1)
  {
    assert s == ScanSlot(env, key, a, start, n);
    hide ScanSlot;
  }

  /** An entry in none of the buckets has no references. */
  lemma ScannedAll(env: Env, key: Key, b: Book, id: Id, start: nat)
    requires Inv(env, key, b, {}, {}) && id in b.info && start < NEW_BUCKET_COUNT
    requires Scanned(env, key, b.info[id].addr, b.news, id, start, NEW_BUCKET_COUNT)
    ensures b.info[id].refCount == 0
  {
    hide RandomOk, AddrOk, TriedOk, CountsOk, TimesOk, IdsOk, NewSlotIn;
    forall s | s in b.news ensures b.news[s] != id {
      var m := ScanCovers(env, key, b.info[id].addr, s.bucket, start);
      hide ScanSlot;
    }
    assert Refs(b.news, id) == {};
  }

  lemma ScanCovers(env: Env, key: Key, a: Service, bucket: nat, start: nat) returns (m: nat)
    requires bucket < NEW_BUCKET_COUNT && start < NEW_BUCKET_COUNT
    ensures m < NEW_BUCKET_COUNT && ScanSlot(env, key, a, start, m) == NewSlotIn(env, key, a, bucket)
  {
    hide NewSlotIn;
    m := if bucket >= start then bucket - start else bucket + NEW_BUCKET_COUNT - start;
    assert (start + m) % NEW_BUCKET_COUNT == bucket;
  }

  lemma IdLive(env: Env, key: Key, b: Book, moving: set<Id>, bare: set<Id>, id: Id)
    requires Inv(env, key, b, moving, bare) && id in b.info
    ensures id != EMPTY
  {
    hide RandomOk, AddrOk, NewOk, RefsOk, TriedOk, CountsOk, TimesOk;
  }

  lemma DroppedAll(env: Env, key: Key, t: map<Slot, Id>, b: Book, id: Id)
    requires Inv(env, key, b, {}, {id}) && id in b.info && OnlyDropped(t, b.news, id)
    ensures b.news == t - Refs(t, id)
  {
    hide RandomOk, AddrOk, NewOk, TriedOk, CountsOk, TimesOk, IdsOk;
    assert Refs(b.news, id) == {};
    forall s | s in b.news ensures b.news[s] != id { assert s !in Refs(b.news, id); }
  }

  lemma PopKept(env: Env, key: Key, b: Book, moving: set<Id>, bare: set<Id>, id: Id, was: map<Id, Info>)
    requires TablesOk(env, key, b, moving, bare) && id in b.info && id in bare && id !in moving
    requires |b.random| > 0 && b.random[|b.random| - 1] == id && Kept(was, b.info, {})
    ensures TablesOk(env, key, Popped(env, b, id), moving, bare - {id}) && Kept(was, b.info - {id}, {id})
    ensures Inv(env, key, b, moving, bare) ==> Inv(env, key, Popped(env, b, id), moving, bare - {id})
  {
    hide Inv, TablesOk, Kept, Popped;
    PopOk(env, key, b, moving, bare, id);
    KeptPopped(b.info, id);
    KeptTwice(was, b.info, b.info - {id}, {}, {id});
    assert {} + {id} == {id};
  }

  lemma FindFacts(env: Env, key: Key, b: Book, a: Service)
    requires Inv(env, key, b, {}, {})
    ensures a in b.addrs ==> b.addrs[a] in b.info && b.info[b.addrs[a]].addr == a
    ensures a !in b.addrs ==> forall id | id in b.info :: b.info[id].addr != a
  {
    hide RandomOk, NewOk, RefsOk, TriedOk, CountsOk, TimesOk, IdsOk;
  }

  lemma FreshId(env: Env, key: Key, b: Book)
    requires Inv(env, key, b, {}, {})
    ensures Id(b.nextId) !in b.info
  {
    hide RandomOk, AddrOk, NewOk, RefsOk, TriedOk, CountsOk, TimesOk;
  }

  lemma RandomPlace(env: Env, key: Key, b: Book, moving: set<Id>, bare: set<Id>, id: Id)
    requires TablesOk(env, key, b, moving, bare) && id in b.info
    ensures 0 <= b.info[id].randomPos < |b.random| && b.random[b.info[id].randomPos] == id
  {
    hide NewOk, RefsOk, TriedOk, CountsOk, IdsOk;
  }

  lemma SameUseHas(info: map<Id, Info>, info': map<Id, Info>, id: Id)
    requires SameUse(info, info') && id in info
    ensures id in info' && info'[id].addr == info[id].addr
  {}

  lemma RandomLive(env: Env, key: Key, b: Book, moving: set<Id>, bare: set<Id>, p: nat)
    requires TablesOk(env, key, b, moving, bare) && p < |b.random|
    ensures b.random[p] in b.info
  {
    hide NewOk, RefsOk, TriedOk, CountsOk, IdsOk;
  }

  lemma SwapKept(env: Env, key: Key, b: Book, moving: set<Id>, bare: set<Id>, p: nat, q: nat)
    requires TablesOk(env, key, b, moving, bare) && p < |b.random| && q < |b.random|
    requires b.random[p] in b.info && b.random[q] in b.info
    ensures TablesOk(env, key, Swapped(b, p, q), moving, bare)
    ensures Inv(env, key, b, moving, bare) ==> Inv(env, key, Swapped(b, p, q), moving, bare)
    ensures SameUse(b.info, Swapped(b, p, q).info) && Kept(b.info, Swapped(b, p, q).info, {})
  {
    hide Inv, TablesOk, Kept, SameUse, Swapped;
    SwapOk(env, key, b, moving, bare, p, q);
    KeptSwapped(b, p, q);
  }

  lemma EmptyOk(env: Env, key: Key)
    ensures Inv(env, key, EMPTY_BOOK, {}, {})
  {
    var none: map<Id, Info> := map[];
    assert NewIds(none, {}) == {} && TriedIds(none) == {};
    forall net ensures Within(env, none, {}, net) == {} {}
  }
}
