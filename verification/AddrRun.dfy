/** Whole runs of the address manager. */
module AddrRun {
  import opened Options
  import opened AddrBook
  import opened AddrSteps
  import opened AddrMan
  import opened AddrCheck
  import opened AddrStore
  import opened AddrSerialize

  /** A public operation, with the clock readings and random choices it meets. */
  datatype Op =
    | AddOp(list: seq<Announced>, source: NetAddr, penalty: int)
    | GoodOp(addr: Service, testBeforeEvict: bool, time: int)
    | AttemptOp(addr: Service, countFailure: bool, time: int)
    | ConnectedOp(addr: Service, time: int)
    | SetServicesOp(addr: Service, services: bv64)
    | ResolveOp(clock: Id -> int)
    | SelectCollisionOp
    | GetAddrOp(maxAddresses: nat, maxPct: nat, network: Option<Network>, filtered: bool, now: int, roll: nat -> nat)

  /** Times of connections and attempts are positive. */
  ghost predicate Timely(op: Op) {
    match op
    case GoodOp(_, _, time) => time > 0
    case AttemptOp(_, _, time) => time > 0
    case ResolveOp(clock) => forall id :: clock(id) > 0
    case _ => true
  }

  method Do(m: AddrManImpl, op: Op)
    requires m.Valid() && Timely(op)
    modifies m, m.vvNew, m.vvTried
    ensures m.Valid() && forall s | s in old(m.TriedView()) :: s in m.TriedView()
    ensures KnownOrRoutable(m.env, old(m.info), m.info)
  {
    hide Inv, Table, View, CollisionsOk, NewViewAfter, Selection, Announces, TriedSlot, KnownOrRoutable,
         AddedAll,
         DecidedAll, Succeeded, Kept;
    KnownSelf(m.env, m.info);
    match op
    case AddOp(list, source, penalty) => var r, trail, took := m.Add(list, source, penalty);
    case GoodOp(a, test, time) =>
      var r := m.Good(a, test, time);
      KnownSucceeded(m.env, old(m.info), m.info, a, time);
    case AttemptOp(a, count, time) =>
      m.Attempt(a, count, time);
      KnownAttempted(m.env, old(m.info), m.info, a);
    case ConnectedOp(a, time) =>
      m.Connected(a, time);
      KnownSame(m.env, old(m.info), m.info);
    case SetServicesOp(a, services) =>
      m.SetServices(a, services);
      KnownSame(m.env, old(m.info), m.info);
    case ResolveOp(clock) => var order, trail := m.ResolveCollisions(clock);
    case SelectCollisionOp =>
      if m.collisions != {} {
        var pick :| pick in m.collisions;
        var r := m.SelectTriedCollision(pick);
      }
    case GetAddrOp(n, pct, net, filtered, now, roll) =>
      var r := m.GetAddr(n, pct, net, filtered, now, roll);
      KnownKept(m.env, old(m.info), m.info);
  }

  lemma KnownSucceeded(env: Env, info: map<Id, Info>, info': map<Id, Info>, a: Service, time: int)
    requires Succeeded(info, info', a, time)
    ensures KnownOrRoutable(env, info, info')
  {}

  lemma KnownAttempted(env: Env, info: map<Id, Info>, info': map<Id, Info>, a: Service)
    requires (forall id | id in info :: info[id].addr != a) ==> info' == info
    requires forall id | id in info && info[id].addr == a ::
      id in info' && info' == info[id := info'[id]] && info'[id].addr == a
    ensures KnownOrRoutable(env, info, info')
  {}

  lemma KnownSame(env: Env, info: map<Id, Info>, info': map<Id, Info>)
    requires info.Keys == info'.Keys && forall id | id in info :: info'[id].addr == info[id].addr
    ensures KnownOrRoutable(env, info, info')
  {
    forall id | id in info' ensures id in info && info'[id].addr == info[id].addr { assert id in info.Keys; }
  }

  lemma KnownKept(env: Env, info: map<Id, Info>, info': map<Id, Info>)
    requires Kept(info, info', {})
    ensures KnownOrRoutable(env, info, info')
  {}

  /** Only valid addresses are routable. */
  ghost predicate RoutableValid(env: Env) {
    forall host :: env.routable(host) ==> env.valid(host)
  }

  ghost predicate AllValid(env: Env, info: map<Id, Info>) {
    forall id | id in info :: env.valid(info[id].addr.host)
  }

  lemma StillValid(env: Env, info: map<Id, Info>, info': map<Id, Info>)
    requires RoutableValid(env) && AllValid(env, info) && KnownOrRoutable(env, info, info')
    ensures AllValid(env, info')
  {}

  /** After any run from an empty manager with a key, the consistency check returns 0, and a tried slot once
      taken is never free again. */
  method Run(env: Env, key: Key, ops: seq<Op>) returns (m: AddrManImpl, code: int, ghost taken: seq<set<Slot>>)
    requires key != 0 && forall k | 0 <= k < |ops| :: Timely(ops[k])
    ensures m.Valid() && code == 0 && m.env == env && m.key == key
    ensures RoutableValid(env) ==> AllValid(env, m.info)
    ensures |taken| == |ops| + 1 && taken[|ops|] == m.TriedView().Keys
    ensures forall j, k | 0 <= j <= k <= |ops| :: taken[j] <= taken[k]
  {
    hide Inv, Table, View, CollisionsOk, Timely, Passes, RoutableValid, AllValid, KnownOrRoutable;
    m := new AddrManImpl(env, key);
    taken := [m.TriedView().Keys];
    NoneInvalid(env);
    for k := 0 to |ops|
      invariant m.Valid() && m.env == env && m.key == key && fresh(m) && fresh(m.vvNew) && fresh(m.vvTried)
      invariant RoutableValid(env) ==> AllValid(env, m.info)
      invariant |taken| == k + 1 && taken[k] == m.TriedView().Keys
      invariant forall i, j | 0 <= i <= j <= k :: taken[i] <= taken[j]
    {
      ghost var was, before := m.TriedView(), m.info;
      Do(m, ops[k]);
      if RoutableValid(env) { StillValid(env, before, m.info); }
      assert was.Keys <= m.TriedView().Keys;
      taken := taken + [m.TriedView().Keys];
    }
    CheckComplete(m.env, m.key, m.State());
    code := CheckAddrman(m);
  }

  lemma NoneInvalid(env: Env)
    ensures AllValid(env, EMPTY_BOOK.info)
  {}

  /** Some order in which the entries are visited. */
  method Visiting(keys: set<Id>) returns (order: seq<Id>)
    ensures Lists(order, keys)
  {
    order := [];
    var todo := keys;
    while todo != {}
      invariant todo <= keys && forall id :: id in order <==> id in keys && id !in todo
      invariant forall j, k | 0 <= j < k < |order| :: order[j] != order[k]
      decreases todo
    {
      var id :| id in todo;
      todo := todo - {id};
      order := order + [id];
    }
  }

  /** What any run leaves behind survives being written and read back: the same address in every slot of both
      tables, the same records, reference counts and totals. */
  method RunAndReload(env: Env, key: Key, ops: seq<Op>, asmapVersion: nat)
    returns (m: AddrManImpl, r: Option<AddrManImpl>)
    requires key != 0 && RoutableValid(env) && forall k | 0 <= k < |ops| :: Timely(ops[k])
    ensures m.Valid() && r.Some? && r.value.Valid()
    ensures r.value.NewView() == m.NewView() && r.value.TriedView() == m.TriedView()
        && SameRecords(m.info, r.value.info)
    ensures forall net :: CountAt(r.value.counts, net) == CountAt(m.counts, net)
    ensures forall x, y | x in m.info && y in r.value.info && m.info[x].addr == r.value.info[y].addr ::
              r.value.info[y].refCount == m.info[x].refCount
  {
    hide Inv, Table, View, CollisionsOk, SameRecords, CountAt, Lists, RoutableValid, Timely;
    var code;
    ghost var taken;
    m, code, taken := Run(env, key, ops);
    var order := Visiting(m.info.Keys);
    r := Reload(m, order, asmapVersion);
  }

  // ---------------------------------------------------------------- spreading

  /** The buckets that the first n hash values give a group. */
  ghost function Buckets(hash: nat -> nat, count: nat, n: nat): (r: set<nat>)
    requires count > 0
    ensures |r| <= n && forall k | 0 <= k < n :: Bucket(hash, count, k) in r
  {
    if n == 0 then {} else Buckets(hash, count, n - 1) + {Bucket(hash, count, n - 1)}
  }

  ghost function Bucket(hash: nat -> nat, count: nat, k: nat): nat
    requires count > 0
  {
    hash(k) % count
  }

  /** The addresses of one group fall into at most eight tried buckets. */
  lemma TriedSpread(env: Env, key: Key, g: Group, addrs: set<Service>)
    requires forall a | a in addrs :: env.group(a.host) == g
    ensures |set a | a in addrs :: TriedBucket(env, key, a)| <= 8
  {
    var hash := (n: nat) => env.triedHash(key, g, n);
    var buckets := Buckets(hash, TRIED_BUCKET_COUNT, TRIED_BUCKETS_PER_GROUP);
    forall a | a in addrs ensures TriedBucket(env, key, a) in buckets {
      var n := env.addressHash(key, a) % TRIED_BUCKETS_PER_GROUP;
      assert TriedBucket(env, key, a) == Bucket(hash, TRIED_BUCKET_COUNT, n);
    }
    hide TriedBucket, Buckets;
    Fewer(set a | a in addrs :: TriedBucket(env, key, a), buckets);
  }

  /** The addresses learned from the sources of one group fall into at most 64 new buckets. */
  lemma NewSpread(env: Env, key: Key, g: Group, learned: set<(Service, NetAddr)>)
    requires forall x | x in learned :: env.group(x.1) == g
    ensures |set x | x in learned :: NewBucket(env, key, x.0, x.1)| <= 64
  {
    hide NewBucket;
    var buckets := Buckets((n: nat) => env.newHash(key, g, n), NEW_BUCKET_COUNT, NEW_BUCKETS_PER_SOURCE_GROUP);
    forall x | x in learned ensures NewBucket(env, key, x.0, x.1) in buckets {
      NewBucketOf(env, key, x.0, x.1);
    }
    hide Buckets;
    Fewer(set x | x in learned :: NewBucket(env, key, x.0, x.1), buckets);
  }

  lemma NewBucketOf(env: Env, key: Key, a: Service, source: NetAddr)
    ensures var hash := (n: nat) => env.newHash(key, env.group(source), n);
      NewBucket(env, key, a, source) in Buckets(hash, NEW_BUCKET_COUNT, NEW_BUCKETS_PER_SOURCE_GROUP)
  {
    var hash := (n: nat) => env.newHash(key, env.group(source), n);
    var n := env.pairHash(key, env.group(a.host), env.group(source)) % NEW_BUCKETS_PER_SOURCE_GROUP;
    assert NewBucket(env, key, a, source) == Bucket(hash, NEW_BUCKET_COUNT, n);
    hide NewBucket;
    var buckets := Buckets(hash, NEW_BUCKET_COUNT, NEW_BUCKETS_PER_SOURCE_GROUP);
  }

  /** Which new bucket an address falls into depends on nothing but the groups of address and source. */
  lemma NewBucketByGroup(env: Env, key: Key, a: Service, b: Service, source: NetAddr, source': NetAddr)
    requires env.group(a.host) == env.group(b.host) && env.group(source) == env.group(source')
    ensures NewBucket(env, key, a, source) == NewBucket(env, key, b, source') < 1024
  {}

  /** Whatever a source announces in one call, it changes at most 64 buckets of the new table. */
  lemma AnnouncedSpread(env: Env, key: Key, list: seq<Announced>, source: NetAddr, v: map<Slot, Service>,
                        v': map<Slot, Service>)
    requires Announces(env, key, list, source, v, v')
    ensures |set s | s in v' && (s !in v || v'[s] != v[s]) :: s.bucket| <= 64
  {
    var learned := set k | 0 <= k < |list| :: (list[k].addr, source);
    NewSpread(env, key, env.group(source), learned);
    var buckets := set x | x in learned :: NewBucket(env, key, x.0, x.1);
    hide NewBucket;
    forall s | s in v' && (s !in v || v'[s] != v[s]) ensures s.bucket in buckets {
      var k :| 0 <= k < |list| && list[k].addr == v'[s] && s == NewSlot(env, key, v'[s], source);
      assert (list[k].addr, source) in learned;
    }
    Fewer(set s | s in v' && (s !in v || v'[s] != v[s]) :: s.bucket, buckets);
  }

  /** In every valid state the tried addresses of one group occupy at most eight buckets. */
  lemma TriedHeld(env: Env, key: Key, b: Book, g: Group)
    requires Inv(env, key, b, {}, {})
    ensures var v := View(b.info, b.tried);
      |set s | s in v && env.group(v[s].host) == g :: s.bucket| <= 8
  {
    hide TriedBucket, RandomOk, NewOk, RefsOk, CountsOk, AddrOk, TimesOk, IdsOk;
    var v := View(b.info, b.tried);
    var addrs := set s | s in v && env.group(v[s].host) == g :: v[s];
    TriedSpread(env, key, g, addrs);
    Fewer(set s | s in v && env.group(v[s].host) == g :: s.bucket, set a | a in addrs :: TriedBucket(env, key, a));
  }
}
