/** The memory of one coin cache: the entries, and the circular doubly linked list that runs from
    the sentinel through the flagged entries. Entries keep their address while they are in the map,
    so a pointer to an entry is its outpoint. */
module CoinsRing {
  import opened Options
  import opened CoinsView

  datatype Ptr = Null | Sentinel | Pair(o: OutPoint)

  datatype Links = Links(prev: Ptr, next: Ptr)

  const NO_LINKS := Links(Null, Null)

  datatype Node = Node(coin: Coin, isDirty: bool, isFresh: bool, links: Links) {
    predicate Flagged() { isDirty || isFresh }
  }

  type Nodes = map<OutPoint, Node>

  datatype Ring = Ring(nodes: Nodes, sentinel: Links)

  /** The pointer can be dereferenced. */
  predicate Live(r: Ring, p: Ptr) {
    p == Sentinel || (p.Pair? && p.o in r.nodes)
  }

  function LinksAt(r: Ring, p: Ptr): Links
    requires Live(r, p)
  {
    if p == Sentinel then r.sentinel else r.nodes[p.o].links
  }

  function SetLinks(r: Ring, p: Ptr, l: Links): Ring
    requires Live(r, p)
  {
    if p == Sentinel then r.(sentinel := l)
    else r.(nodes := r.nodes[p.o := r.nodes[p.o].(links := l)])
  }

  function SetPrev(r: Ring, p: Ptr, q: Ptr): Ring
    requires Live(r, p)
  {
    SetLinks(r, p, LinksAt(r, p).(prev := q))
  }

  function SetNext(r: Ring, p: Ptr, q: Ptr): Ring
    requires Live(r, p)
  {
    SetLinks(r, p, LinksAt(r, p).(next := q))
  }

  /** The i-th stop of the ring that visits `order` and has the sentinel at both ends. */
  function Stop(order: seq<OutPoint>, i: int): Ptr {
    if 0 <= i < |order| then Pair(order[i]) else Sentinel
  }

  ghost predicate Distinct(order: seq<OutPoint>) {
    forall i, j | 0 <= i < j < |order| :: order[i] != order[j]
  }

  ghost predicate Joined(r: Ring, order: seq<OutPoint>, i: int) {
    var p, q := Stop(order, i - 1), Stop(order, i);
    Live(r, p) && Live(r, q) && LinksAt(r, p).next == q && LinksAt(r, q).prev == p
  }

  /** The list from the sentinel visits exactly the flagged entries, once each, in this order, with
      prev and next mutually inverse. Entries off the list have null links. */
  ghost predicate Linked(r: Ring, order: seq<OutPoint>) {
    && Distinct(order)
    && (forall i | 0 <= i <= |order| :: Joined(r, order, i))
    && (forall i | 0 <= i < |order| :: order[i] in r.nodes)
    && (forall o | o in r.nodes :: o in order <==> r.nodes[o].Flagged())
    && (forall o | o in r.nodes && !r.nodes[o].Flagged() :: r.nodes[o].links == NO_LINKS)
  }

  function Without(order: seq<OutPoint>, o: OutPoint): (s: seq<OutPoint>)
    ensures forall p :: p in s ==> p in order
  {
    if order == [] then []
    else if order[0] == o then order[1..]
    else [order[0]] + Without(order[1..], o)
  }

  lemma {:induction false} WithoutAt(order: seq<OutPoint>, k: nat)
    requires Distinct(order) && k < |order|
    ensures Without(order, order[k]) == order[..k] + order[k + 1..]
  {
    if k > 0 {
      WithoutAt(order[1..], k - 1);
      assert order[1..][..k - 1] == order[1..k];
      assert order[1..][k..] == order[k + 1..];
      assert [order[0]] + order[1..k] == order[..k];
    }
  }

  /** Where a flagged entry stands in the list. */
  lemma FlaggedIndex(r: Ring, order: seq<OutPoint>, o: OutPoint) returns (k: nat)
    requires Linked(r, order) && o in r.nodes
    ensures if r.nodes[o].Flagged() then k < |order| && order[k] == o && Distinct(order) else o !in order
  {
    k := 0;
    if r.nodes[o].Flagged() {
      k :| 0 <= k < |order| && order[k] == o;
    }
  }

  // ---------------------------------------------------------------- linking

  /** AddFlags on an unflagged entry. */
  function LinkLast(r: Ring, o: OutPoint, dirty: bool, nowFresh: bool): Ring
    requires o in r.nodes && Live(r, r.sentinel.prev)
  {
    var last := r.sentinel.prev;
    var r1 := SetLinks(r, Pair(o), Links(last, Sentinel));
    var r2 := SetPrev(r1, Sentinel, Pair(o));
    var r3 := SetNext(r2, last, Pair(o));
    r3.(nodes := r3.nodes[o := r3.nodes[o].(isDirty := dirty, isFresh := nowFresh)])
  }

  lemma LinkLastLinked(r: Ring, order: seq<OutPoint>, o: OutPoint, dirty: bool, nowFresh: bool)
    requires Linked(r, order) && o in r.nodes && !r.nodes[o].Flagged() && (dirty || nowFresh)
    ensures Live(r, r.sentinel.prev)
    ensures Linked(LinkLast(r, o, dirty, nowFresh), order + [o])
  {
    var n := |order|;
    assert Joined(r, order, n);
    var last := r.sentinel.prev;
    assert last == Stop(order, n - 1);
    var order', r' := order + [o], LinkLast(r, o, dirty, nowFresh);
    assert last != Pair(o);
    forall i | 0 <= i <= n + 1
      ensures Joined(r', order', i)
    {
      if i < n {
        assert Joined(r, order, i);
        assert Stop(order', i) == Stop(order, i) && Stop(order', i - 1) == Stop(order, i - 1);
        assert Stop(order, i) != Sentinel;
        assert i < n - 1 ==> Stop(order, i) != last;
      }
    }
  }

  // ---------------------------------------------------------------- unlinking

  /** SetClean on a flagged entry. */
  function Unlink(r: Ring, o: OutPoint): Ring
    requires o in r.nodes && Live(r, r.nodes[o].links.next) && Live(r, r.nodes[o].links.prev)
  {
    var l := r.nodes[o].links;
    var r1 := SetPrev(r, l.next, l.prev);
    var r2 := SetNext(r1, l.prev, l.next);
    r2.(nodes := r2.nodes[o := Node(r2.nodes[o].coin, false, false, NO_LINKS)])
  }

  /** `r'` is `r` with the neighbours of `o` joined to each other and `o` unflagged. */
  ghost predicate Spliced(r: Ring, r': Ring, o: OutPoint, l: Links) {
    && r'.nodes.Keys == r.nodes.Keys
    && (forall q | Live(r, q) && q != Pair(o) ::
          LinksAt(r', q) == Links(if q == l.next then l.prev else LinksAt(r, q).prev,
                                  if q == l.prev then l.next else LinksAt(r, q).next))
    && (forall p | p in r.nodes ::
          r'.nodes[p].coin == r.nodes[p].coin
          && r'.nodes[p].isDirty == (r.nodes[p].isDirty && p != o)
          && r'.nodes[p].isFresh == (r.nodes[p].isFresh && p != o))
    && (o in r.nodes ==> r'.nodes[o].links == NO_LINKS)
  }

  lemma UnlinkSplices(r: Ring, o: OutPoint)
    requires o in r.nodes && Live(r, r.nodes[o].links.next) && Live(r, r.nodes[o].links.prev)
    ensures Spliced(r, Unlink(r, o), o, r.nodes[o].links)
  {}

  /** Neighbours stay neighbours, and the neighbours of `o` become neighbours. */
  lemma SplicedPair(r: Ring, r': Ring, o: OutPoint, l: Links, p: Ptr, q: Ptr)
    requires Spliced(r, r', o, l) && Live(r, p) && Live(r, q) && p != Pair(o) && q != Pair(o)
    requires (p == l.prev && q == l.next)
          || (p != l.prev && q != l.next && LinksAt(r, p).next == q && LinksAt(r, q).prev == p)
    ensures Live(r', p) && Live(r', q) && LinksAt(r', p).next == q && LinksAt(r', q).prev == p
  {}

  lemma SplicedJoined(r: Ring, r': Ring, order: seq<OutPoint>, order': seq<OutPoint>, k: nat, i: nat)
    requires Distinct(order) && k < |order| && i < |order| && order' == order[..k] + order[k + 1..]
    requires Joined(r, order, k) && Joined(r, order, k + 1)
    requires Joined(r, order, if i <= k then i else i + 1)
    requires Spliced(r, r', order[k], Links(Stop(order, k - 1), Stop(order, k + 1)))
    ensures Joined(r', order', i)
  {
    StopWithout(order, k, i);
    StopWithout(order, k, i - 1);
    var a := if i - 1 < k then i - 1 else i;
    var b := if i < k then i else i + 1;
    if i < k {
      StopDistinct(order, a, k - 1);
      StopDistinct(order, b, k + 1);
    } else if i > k {
      StopDistinct(order, k - 1, a);
      StopDistinct(order, k + 1, b);
    }
    SplicedPair(r, r', order[k], Links(Stop(order, k - 1), Stop(order, k + 1)), Stop(order, a), Stop(order, b));
  }

  /** Different stops are different pointers, except that the sentinel is at both ends. */
  lemma StopDistinct(order: seq<OutPoint>, i: int, j: int)
    requires Distinct(order) && -1 <= i < j <= |order| && !(i == -1 && j == |order|)
    ensures Stop(order, i) != Stop(order, j)
  {}

  lemma WithoutMembers(order: seq<OutPoint>, k: nat, order': seq<OutPoint>)
    requires Distinct(order) && k < |order| && order' == order[..k] + order[k + 1..]
    ensures Distinct(order')
    ensures forall p :: p in order' <==> p in order && p != order[k]
  {
    forall p | p in order && p != order[k] ensures p in order' {
      var i :| 0 <= i < |order| && order[i] == p;
      assert p == order'[if i < k then i else i - 1];
    }
  }

  lemma SplicedLinked(r: Ring, r': Ring, order: seq<OutPoint>, order': seq<OutPoint>, k: nat)
    requires Linked(r, order) && k < |order| && order' == order[..k] + order[k + 1..]
    requires Spliced(r, r', order[k], Links(Stop(order, k - 1), Stop(order, k + 1)))
    ensures Linked(r', order')
  {
    WithoutMembers(order, k, order');
    assert Joined(r, order, k) && Joined(r, order, k + 1);
    forall i | 0 <= i <= |order'| ensures Joined(r', order', i) {
      assert Joined(r, order, if i <= k then i else i + 1);
      SplicedJoined(r, r', order, order', k, i);
    }
    forall p | p in r'.nodes && !r'.nodes[p].Flagged() ensures r'.nodes[p].links == NO_LINKS {
      if p != order[k] { SplicedOff(r, r', order, k, p); }
    }
  }

  /** Entries off the list are nobody's neighbour. */
  lemma SplicedOff(r: Ring, r': Ring, order: seq<OutPoint>, k: nat, p: OutPoint)
    requires Linked(r, order) && k < |order|
    requires Spliced(r, r', order[k], Links(Stop(order, k - 1), Stop(order, k + 1)))
    requires p in r.nodes && !r.nodes[p].Flagged()
    ensures r'.nodes[p].links == NO_LINKS
  {
    assert Live(r, Pair(p)) && LinksAt(r', Pair(p)) == r'.nodes[p].links;
  }

  lemma UnlinkLinked(r: Ring, order: seq<OutPoint>, k: nat)
    requires Linked(r, order) && k < |order|
    ensures var o := order[k];
      && r.nodes[o].links == Links(Stop(order, k - 1), Stop(order, k + 1))
      && Live(r, r.nodes[o].links.next) && Live(r, r.nodes[o].links.prev)
      && Spliced(r, Unlink(r, o), o, r.nodes[o].links)
      && Linked(Unlink(r, o), order[..k] + order[k + 1..])
  {
    var o := order[k];
    assert Joined(r, order, k) && Joined(r, order, k + 1);
    UnlinkSplices(r, o);
    SplicedLinked(r, Unlink(r, o), order, order[..k] + order[k + 1..], k);
  }

  lemma StopWithout(order: seq<OutPoint>, k: nat, i: int)
    requires Distinct(order) && k < |order| && -1 <= i <= |order| - 1
    ensures var s := Stop(order[..k] + order[k + 1..], i);
      s == Stop(order, if i < k then i else i + 1) && s != Pair(order[k])
  {}

  // ---------------------------------------------------------------- small changes

  /** Raising flags of an entry that is already on the list. */
  lemma FlagLinked(r: Ring, order: seq<OutPoint>, o: OutPoint, dirty: bool, nowFresh: bool)
    requires Linked(r, order) && o in r.nodes && r.nodes[o].Flagged() && (dirty || nowFresh)
    ensures Linked(r.(nodes := r.nodes[o := r.nodes[o].(isDirty := dirty, isFresh := nowFresh)]), order)
  {
    var r' := r.(nodes := r.nodes[o := r.nodes[o].(isDirty := dirty, isFresh := nowFresh)]);
    forall i | 0 <= i <= |order| ensures Joined(r', order, i) { assert Joined(r, order, i); }
  }

  /** Replacing a coin. */
  lemma CoinLinked(r: Ring, order: seq<OutPoint>, o: OutPoint, c: Coin)
    requires Linked(r, order) && o in r.nodes
    ensures Linked(r.(nodes := r.nodes[o := r.nodes[o].(coin := c)]), order)
  {
    var r' := r.(nodes := r.nodes[o := r.nodes[o].(coin := c)]);
    forall i | 0 <= i <= |order| ensures Joined(r', order, i) { assert Joined(r, order, i); }
  }

  /** Inserting an unflagged entry. */
  lemma InsertLinked(r: Ring, order: seq<OutPoint>, o: OutPoint, c: Coin)
    requires Linked(r, order) && o !in r.nodes
    ensures Linked(r.(nodes := r.nodes[o := Node(c, false, false, NO_LINKS)]), order)
  {
    var r' := r.(nodes := r.nodes[o := Node(c, false, false, NO_LINKS)]);
    forall i | 0 <= i <= |order| ensures Joined(r', order, i) { assert Joined(r, order, i); }
  }

  /** Removing an unflagged entry. */
  lemma DropLinked(r: Ring, order: seq<OutPoint>, o: OutPoint)
    requires Linked(r, order) && o in r.nodes && !r.nodes[o].Flagged()
    ensures Linked(r.(nodes := r.nodes - {o}), order)
  {
    var r' := r.(nodes := r.nodes - {o});
    forall i | 0 <= i <= |order| ensures Joined(r', order, i) { assert Joined(r, order, i); }
  }

  /** A dirty entry is on the list, so the list is not empty. */
  lemma DirtyListed(r: Ring, order: seq<OutPoint>, o: OutPoint)
    requires Linked(r, order) && o in r.nodes
    ensures r.nodes[o].isDirty ==> |order| > 0
  {}

  /** What the flag operations do to the entries. */
  lemma LinkLastEntries(r: Ring, o: OutPoint, dirty: bool, nowFresh: bool)
    requires o in r.nodes && Live(r, r.sentinel.prev) && !r.nodes[o].Flagged()
    ensures EntriesOf(LinkLast(r, o, dirty, nowFresh).nodes)
         == EntriesOf(r.nodes)[o := Entry(r.nodes[o].coin, dirty, nowFresh)]
  {}

  lemma SplicedEntries(r: Ring, r': Ring, o: OutPoint, l: Links)
    requires Spliced(r, r', o, l) && o in r.nodes
    ensures EntriesOf(r'.nodes) == EntriesOf(r.nodes)[o := Entry(r.nodes[o].coin, false, false)]
  {}

  lemma EmptyRing(r: Ring, order: seq<OutPoint>)
    requires Linked(r, order)
    ensures order != [] ==> r.nodes != map[]
  {
    if order != [] { assert order[0] in r.nodes; }
  }

  lemma PutPut(es: Entries, o: OutPoint, a: Entry, b: Entry)
    ensures es[o := a][o := b] == es[o := b]
    ensures es[o := a] - {o} == es - {o}
    ensures o !in es ==> es - {o} == es
  {}

  lemma WithoutHead(order: seq<OutPoint>)
    ensures order != [] ==> Without(order, order[0]) == order[1..]
  {}

  lemma {:induction false} WithoutNone(order: seq<OutPoint>, o: OutPoint)
    requires o !in order
    ensures Without(order, o) == order
  {
    if order != [] { WithoutNone(order[1..], o); }
  }

  /** Everything SetClean needs: the list loses `o`, and the entries keep their coins. */
  lemma CleanRing(r: Ring, order: seq<OutPoint>, o: OutPoint)
    requires Linked(r, order) && o in r.nodes
    ensures !r.nodes[o].Flagged() ==>
      Without(order, o) == order && EntriesOf(r.nodes)[o := Entry(r.nodes[o].coin, false, false)] == EntriesOf(r.nodes)
    ensures r.nodes[o].Flagged() ==>
      && Live(r, r.nodes[o].links.next) && Live(r, r.nodes[o].links.prev)
      && Linked(Unlink(r, o), Without(order, o)) && |Without(order, o)| == |order| - 1
      && EntriesOf(Unlink(r, o).nodes) == EntriesOf(r.nodes)[o := Entry(r.nodes[o].coin, false, false)]
  {
    var k := FlaggedIndex(r, order, o);
    if r.nodes[o].Flagged() {
      hide Linked;
      UnlinkLinked(r, order, k);
      WithoutAt(order, k);
      SplicedEntries(r, Unlink(r, o), o, r.nodes[o].links);
    } else {
      WithoutNone(order, o);
    }
  }

  // ---------------------------------------------------------------- sums over the entries

  function EntriesOf(nodes: Nodes): (es: Entries)
    ensures es.Keys == nodes.Keys
  {
    map o | o in nodes :: Entry(nodes[o].coin, nodes[o].isDirty, nodes[o].isFresh)
  }

  ghost predicate FreshIsDirty(es: Entries) {
    forall o | o in es :: es[o].isFresh ==> es[o].isDirty
  }

  ghost predicate SpentIsNull(es: Entries) {
    forall o | o in es && es[o].coin.IsSpent() :: es[o].coin == NULL_COIN && es[o].isDirty
  }

  /** The heap memory owned by all cached coins. */
  ghost function Usage(es: Entries): nat {
    if es == map[] then 0
    else
      var o :| o in es;
      es[o].coin.DynamicMemoryUsage() + Usage(es - {o})
  }

  lemma {:induction false} UsageRemove(es: Entries, o: OutPoint)
    requires o in es
    ensures Usage(es) == es[o].coin.DynamicMemoryUsage() + Usage(es - {o})
    decreases es.Keys
  {
    var p :| p in es && Usage(es) == es[p].coin.DynamicMemoryUsage() + Usage(es - {p});
    if p != o {
      UsageRemove(es - {p}, o);
      UsageRemove(es - {o}, p);
      assert es - {p} - {o} == es - {o} - {p};
    }
  }

  lemma UsagePut(es: Entries, o: OutPoint, e: Entry)
    ensures Usage(es[o := e]) ==
            e.coin.DynamicMemoryUsage() + Usage(es) - (if o in es then es[o].coin.DynamicMemoryUsage() else 0)
  {
    UsageRemove(es[o := e], o);
    assert es[o := e] - {o} == es - {o};
    if o in es { UsageRemove(es, o); } else { assert es - {o} == es; }
  }

  lemma UsageFlags(es: Entries, o: OutPoint, dirty: bool, nowFresh: bool)
    requires o in es
    ensures Usage(es[o := Entry(es[o].coin, dirty, nowFresh)]) == Usage(es)
  {
    UsagePut(es, o, Entry(es[o].coin, dirty, nowFresh));
  }

  lemma CleanedStep(es: Entries, o: OutPoint)
    requires o in es
    ensures Cleaned(es) == if es[o].coin.IsSpent() then Cleaned(es - {o})
                           else Cleaned(es - {o})[o := Entry(es[o].coin, false, false)]
  {}

  /** Clearing flags and dropping entries without heap memory does not change the sum. */
  lemma {:induction false} UsageCleaned(es: Entries)
    requires forall o | o in es && es[o].coin.IsSpent() :: es[o].coin == NULL_COIN
    ensures Usage(Cleaned(es)) == Usage(es)
    decreases es.Keys
  {
    if es != map[] {
      var o :| o in es;
      UsageRemove(es, o);
      UsageCleaned(es - {o});
      CleanedStep(es, o);
      if !es[o].coin.IsSpent() {
        UsagePut(Cleaned(es - {o}), o, Entry(es[o].coin, false, false));
      }
    }
  }

  // ---------------------------------------------------------------- draining the list

  function Members(order: seq<OutPoint>): set<OutPoint> {
    set o | o in order
  }

  lemma MembersNext(order: seq<OutPoint>, i: nat)
    requires i < |order|
    ensures Members(order[..i + 1]) == Members(order[..i]) + {order[i]}
  {
    assert order[..i + 1] == order[..i] + [order[i]];
  }

  /** The entries when a non-erasing cursor has passed the outpoints in `done`. */
  function CleanedUpto(es: Entries, done: set<OutPoint>): Entries {
    map o | o in es && !(o in done && es[o].coin.IsSpent())
      :: if o in done then Entry(es[o].coin, false, false) else es[o]
  }

  lemma CleanedUptoNext(es: Entries, done: set<OutPoint>, o: OutPoint)
    requires o in es && o !in done
    ensures o in CleanedUpto(es, done) && CleanedUpto(es, done)[o] == es[o]
    ensures CleanedUpto(es, done + {o}) ==
            if es[o].coin.IsSpent() then CleanedUpto(es, done) - {o}
            else CleanedUpto(es, done)[o := Entry(es[o].coin, false, false)]
  {}

  /** How far a cursor has come: `i` of the entries listed in `order0` are behind it. An erasing
      cursor leaves map and list alone, the other one shortens the list from the front. */
  ghost predicate Draining(r: Ring, order: seq<OutPoint>, count: nat, willErase: bool,
                           r0: Ring, order0: seq<OutPoint>, i: nat)
  {
    && Linked(r0, order0) && Linked(r, order) && FreshIsDirty(EntriesOf(r0.nodes))
    && i <= |order0| && count == |order0| - i
    && (if willErase then r == r0 && order == order0
        else order == order0[i..] && EntriesOf(r.nodes) == CleanedUpto(EntriesOf(r0.nodes), Members(order0[..i])))
  }

  lemma DrainingStart(r: Ring, order: seq<OutPoint>, willErase: bool)
    requires Linked(r, order) && FreshIsDirty(EntriesOf(r.nodes))
    ensures Draining(r, order, |order|, willErase, r, order, 0)
    ensures r.sentinel.next == Stop(order, 0)
  {
    assert Joined(r, order, 0);
    assert Members(order[..0]) == {};
    assert CleanedUpto(EntriesOf(r.nodes), {}) == EntriesOf(r.nodes);
  }

  /** Where the cursor stands, and where it goes. */
  lemma DrainingAt(r: Ring, order: seq<OutPoint>, count: nat, willErase: bool,
                   r0: Ring, order0: seq<OutPoint>, i: nat)
    requires Draining(r, order, count, willErase, r0, order0, i) && i < |order0|
    ensures var o := order0[i];
      && o in r.nodes && r.nodes[o].Flagged() && r.nodes[o].links.next == Stop(order0, i + 1)
      && o in EntriesOf(r0.nodes) && EntriesOf(r.nodes)[o] == EntriesOf(r0.nodes)[o] && EntriesOf(r0.nodes)[o].isDirty
      && o !in Members(order0[..i])
      && (!willErase ==> order[0] == o && order[1..] == order0[i + 1..])
  {
    var o := order0[i];
    var k := if willErase then i else 0;
    assert order[k] == o && Joined(r, order, k + 1);
    assert Stop(order, k + 1) == Stop(order0, i + 1);
    if !willErase { CleanedUptoNext(EntriesOf(r0.nodes), Members(order0[..i]), o); }
  }

  /** Once the cursor is through, only clean unspent entries are left. */
  lemma DrainedEntries(r: Ring, order: seq<OutPoint>, r0: Ring, order0: seq<OutPoint>)
    requires Draining(r, order, 0, false, r0, order0, |order0|) && SpentIsNull(EntriesOf(r0.nodes))
    ensures order == [] && EntriesOf(r.nodes) == Cleaned(EntriesOf(r0.nodes))
    ensures Usage(EntriesOf(r.nodes)) == Usage(EntriesOf(r0.nodes))
    ensures FreshIsDirty(EntriesOf(r.nodes)) && r.sentinel.next == Sentinel
  {
    var es := EntriesOf(r0.nodes);
    assert order0[..|order0|] == order0;
    forall o | o in es && o !in order0
      ensures !es[o].isDirty && !es[o].isFresh
    {
      assert !r0.nodes[o].Flagged();
    }
    assert CleanedUpto(es, Members(order0)) == Cleaned(es);
    UsageCleaned(es);
    assert Joined(r, order, 0);
  }

  // ---------------------------------------------------------------- what the receiver has written

  lemma MergeNone(parent: Entries, child: Entries)
    ensures Merge(parent, child, {}) == parent
  {}

  lemma MergeNext(parent: Entries, child: Entries, done: set<OutPoint>, o: OutPoint)
    requires o in child && o !in done
    ensures Get(Merge(parent, child, done), o) == Get(parent, o)
    ensures Merge(parent, child, done + {o}) ==
            match MergeEntry(Get(parent, o), child[o])
            case None => Merge(parent, child, done) - {o}
            case Some(e) => Merge(parent, child, done)[o := e]
  {
    var a, b := Merge(parent, child, done), Merge(parent, child, done + {o});
    forall p | p != o ensures Get(a, p) == Get(b, p) {
      assert Merged(parent, child, done, p) == Merged(parent, child, done + {o}, p);
    }
  }

  /** Entries off the list are clean, so writing the listed ones writes them all. */
  lemma MergeListed(parent: Entries, r: Ring, order: seq<OutPoint>)
    requires Linked(r, order)
    ensures var es := EntriesOf(r.nodes); Merge(parent, es, Members(order)) == Merge(parent, es, es.Keys)
  {
    var es := EntriesOf(r.nodes);
    forall o
      ensures Merged(parent, es, Members(order), o) == Merged(parent, es, es.Keys, o)
    {
      if o in es && o !in order { assert !r.nodes[o].Flagged(); }
    }
  }

  lemma DbMergeNone(coins: map<OutPoint, Coin>, child: Entries)
    ensures DbMerge(coins, child, {}) == coins
  {}

  lemma DbMergeNext(coins: map<OutPoint, Coin>, child: Entries, done: set<OutPoint>, o: OutPoint)
    requires o in child && o !in done && child[o].isDirty
    ensures DbMerge(coins, child, done + {o}) ==
            if child[o].coin.IsSpent() then DbMerge(coins, child, done) - {o}
            else DbMerge(coins, child, done)[o := child[o].coin]
  {
    var a, b := DbMerge(coins, child, done), DbMerge(coins, child, done + {o});
    forall p | p != o ensures Get(a, p) == Get(b, p) {
      assert DbWritten(coins, child, done, p) == DbWritten(coins, child, done + {o}, p);
    }
  }

  lemma DbMergeListed(coins: map<OutPoint, Coin>, r: Ring, order: seq<OutPoint>)
    requires Linked(r, order)
    ensures var es := EntriesOf(r.nodes); DbMerge(coins, es, Members(order)) == DbMerge(coins, es, es.Keys)
  {
    var es := EntriesOf(r.nodes);
    forall o
      ensures DbWritten(coins, es, Members(order), o) == DbWritten(coins, es, es.Keys, o)
    {
      if o in es && o !in order { assert !r.nodes[o].Flagged(); }
    }
  }

  // ---------------------------------------------------------------- recounting

  function Dirties(es: Entries, keys: set<OutPoint>): set<OutPoint> {
    set o | o in keys && o in es && es[o].isDirty
  }

  ghost function Restricted(es: Entries, keys: set<OutPoint>): Entries {
    map o | o in es && o in keys :: es[o]
  }

  /** Taking one key out of the part still to be counted. */
  lemma RecountStep(es: Entries, keys: set<OutPoint>, o: OutPoint)
    requires o in keys && o in es
    ensures Usage(Restricted(es, keys)) == es[o].coin.DynamicMemoryUsage() + Usage(Restricted(es, keys - {o}))
    ensures |Dirties(es, keys)| == |Dirties(es, keys - {o})| + if es[o].isDirty then 1 else 0
  {
    UsageRemove(Restricted(es, keys), o);
    assert Restricted(es, keys) - {o} == Restricted(es, keys - {o});
    if es[o].isDirty {
      assert Dirties(es, keys) == Dirties(es, keys - {o}) + {o};
    } else {
      assert Dirties(es, keys) == Dirties(es, keys - {o});
    }
  }

  lemma {:induction false} MembersSize(order: seq<OutPoint>)
    requires Distinct(order)
    ensures |Members(order)| == |order|
  {
    if order != [] {
      MembersSize(order[1..]);
      assert Members(order) == {order[0]} + Members(order[1..]);
    }
  }

  /** The list is as long as there are dirty entries. */
  lemma DirtyCount(r: Ring, order: seq<OutPoint>)
    requires Linked(r, order) && FreshIsDirty(EntriesOf(r.nodes))
    ensures var es := EntriesOf(r.nodes); |Dirties(es, es.Keys)| == |order|
  {
    var es := EntriesOf(r.nodes);
    MembersSize(order);
    forall o ensures o in Dirties(es, es.Keys) <==> o in order {
      if o in es { assert o in order <==> r.nodes[o].Flagged(); }
    }
    assert Dirties(es, es.Keys) == Members(order);
  }

  lemma FirstStop(r: Ring, order: seq<OutPoint>)
    requires Linked(r, order)
    ensures r.sentinel.next == Stop(order, 0)
  {
    assert Joined(r, order, 0);
  }

  lemma NothingLeft(es: Entries)
    ensures Usage(Restricted(es, {})) == 0 && |Dirties(es, {})| == 0
  {
    assert Restricted(es, {}) == map[];
  }

  /** A walk along the list finds live neighbours that point back. */
  lemma WalkAt(r: Ring, order: seq<OutPoint>, i: nat)
    requires Linked(r, order) && i < |order|
    ensures var l := LinksAt(r, Stop(order, i));
      && Live(r, Stop(order, i)) && order[i] in r.nodes && r.nodes[order[i]].Flagged()
      && l.next == Stop(order, i + 1) && Live(r, l.next) && LinksAt(r, l.next).prev == Stop(order, i)
      && Live(r, l.prev) && LinksAt(r, l.prev).next == Stop(order, i)
  {
    assert Joined(r, order, i) && Joined(r, order, i + 1);
  }
}
