/** The coin database on disk: writes are collected in batches, each of which is written as a whole, and a crash
    may come between any two of them. */
module CoinsDisk {
  import opened Options
  import opened CoinsView

  /** Marks a database on its way from one block to another. */
  datatype Heads = Heads(newTip: Hash, oldTip: Hash)

  /** The null hash stands for a missing best block. */
  datatype Disk = Disk(coins: map<OutPoint, Coin>, tip: Hash, heads: Option<Heads>)

  datatype Write =
    | EraseBest
    | WriteBest(hash: Hash)
    | EraseHeads
    | WriteHeads(heads: Heads)
    | EraseCoin(o: OutPoint)
    | WriteCoin(o: OutPoint, coin: Coin)

  function Written(d: Disk, w: Write): Disk {
    match w
    case EraseBest => d.(tip := 0)
    case WriteBest(hash) => d.(tip := hash)
    case EraseHeads => d.(heads := None)
    case WriteHeads(heads) => d.(heads := Some(heads))
    case EraseCoin(o) => d.(coins := d.coins - {o})
    case WriteCoin(o, coin) => d.(coins := d.coins[o := coin])
  }

  function WrittenAll(d: Disk, batch: seq<Write>): Disk {
    if batch == [] then d else Written(WrittenAll(d, batch[..|batch| - 1]), batch[|batch| - 1])
  }

  lemma WrittenMore(d: Disk, batch: seq<Write>, w: Write)
    ensures WrittenAll(d, batch + [w]) == Written(WrittenAll(d, batch), w)
  {
    assert (batch + [w])[..|batch|] == batch;
  }

  /** Where the database comes from: its best block, or the block an interrupted write started from. */
  function Origin(d: Disk): Hash {
    if d.tip == 0 && d.heads.Some? then d.heads.value.oldTip else d.tip
  }

  /** A write towards `hash` may start here: nothing is interrupted, or a write towards the same block is. */
  predicate Resumable(d: Disk, hash: Hash) {
    d.tip != 0 || d.heads.None? || d.heads.value.newTip == hash
  }

  /** What a crash may leave: some of the entries are written, and the marker says between which blocks. */
  ghost predicate Interrupted(d: Disk, coins: map<OutPoint, Coin>, child: Entries, heads: Heads) {
    d.tip == 0 && d.heads == Some(heads) && exists done: set<OutPoint> :: d.coins == DbMerge(coins, child, done)
  }

  /** The states a write leaves on disk, batch by batch: interrupted ones, then the finished one. */
  ghost predicate Passed(d: Disk, child: Entries, hash: Hash, states: seq<Disk>) {
    |states| > 0 && states[|states| - 1] == Disk(DbMerge(d.coins, child, child.Keys), hash, None)
    && forall k | 0 <= k < |states| - 1 :: Interrupted(states[k], d.coins, child, Heads(hash, Origin(d)))
  }

  /** Writing entries again changes nothing, so it does not matter how many were written before. */
  lemma MergeAgain(coins: map<OutPoint, Coin>, child: Entries, done: set<OutPoint>)
    ensures DbMerge(DbMerge(coins, child, done), child, child.Keys) == DbMerge(coins, child, child.Keys)
  {
    var some := DbMerge(coins, child, done);
    forall o ensures DbWritten(some, child, child.Keys, o) == DbWritten(coins, child, child.Keys, o) {
      assert Get(some, o) == DbWritten(coins, child, done, o);
    }
    MergeSame(some, coins, child);
  }

  lemma MergeSame(a: map<OutPoint, Coin>, b: map<OutPoint, Coin>, child: Entries)
    requires forall o :: DbWritten(a, child, child.Keys, o) == DbWritten(b, child, child.Keys, o)
    ensures DbMerge(a, child, child.Keys) == DbMerge(b, child, child.Keys)
  {
    var x, y := DbMerge(a, child, child.Keys), DbMerge(b, child, child.Keys);
    forall o ensures o in x <==> o in y {
      assert DbWritten(a, child, child.Keys, o) == DbWritten(b, child, child.Keys, o);
    }
  }

  /** After a crash at any point, every outpoint holds what it held before the write or what it holds after it,
      the database knows that it is interrupted and where it came from, and writing the same entries towards the
      same block again ends exactly where the write would have ended without the crash. */
  lemma CrashSafe(d: Disk, child: Entries, hash: Hash, states: seq<Disk>, k: nat, again: seq<Disk>)
    requires hash != 0 && Passed(d, child, hash, states) && k < |states| - 1 && Passed(states[k], child, hash, again)
    ensures states[k].tip == 0 && Resumable(states[k], hash) && Origin(states[k]) == Origin(d)
    ensures forall o ::
        Get(states[k].coins, o) == Get(d.coins, o)
          || Get(states[k].coins, o) == DbWritten(d.coins, child, child.Keys, o)
    ensures again[|again| - 1] == states[|states| - 1]
  {
    var s := states[k];
    assert Interrupted(s, d.coins, child, Heads(hash, Origin(d)));
    var done: set<OutPoint> :| s.coins == DbMerge(d.coins, child, done);
    MergeAgain(d.coins, child, done);
    forall o ensures Get(s.coins, o) == DbWritten(d.coins, child, done, o) {}
  }
}
