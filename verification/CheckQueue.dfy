/** The parallel check queue: a master and any number of workers that share a mutex, two condition
    variables and a few counters. Each lock region is one step, each executed check is one step, and
    a sleeping thread may wake at any time, notified or not. */
module CheckQueue {
  import opened Arith
  import opened Options

  /** A verification job; `outcome` is what calling it returns: nothing, or an error. */
  datatype Check = Check(id: nat, outcome: Option<nat>)

  datatype Pc =
    /** The master outside Complete. */
    | Outside
    /** The master between queueing `n` checks and notifying the workers. */
    | Notifying(n: nat)
    /** Before the first lock region of Loop. */
    | Starting
    | Asleep(notified: bool)
    /** Executing a batch; `k` checks are done. */
    | Working(k: nat)
    /** A batch is over and the next lock region is due. */
    | Returning
    /** Inside a lock region. */
    | Inside
    | Stopped

  /** `batch` stays until the batch is accounted for in the next lock region. */
  datatype Thread = Thread(pc: Pc, batch: seq<Check>, local: Option<nat>, doWork: bool)

  /** What one call of Complete returned, with all checks that were added for it. */
  datatype Answer = Answer(value: Option<nat>, round: multiset<Check>)

  /** Thread 0 is the master. `round`, `finished` and `answers` only record history: the checks added
      since Complete last returned, those of them accounted for, and all values returned so far. */
  datatype State = State(
    batchSize: nat,
    queue: seq<Check>,
    nIdle: int,
    nTotal: int,
    result: Option<nat>,
    nTodo: int,
    stop: bool,
    threads: seq<Thread>,
    round: multiset<Check>,
    finished: multiset<Check>,
    answers: seq<Answer>)

  datatype Action =
    | Add(checks: seq<Check>)
    | Notify(worker: nat)
    | CallComplete
    /** Thread `t` takes the lock and runs to the end of the region. */
    | Lock(t: nat)
    /** Thread `t` executes its next check, or finds that its batch is over. */
    | Execute(t: nat)
    | Destroy

  function Init(batchSize: nat, workers: nat): State {
    State(batchSize, [], 0, 0, None, 0, false,
          [Thread(Outside, [], None, false)] + seq(workers, _ => Thread(Starting, [], None, false)),
          multiset{}, multiset{}, [])
  }

  // ---------------------------------------------------------------- steps

  predicate Enabled(s: State, a: Action) {
    && |s.threads| > 0
    && match a
       case Add(_) => s.threads[0].pc == Outside && !s.stop
       case Notify(worker) =>
         s.threads[0].pc.Notifying? && (s.threads[0].pc.n == 1 ==> Picks(s.threads, worker))
       case CallComplete => s.threads[0].pc == Outside && !s.stop
       case Lock(t) =>
         t < |s.threads| && (s.threads[t].pc.Starting? || s.threads[t].pc.Asleep? || s.threads[t].pc.Returning?)
       case Execute(t) => t < |s.threads| && s.threads[t].pc.Working?
       case Destroy => s.threads[0].pc == Outside
  }

  /** notify_one picks some worker that waits, if there is one. */
  predicate Picks(ts: seq<Thread>, worker: nat) {
    (0 < worker < |ts| && ts[worker].pc == Asleep(false)) || forall t | 0 < t < |ts| :: ts[t].pc != Asleep(false)
  }

  function SetThread(s: State, t: nat, th: Thread): State
    requires t < |s.threads|
  {
    s.(threads := s.threads[t := th])
  }

  function Woken(th: Thread): Thread {
    if th.pc.Asleep? then th.(pc := Asleep(true)) else th
  }

  /** notify_one wakes the given worker, if it sleeps; notify_all wakes every sleeping worker. */
  function NotifyWorkers(s: State, n: nat, worker: nat): State
    requires |s.threads| > 0
  {
    if n == 1 then
      if 0 < worker < |s.threads| then SetThread(s, worker, Woken(s.threads[worker])) else s
    else
      s.(threads := seq(|s.threads|, i requires 0 <= i < |s.threads| =>
                          if i == 0 then s.threads[0] else Woken(s.threads[i])))
  }

  /** The start of a lock region: account for the previous batch, or register the thread, or leave
      the set of idle threads. */
  function CleanUp(s: State, t: nat): State
    requires t < |s.threads| && Enabled(s, Lock(t))
  {
    var th := s.threads[t];
    match th.pc
    case Starting => SetThread(s, t, th.(pc := Inside)).(nTotal := s.nTotal + 1)
    case Asleep(_) => SetThread(s, t, th.(pc := Inside)).(nIdle := s.nIdle - 1)
    case Returning =>
      var s1 := HandIn(s, t);
      if s1.nTodo == 0 && t != 0 then SetThread(s1, 0, Woken(s1.threads[0])) else s1
  }

  /** The first error found by anyone is stored; later ones stay in the thread that found them. */
  function HandIn(s: State, t: nat): State
    requires t < |s.threads|
  {
    var th := s.threads[t];
    var swap := th.local.Some? && s.result.None?;
    SetThread(s, t, th.(pc := Inside, batch := [], local := if swap then s.result else th.local)).(
      result := if swap then th.local else s.result,
      nTodo := s.nTodo - |th.batch|,
      finished := s.finished + multiset(th.batch))
  }

  /** The divisor is positive in every reachable state. */
  function BatchSize(s: State): nat {
    var divisor := s.nTotal + s.nIdle + 1;
    var share := if divisor > 0 then |s.queue| / divisor else 0;
    var n := if s.batchSize < share then s.batchSize else share;
    if n < 1 then 1 else n
  }

  /** A batch is neither empty nor larger than the queue. */
  lemma BatchFits(s: State)
    requires s.queue != []
    ensures 1 <= BatchSize(s) <= |s.queue|
  {
    if s.nTotal + s.nIdle + 1 > 0 { QuotientLe(|s.queue|, s.nTotal + s.nIdle + 1); }
  }

  /** A batch of more than one check has at most the given size and at most a thread's share of the queue, counting
      idle threads twice; and it is the largest such. */
  lemma BatchShare(s: State)
    requires s.nTotal >= 0 && s.nIdle >= 0
    ensures BatchSize(s) > 1 ==> BatchSize(s) <= s.batchSize
    ensures BatchSize(s) > 1 ==> BatchSize(s) * (s.nTotal + s.nIdle + 1) <= |s.queue|
    ensures BatchSize(s) >= s.batchSize || (BatchSize(s) + 1) * (s.nTotal + s.nIdle + 1) > |s.queue|
  {
    var d := s.nTotal + s.nIdle + 1;
    DivModIs(|s.queue|, d);
    var share := |s.queue| / d;
    assert share * d <= |s.queue| < (share + 1) * d;
    if BatchSize(s) <= share { MulLe(BatchSize(s), share, d); }
    if share < BatchSize(s) { MulLe(share + 1, BatchSize(s) + 1, d); }
  }

  /** The rest of the lock region: sleep, return from Complete, stop, or take a batch. */
  function Head(s: State, t: nat): State
    requires t < |s.threads|
  {
    var th := s.threads[t];
    if s.queue == [] && !s.stop then
      if t == 0 && s.nTodo == 0 then
        SetThread(s, 0, th.(pc := Outside, local := None)).(
          nTotal := s.nTotal - 1,
          result := None,
          answers := s.answers + [Answer(s.result, s.round)],
          round := multiset{},
          finished := multiset{})
      else
        SetThread(s, t, th.(pc := Asleep(false))).(nIdle := s.nIdle + 1)
    else if s.stop then SetThread(s, t, th.(pc := Stopped))
    else
      BatchFits(s);
      var cut := |s.queue| - BatchSize(s);
      SetThread(s, t, Thread(Working(0), s.queue[cut..], th.local, s.result.None?)).(queue := s.queue[..cut])
  }

  function ExecuteOne(th: Thread): Thread
    requires th.pc.Working?
  {
    if th.doWork && th.pc.k < |th.batch| then
      var r := th.batch[th.pc.k].outcome;
      th.(local := r, pc := if r.Some? then Returning else Working(th.pc.k + 1))
    else th.(pc := Returning)
  }

  function Step(s: State, a: Action): State
    requires Enabled(s, a)
  {
    match a
    case Add(checks) =>
      if checks == [] then s
      else SetThread(s, 0, s.threads[0].(pc := Notifying(|checks|))).(
             queue := s.queue + checks,
             nTodo := s.nTodo + |checks|,
             round := s.round + multiset(checks))
    case Notify(worker) =>
      NotifyWorkers(SetThread(s, 0, s.threads[0].(pc := Outside)), s.threads[0].pc.n, worker)
    case CallComplete => SetThread(s, 0, Thread(Starting, [], None, false))
    case Lock(t) => Head(CleanUp(s, t), t)
    case Execute(t) => SetThread(s, t, ExecuteOne(s.threads[t]))
    case Destroy => s.(stop := true)
  }

  // ---------------------------------------------------------------- sums over the threads

  function Sum(ts: seq<Thread>, f: Thread -> nat): nat {
    if ts == [] then 0 else f(ts[0]) + Sum(ts[1..], f)
  }

  lemma {:induction false} SumSet(ts: seq<Thread>, f: Thread -> nat, i: nat, th: Thread)
    requires i < |ts|
    ensures Sum(ts[i := th], f) + f(ts[i]) == Sum(ts, f) + f(th)
    ensures f(ts[i]) <= Sum(ts, f)
  {
    if i > 0 {
      SumSet(ts[1..], f, i - 1, th);
      assert ts[i := th][1..] == ts[1..][i - 1 := th];
    } else {
      assert ts[0 := th][1..] == ts[1..];
    }
  }

  lemma {:induction false} SumZero(ts: seq<Thread>, f: Thread -> nat)
    ensures Sum(ts, f) == 0 <==> forall i | 0 <= i < |ts| :: f(ts[i]) == 0
  {
    if ts != [] {
      SumZero(ts[1..], f);
      assert forall i | 0 <= i < |ts| :: ts[i] == if i == 0 then ts[0] else ts[1..][i - 1];
      assert forall i | 0 <= i < |ts[1..]| :: ts[1..][i] == ts[i + 1];
    }
  }

  /** Two thread lists that agree thread by thread under `f` have the same sum. */
  lemma {:induction false} SumSame(ts: seq<Thread>, us: seq<Thread>, f: Thread -> nat)
    requires |ts| == |us| && forall i | 0 <= i < |ts| :: f(ts[i]) == f(us[i])
    ensures Sum(ts, f) == Sum(us, f)
  {
    if ts != [] { SumSame(ts[1..], us[1..], f); }
  }

  function Idle(th: Thread): nat { if th.pc.Asleep? then 1 else 0 }

  function Registered(th: Thread): nat {
    if th.pc.Outside? || th.pc.Notifying? || th.pc.Starting? then 0 else 1
  }

  function Claimed(th: Thread): nat { |th.batch| }

  function Batches(ts: seq<Thread>): multiset<Check> {
    if ts == [] then multiset{} else multiset(ts[0].batch) + Batches(ts[1..])
  }

  lemma {:induction false} BatchesSet(ts: seq<Thread>, i: nat, th: Thread)
    requires i < |ts|
    ensures Batches(ts[i := th]) + multiset(ts[i].batch) == Batches(ts) + multiset(th.batch)
  {
    if i > 0 {
      BatchesSet(ts[1..], i - 1, th);
      assert ts[i := th][1..] == ts[1..][i - 1 := th];
      var a, b, c := multiset(ts[0].batch), Batches(ts[1..][i - 1 := th]), Batches(ts[1..]);
      assert (a + b) + multiset(ts[i].batch) == a + (b + multiset(ts[i].batch));
      assert (a + c) + multiset(th.batch) == a + (c + multiset(th.batch));
    } else {
      assert ts[0 := th][1..] == ts[1..];
    }
  }

  lemma {:induction false} BatchesSame(ts: seq<Thread>, us: seq<Thread>)
    requires |ts| == |us| && forall i | 0 <= i < |ts| :: ts[i].batch == us[i].batch
    ensures Batches(ts) == Batches(us)
  {
    if ts != [] { BatchesSame(ts[1..], us[1..]); }
  }

  lemma {:induction false} BatchesNone(ts: seq<Thread>)
    requires Sum(ts, Claimed) == 0
    ensures Batches(ts) == multiset{}
  {
    if ts != [] { BatchesNone(ts[1..]); }
  }

  // ---------------------------------------------------------------- the invariant

  ghost predicate Passes(cs: seq<Check>) {
    forall i | 0 <= i < |cs| :: cs[i].outcome == None
  }

  ghost predicate AllPass(cs: multiset<Check>) {
    forall c | c in cs :: c.outcome == None
  }

  ghost predicate Blames(cs: multiset<Check>, e: Option<nat>) {
    exists c | c in cs :: c.outcome == e
  }

  /** Complete returns nothing exactly when all checks of its round succeed, and otherwise the error
      of a check of that round. */
  ghost predicate Exact(a: Answer) {
    && (a.value == None <==> AllPass(a.round))
    && (a.value.Some? ==> Blames(a.round, a.value))
  }

  /** What a thread knows. A leftover `local` from an earlier round matters in neither state: a
      working thread overwrites it, and a thread that skips its batch sees an error already stored. */
  ghost predicate ThreadOk(result: Option<nat>, stop: bool, master: bool, th: Thread) {
    && (th.pc.Outside? || th.pc.Notifying? ==> master)
    && (th.pc.Stopped? ==> stop && !master)
    && (th.batch != [] <==> th.pc.Working? || th.pc.Returning?)
    && (th.batch != [] && !th.doWork ==> result.Some?)
    && (th.pc.Working? ==> th.pc.k <= |th.batch|)
    && (th.pc.Working? && th.doWork ==>
          Passes(th.batch[..th.pc.k]) && (th.pc.k > 0 ==> th.local == None))
    && (th.pc.Returning? && th.doWork ==>
          if th.local == None then Passes(th.batch) else Blames(multiset(th.batch), th.local))
  }

  ghost predicate ThreadsOk(s: State) {
    forall t | 0 <= t < |s.threads| :: ThreadOk(s.result, s.stop, t == 0, s.threads[t])
  }

  ghost predicate Counts(s: State) {
    && s.nTodo == |s.queue| + Sum(s.threads, Claimed)
    && s.nIdle == Sum(s.threads, Idle)
    && s.nTotal == Sum(s.threads, Registered)
    && s.round == multiset(s.queue) + Batches(s.threads) + s.finished
  }

  ghost predicate ResultOk(s: State) {
    && (s.result == None ==> AllPass(s.finished))
    && (s.result.Some? ==> Blames(s.round, s.result))
    && forall i | 0 <= i < |s.answers| :: Exact(s.answers[i])
  }

  /** A sleeping master that nobody has notified still has work to wait for. */
  ghost predicate MasterOk(s: State) {
    && |s.threads| > 0
    && (s.threads[0].pc == Asleep(false) ==> s.queue == [] && s.nTodo > 0)
    && (s.stop ==> s.threads[0].pc == Outside)
  }

  ghost predicate Inv(s: State) {
    MasterOk(s) && ThreadsOk(s) && Counts(s) && ResultOk(s)
  }

  lemma InitOk(batchSize: nat, workers: nat)
    ensures Inv(Init(batchSize, workers))
  {
    var s := Init(batchSize, workers);
    SumZero(s.threads, Claimed);
    SumZero(s.threads, Idle);
    SumZero(s.threads, Registered);
    BatchesNone(s.threads);
  }

  lemma Cancel(a: multiset<Check>, b: multiset<Check>, x: multiset<Check>)
    requires a + x == b + x
    ensures a == b
  {
    forall c ensures a[c] == b[c] {
      assert (a + x)[c] == a[c] + x[c] && (b + x)[c] == b[c] + x[c];
    }
  }

  /** Replacing one thread by another with the same batch. */
  lemma CountsKeep(s: State, t: nat, th: Thread)
    requires Counts(s) && t < |s.threads| && th.batch == s.threads[t].batch
    ensures Counts(SetThread(s, t, th).(nIdle := s.nIdle - Idle(s.threads[t]) + Idle(th),
                                        nTotal := s.nTotal - Registered(s.threads[t]) + Registered(th)))
  {
    SumSet(s.threads, Claimed, t, th);
    SumSet(s.threads, Idle, t, th);
    SumSet(s.threads, Registered, t, th);
    BatchesSet(s.threads, t, th);
    Cancel(Batches(s.threads[t := th]), Batches(s.threads), multiset(th.batch));
  }

  /** A thread hands in its batch. */
  lemma CountsFinish(s: State, t: nat, th: Thread)
    requires Counts(s) && t < |s.threads| && th.batch == []
    requires Idle(th) == Idle(s.threads[t]) && Registered(th) == Registered(s.threads[t])
    ensures Counts(SetThread(s, t, th).(nTodo := s.nTodo - |s.threads[t].batch|,
                                        finished := s.finished + multiset(s.threads[t].batch)))
    ensures multiset(s.threads[t].batch) <= s.round
  {
    var b := multiset(s.threads[t].batch);
    SumSet(s.threads, Claimed, t, th);
    SumSet(s.threads, Idle, t, th);
    SumSet(s.threads, Registered, t, th);
    BatchesSet(s.threads, t, th);
    assert Batches(s.threads) == Batches(s.threads[t := th]) + b;
    var q, r, f := multiset(s.queue), Batches(s.threads[t := th]), s.finished;
    assert q + (r + b) + f == q + r + (f + b);
  }

  /** A thread takes the end of the queue as its batch. */
  lemma CountsTake(s: State, t: nat, th: Thread, cut: nat)
    requires Counts(s) && t < |s.threads| && s.threads[t].batch == [] && cut <= |s.queue|
    requires th.batch == s.queue[cut..]
    requires Idle(th) == Idle(s.threads[t]) && Registered(th) == Registered(s.threads[t])
    ensures Counts(SetThread(s, t, th).(queue := s.queue[..cut]))
  {
    SumSet(s.threads, Claimed, t, th);
    SumSet(s.threads, Idle, t, th);
    SumSet(s.threads, Registered, t, th);
    BatchesSet(s.threads, t, th);
    assert s.queue == s.queue[..cut] + s.queue[cut..];
    var q, b, r := multiset(s.queue[..cut]), multiset(th.batch), Batches(s.threads);
    assert multiset(s.queue) == q + b;
    assert Batches(s.threads[t := th]) == r + b;
    assert (q + b) + r == q + (r + b);
  }

  /** Only thread `t` changed, and it is fine. */
  lemma ThreadsSet(s: State, t: nat, s': State)
    requires ThreadsOk(s) && t < |s.threads| == |s'.threads| && s'.threads == s.threads[t := s'.threads[t]]
    requires s'.stop == s.stop && (s.result.Some? ==> s'.result.Some?)
    requires ThreadOk(s'.result, s'.stop, t == 0, s'.threads[t])
    ensures ThreadsOk(s')
  {
    forall i | 0 <= i < |s'.threads| ensures ThreadOk(s'.result, s'.stop, i == 0, s'.threads[i]) {
      if i != t {
        assert s'.threads[i] == s.threads[i];
        assert ThreadOk(s.result, s.stop, i == 0, s.threads[i]);
      }
    }
  }

  // ---------------------------------------------------------------- preservation

  lemma AddOk(s: State, checks: seq<Check>)
    requires Inv(s) && Enabled(s, Add(checks))
    ensures Inv(Step(s, Add(checks)))
  {
    var th := s.threads[0].(pc := Notifying(|checks|));
    var s' := Step(s, Add(checks));
    if checks != [] {
      CountsKeep(s, 0, th);
      assert multiset(s.queue + checks) == multiset(s.queue) + multiset(checks);
      if s.result.Some? { BlamesMore(s.round, s'.round, s.result); }
      ThreadsSet(s, 0, s');
    }
  }

  lemma BlamesMore(a: multiset<Check>, b: multiset<Check>, e: Option<nat>)
    requires Blames(a, e) && a <= b
    ensures Blames(b, e)
  {
    var c :| c in a && c.outcome == e;
    assert c in b;
  }

  /** Waking threads touches nothing but their notified marks. */
  lemma WakeOk(s: State, ts: seq<Thread>)
    requires Counts(s) && ThreadsOk(s) && |ts| == |s.threads|
    requires forall i | 0 <= i < |ts| :: ts[i] == s.threads[i] || ts[i] == Woken(s.threads[i])
    ensures Counts(s.(threads := ts)) && ThreadsOk(s.(threads := ts))
  {
    SumSame(s.threads, ts, Claimed);
    SumSame(s.threads, ts, Idle);
    SumSame(s.threads, ts, Registered);
    BatchesSame(s.threads, ts);
    forall i | 0 <= i < |ts| ensures ThreadOk(s.result, s.stop, i == 0, ts[i]) {
      assert ThreadOk(s.result, s.stop, i == 0, s.threads[i]);
    }
  }

  lemma NotifyWakes(s: State, n: nat, worker: nat)
    requires |s.threads| > 0
    ensures var s' := NotifyWorkers(s, n, worker);
      && s' == s.(threads := s'.threads) && |s'.threads| == |s.threads| && s'.threads[0] == s.threads[0]
      && forall i | 0 <= i < |s.threads| :: s'.threads[i] == s.threads[i] || s'.threads[i] == Woken(s.threads[i])
  {}

  lemma NotifyOk(s: State, worker: nat)
    requires Inv(s) && Enabled(s, Notify(worker))
    ensures Inv(Step(s, Notify(worker)))
  {
    hide NotifyWorkers, Sum, Batches;
    var th, n := s.threads[0].(pc := Outside), s.threads[0].pc.n;
    var s1 := SetThread(s, 0, th);
    assert ThreadOk(s.result, s.stop, true, s.threads[0]);
    CountsKeep(s, 0, th);
    ThreadsSet(s, 0, s1);
    hide ThreadOk, Counts, ThreadsOk, ResultOk;
    NotifyWakes(s1, n, worker);
    WakeOk(s1, NotifyWorkers(s1, n, worker).threads);
    ResultSame(s, NotifyWorkers(s1, n, worker));
  }

  lemma CallCompleteOk(s: State)
    requires Inv(s) && Enabled(s, CallComplete)
    ensures Inv(Step(s, CallComplete))
  {
    assert ThreadOk(s.result, s.stop, true, s.threads[0]);
    CountsKeep(s, 0, Thread(Starting, [], None, false));
    ThreadsSet(s, 0, Step(s, CallComplete));
  }

  lemma ExecuteOneOk(result: Option<nat>, stop: bool, master: bool, th: Thread)
    requires ThreadOk(result, stop, master, th) && th.pc.Working?
    ensures ThreadOk(result, stop, master, ExecuteOne(th))
  {
    if th.doWork && th.pc.k < |th.batch| {
      var k := th.pc.k;
      assert th.batch[..k + 1] == th.batch[..k] + [th.batch[k]];
      assert th.batch[k] in multiset(th.batch);
    } else if th.doWork {
      assert th.batch[..th.pc.k] == th.batch;
    }
  }

  lemma ExecuteOk(s: State, t: nat)
    requires Inv(s) && Enabled(s, Execute(t))
    ensures Inv(Step(s, Execute(t)))
  {
    hide ThreadOk, Counts, ResultOk;
    var th := s.threads[t];
    assert ThreadOk(s.result, s.stop, t == 0, th);
    ExecuteOneOk(s.result, s.stop, t == 0, th);
    CountsKeep(s, t, ExecuteOne(th));
    ThreadsSet(s, t, Step(s, Execute(t)));
    ResultSame(s, Step(s, Execute(t)));
  }

  lemma CleanUpOk(s: State, t: nat)
    requires Inv(s) && Enabled(s, Lock(t))
    ensures Inv(CleanUp(s, t)) && t < |CleanUp(s, t).threads| && CleanUp(s, t).threads[t].pc == Inside
  {
    if s.threads[t].pc.Returning? {
      ReturningOk(s, t);
    } else {
      EnterOk(s, t);
    }
  }

  lemma EnterOk(s: State, t: nat)
    requires Inv(s) && t < |s.threads| && (s.threads[t].pc.Starting? || s.threads[t].pc.Asleep?)
    ensures Inv(CleanUp(s, t)) && CleanUp(s, t).threads[t].pc == Inside
  {
    hide Sum, Batches;
    var th := s.threads[t];
    assert ThreadOk(s.result, s.stop, t == 0, th);
    CountsKeep(s, t, th.(pc := Inside));
    ThreadsSet(s, t, CleanUp(s, t));
    hide ThreadOk, Counts, ThreadsOk, ResultOk;
    ResultSame(s, CleanUp(s, t));
  }

  lemma HandInOk(s: State, t: nat)
    requires Inv(s) && t < |s.threads| && s.threads[t].pc.Returning?
    ensures var s1 := HandIn(s, t); Counts(s1) && ThreadsOk(s1) && ResultOk(s1)
  {
    hide Sum, Batches;
    var th, s1 := s.threads[t], HandIn(s, t);
    assert ThreadOk(s.result, s.stop, t == 0, th);
    CountsFinish(s, t, s1.threads[t]);
    ThreadsSet(s, t, s1);
    assert ResultOk(s1) by {
      if th.local.Some? && s.result.None? { BlamesMore(multiset(th.batch), s.round, th.local); }
      if s1.result == None { PassesAll(th.batch); }
    }
  }

  lemma TodoNat(s: State)
    requires Counts(s)
    ensures s.nTodo >= 0
  {
    hide Batches, Sum;
  }

  lemma ReturningOk(s: State, t: nat)
    requires Inv(s) && t < |s.threads| && s.threads[t].pc.Returning?
    ensures Inv(CleanUp(s, t)) && CleanUp(s, t).threads[t].pc == Inside
  {
    hide Counts, ThreadOk, ResultOk, ThreadsOk;
    HandInOk(s, t);
    var s1 := HandIn(s, t);
    TodoNat(s1);
    WakeOk(s1, s1.threads[0 := Woken(s1.threads[0])]);
    ResultSame(s1, CleanUp(s, t));
  }

  lemma ResultSame(s: State, s': State)
    requires ResultOk(s) && s'.result == s.result && s'.round == s.round
    requires s'.finished == s.finished && s'.answers == s.answers
    ensures ResultOk(s')
  {}

  lemma PassesAll(cs: seq<Check>)
    requires Passes(cs)
    ensures AllPass(multiset(cs))
  {
    forall c | c in multiset(cs) ensures c.outcome == None {
      assert c in cs;
    }
  }

  /** Complete returns: everything added in the round is accounted for, so the answer is exact, and
      nothing of the round is left behind for the next one. */
  lemma ReturnOk(s: State)
    requires Inv(s) && s.threads[0].pc == Inside && s.queue == [] && !s.stop && s.nTodo == 0
    ensures Inv(Head(s, 0))
    ensures Exact(Answer(s.result, s.round))
  {
    SumZero(s.threads, Claimed);
    BatchesNone(s.threads);
    assert s.round == s.finished;
    var s' := Head(s, 0);
    CountsKeep(s, 0, s'.threads[0]);
    BatchesNone(s'.threads);
    assert Exact(Answer(s.result, s.round));
    forall i | 0 <= i < |s'.threads| ensures ThreadOk(s'.result, s'.stop, i == 0, s'.threads[i]) {
      assert ThreadOk(s.result, s.stop, i == 0, s.threads[i]);
      assert Claimed(s.threads[i]) == 0;
    }
  }

  lemma TakeOk(s: State, t: nat)
    requires Inv(s) && t < |s.threads| && s.threads[t].pc == Inside && s.queue != [] && !s.stop
    ensures Inv(Head(s, t))
  {
    hide BatchSize, Sum, Batches;
    BatchFits(s);
    var s' := Head(s, t);
    assert ThreadOk(s.result, s.stop, t == 0, s.threads[t]);
    CountsTake(s, t, s'.threads[t], |s.queue| - BatchSize(s));
    ThreadsSet(s, t, s');
    hide ThreadOk, Counts, ThreadsOk, ResultOk;
    ResultSame(s, s');
  }

  lemma SleepOk(s: State, t: nat)
    requires Inv(s) && t < |s.threads| && s.threads[t].pc == Inside && s.queue == [] && !s.stop
    requires !(t == 0 && s.nTodo == 0)
    ensures Inv(Head(s, t))
  {
    assert ThreadOk(s.result, s.stop, t == 0, s.threads[t]);
    CountsKeep(s, t, s.threads[t].(pc := Asleep(false)));
    ThreadsSet(s, t, Head(s, t));
  }

  lemma HeadOk(s: State, t: nat)
    requires Inv(s) && t < |s.threads| && s.threads[t].pc == Inside
    ensures Inv(Head(s, t))
  {
    assert ThreadOk(s.result, s.stop, t == 0, s.threads[t]);
    if s.queue == [] && !s.stop {
      if t == 0 && s.nTodo == 0 { ReturnOk(s); } else { SleepOk(s, t); }
    } else if s.stop {
      CountsKeep(s, t, s.threads[t].(pc := Stopped));
      ThreadsSet(s, t, Head(s, t));
    } else {
      TakeOk(s, t);
    }
  }

  /** Every step keeps the invariant, whatever the interleaving. */
  lemma StepOk(s: State, a: Action)
    requires Inv(s) && Enabled(s, a)
    ensures Inv(Step(s, a))
  {
    match a
    case Add(checks) => AddOk(s, checks);
    case Notify(worker) => NotifyOk(s, worker);
    case CallComplete => CallCompleteOk(s);
    case Lock(t) => CleanUpOk(s, t); HeadOk(CleanUp(s, t), t);
    case Execute(t) => ExecuteOk(s, t);
    case Destroy => DestroyOk(s);
  }

  lemma DestroyOk(s: State)
    requires Inv(s) && Enabled(s, Destroy)
    ensures Inv(Step(s, Destroy))
  {
    forall i | 0 <= i < |s.threads| ensures ThreadOk(s.result, true, i == 0, s.threads[i]) {
      assert ThreadOk(s.result, s.stop, i == 0, s.threads[i]);
    }
  }

  // ---------------------------------------------------------------- whole runs

  /** The actions can be taken one after the other from `s`. */
  ghost predicate IsRun(s: State, actions: seq<Action>)
    decreases actions
  {
    actions == [] || (Enabled(s, actions[0]) && IsRun(Step(s, actions[0]), actions[1..]))
  }

  ghost function Run(s: State, actions: seq<Action>): State
    requires IsRun(s, actions)
    decreases actions
  {
    if actions == [] then s else Run(Step(s, actions[0]), actions[1..])
  }

  lemma {:induction false} RunOk(s: State, actions: seq<Action>)
    requires Inv(s) && IsRun(s, actions)
    ensures Inv(Run(s, actions))
    decreases actions
  {
    if actions != [] {
      StepOk(s, actions[0]);
      RunOk(Step(s, actions[0]), actions[1..]);
    }
  }

  /** In every interleaving, with any number of workers, every value that Complete ever returned is
      exact for the checks added in its own round. */
  lemma CompleteIsExact(batchSize: nat, workers: nat, actions: seq<Action>, i: nat)
    requires IsRun(Init(batchSize, workers), actions)
    requires i < |Run(Init(batchSize, workers), actions).answers|
    ensures Exact(Run(Init(batchSize, workers), actions).answers[i])
  {
    InitOk(batchSize, workers);
    RunOk(Init(batchSize, workers), actions);
  }

  /** In every interleaving nTodo counts the queue and the unfinished batches, and a master that
      sleeps without having been notified is waiting for a worker that still holds a batch. */
  lemma NoLostWakeUp(batchSize: nat, workers: nat, actions: seq<Action>)
    requires IsRun(Init(batchSize, workers), actions)
    ensures var s := Run(Init(batchSize, workers), actions);
      && s.nTodo == |s.queue| + Sum(s.threads, Claimed)
      && (|s.threads| > 0 && s.threads[0].pc == Asleep(false) ==>
            exists t | 0 < t < |s.threads| :: s.threads[t].pc.Working? || s.threads[t].pc.Returning?)
  {
    InitOk(batchSize, workers);
    RunOk(Init(batchSize, workers), actions);
    var s := Run(Init(batchSize, workers), actions);
    if s.threads[0].pc == Asleep(false) { var t := Holder(s); }
  }

  /** While checks are queued and the master is not about to notify, some worker is awake or has been notified. */
  ghost predicate Alert(s: State) {
    s.queue != [] && !s.stop && |s.threads| > 1 && !s.threads[0].pc.Notifying? ==> SomeUp(s.threads)
  }

  ghost predicate SomeUp(ts: seq<Thread>) {
    exists t | 0 < t < |ts| :: ts[t].pc != Asleep(false)
  }

  lemma NotifyAlerts(s: State, n: nat, worker: nat)
    requires |s.threads| > 1 && (n == 1 ==> Picks(s.threads, worker))
    ensures SomeUp(NotifyWorkers(s, n, worker).threads)
  {
    var ts := NotifyWorkers(s, n, worker).threads;
    var t := if n == 1 && 0 < worker < |s.threads| then worker else 1;
    assert ts[t].pc != Asleep(false);
  }

  /** What the start of a lock region leaves alone. */
  lemma CleanUpFacts(s: State, t: nat)
    requires Enabled(s, Lock(t))
    ensures var s1 := CleanUp(s, t);
      && s1.queue == s.queue && s1.stop == s.stop && |s1.threads| == |s.threads|
      && (forall i | 0 < i < |s.threads| && i != t :: s1.threads[i] == s.threads[i])
      && (s.threads[0].pc.Notifying? ==> s1.threads[0] == s.threads[0] && t != 0)
  {}

  lemma LockAlert(s: State, t: nat)
    requires Alert(s) && Enabled(s, Lock(t))
    ensures Alert(Step(s, Lock(t)))
  {
    hide CleanUp, Head;
    CleanUpFacts(s, t);
    HeadAlert(s, CleanUp(s, t), t);
  }

  lemma HeadFacts(s: State, t: nat)
    requires t < |s.threads|
    ensures var s' := Head(s, t);
      && |s'.threads| == |s.threads| && s'.stop == s.stop && (s'.queue != [] ==> s.queue != [])
      && (forall i | 0 <= i < |s.threads| && i != t :: s'.threads[i] == s.threads[i])
      && (s'.queue != [] && !s.stop ==> s'.threads[t].pc.Working?)
  {}

  lemma HeadAlert(s: State, s1: State, t: nat)
    requires Alert(s) && t < |s.threads| && s1.queue == s.queue && s1.stop == s.stop && |s1.threads| == |s.threads|
    requires forall i | 0 < i < |s.threads| && i != t :: s1.threads[i] == s.threads[i]
    requires s.threads[0].pc.Notifying? ==> s1.threads[0] == s.threads[0] && t != 0
    ensures Alert(Head(s1, t))
  {
    var s2 := Head(s1, t);
    HeadFacts(s1, t);
    hide Head;
    if s2.queue != [] && !s2.stop && |s2.threads| > 1 && !s2.threads[0].pc.Notifying? {
      if t > 0 {
        assert s2.threads[t].pc != Asleep(false);
      } else {
        var i :| 0 < i < |s.threads| && s.threads[i].pc != Asleep(false);
        assert s2.threads[i].pc != Asleep(false);
      }
    }
  }

  lemma StepAlert(s: State, a: Action)
    requires Inv(s) && Alert(s) && Enabled(s, a)
    ensures Alert(Step(s, a))
  {
    match a
    case Add(_) =>
    case Notify(worker) =>
      if |s.threads| > 1 { NotifyAlerts(SetThread(s, 0, s.threads[0].(pc := Outside)), s.threads[0].pc.n, worker); }
    case CallComplete =>
      UpAfter(s.threads, Step(s, a).threads, 0);
    case Lock(t) =>
      assert ThreadOk(s.result, s.stop, t == 0, s.threads[t]);
      LockAlert(s, t);
    case Execute(t) =>
      UpAfter(s.threads, Step(s, a).threads, t);
    case Destroy =>
  }

  lemma UpAfter(ts: seq<Thread>, us: seq<Thread>, t: nat)
    requires t < |ts| == |us| && us == ts[t := us[t]] && us[t].pc != Asleep(false)
    ensures SomeUp(ts) ==> SomeUp(us)
  {
    if SomeUp(ts) {
      var i :| 0 < i < |ts| && ts[i].pc != Asleep(false);
      assert us[i].pc != Asleep(false);
    }
  }

  lemma {:induction false} RunAlert(s: State, actions: seq<Action>)
    requires Inv(s) && Alert(s) && IsRun(s, actions)
    ensures Alert(Run(s, actions))
    decreases actions
  {
    hide Inv, Alert;
    if actions != [] {
      StepOk(s, actions[0]);
      StepAlert(s, actions[0]);
      RunAlert(Step(s, actions[0]), actions[1..]);
    }
  }

  /** In every interleaving, checks are never left in the queue with all workers asleep: once Add has notified, some
      worker is awake or on its way. */
  lemma QueueNeverSleeps(batchSize: nat, workers: nat, actions: seq<Action>)
    requires IsRun(Init(batchSize, workers), actions)
    ensures var s := Run(Init(batchSize, workers), actions);
      s.queue != [] && !s.stop && |s.threads| > 1 && !s.threads[0].pc.Notifying? ==>
        exists t | 0 < t < |s.threads| :: s.threads[t].pc != Asleep(false) && !s.threads[t].pc.Stopped?
  {
    InitOk(batchSize, workers);
    RunOk(Init(batchSize, workers), actions);
    RunAlert(Init(batchSize, workers), actions);
    var s := Run(Init(batchSize, workers), actions);
    if s.queue != [] && !s.stop && |s.threads| > 1 && !s.threads[0].pc.Notifying? {
      var t :| 0 < t < |s.threads| && s.threads[t].pc != Asleep(false);
      assert ThreadOk(s.result, s.stop, t == 0, s.threads[t]);
    }
  }

  /** The first error that is handed in stays the result until Complete returns it. */
  lemma FirstErrorStays(s: State, a: Action)
    requires Inv(s) && Enabled(s, a) && s.result.Some?
    ensures Step(s, a).result == s.result
            || (a == Lock(0) && |Step(s, a).answers| == |s.answers| + 1
              && Step(s, a).answers[|s.answers|].value == s.result)
  {
    if a.Lock? {
      ResultKept(s, a.t);
    } else if a.Notify? {
      hide NotifyWorkers;
      NotifyWakes(SetThread(s, 0, s.threads[0].(pc := Outside)), s.threads[0].pc.n, a.worker);
    }
  }

  lemma ResultKept(s: State, t: nat)
    requires Enabled(s, Lock(t)) && s.result.Some?
    ensures CleanUp(s, t).result == s.result && CleanUp(s, t).answers == s.answers
    ensures var s1 := CleanUp(s, t);
      Head(s1, t).result == s1.result
      || (t == 0 && |Head(s1, t).answers| == |s1.answers| + 1 && Head(s1, t).answers[|s1.answers|].value == s1.result)
  {}

  /** A batch that is taken after an error has been stored is to be skipped, */
  lemma TakenAfterError(s: State, t: nat)
    requires t < |s.threads| && Head(s, t).threads[t].pc.Working? && !s.threads[t].pc.Working? && s.result.Some?
    ensures !Head(s, t).threads[t].doWork
  {}

  /** and then no check of it is executed. */
  lemma SkipsWork(th: Thread)
    requires th.pc.Working? && !th.doWork
    ensures ExecuteOne(th).pc == Returning && ExecuteOne(th).local == th.local
  {}

  lemma Holder(s: State) returns (t: nat)
    requires Inv(s) && s.threads[0].pc == Asleep(false)
    ensures 0 < t < |s.threads| && (s.threads[t].pc.Working? || s.threads[t].pc.Returning?)
  {
    SumZero(s.threads, Claimed);
    var i :| 0 <= i < |s.threads| && Claimed(s.threads[i]) != 0;
    assert ThreadOk(s.result, s.stop, i == 0, s.threads[i]);
    assert ThreadOk(s.result, s.stop, true, s.threads[0]);
    t := i;
  }

  // ---------------------------------------------------------------- Complete terminates

  /** How many more steps a thread can take before it sleeps. */
  function Weight(th: Thread): nat {
    match th.pc
    case Starting => 1
    case Asleep(notified) => if notified then 1 else 0
    case Working(k) => 3 + if k < |th.batch| then |th.batch| - k else 0
    case Returning => 2
    case Inside => 1
    case _ => 0
  }

  function Potential(s: State): nat {
    6 * |s.queue| + Sum(s.threads, Weight)
  }

  predicate IsThreadStep(a: Action) { a.Lock? || a.Execute? }

  lemma ExecuteLess(s: State, t: nat)
    requires Enabled(s, Execute(t))
    ensures Potential(Step(s, Execute(t))) < Potential(s)
  {
    SumSet(s.threads, Weight, t, ExecuteOne(s.threads[t]));
  }

  lemma HandInLess(s: State, t: nat)
    requires t < |s.threads| && s.threads[t].pc.Returning?
    ensures Potential(HandIn(s, t)) == Potential(s) - 1
  {
    SumSet(s.threads, Weight, t, HandIn(s, t).threads[t]);
  }

  lemma WakeMasterMore(s: State)
    requires |s.threads| > 0
    ensures Potential(SetThread(s, 0, Woken(s.threads[0]))) <= Potential(s) + 1
  {
    SumSet(s.threads, Weight, 0, Woken(s.threads[0]));
  }

  /** Entering the region costs nothing and leaves the thread its last step. */
  lemma CleanUpLess(s: State, t: nat)
    requires Enabled(s, Lock(t))
    ensures Potential(CleanUp(s, t)) <= Potential(s) + if s.threads[t].pc == Asleep(false) then 1 else 0
    ensures CleanUp(s, t).queue == s.queue
  {
    var th := s.threads[t];
    if th.pc.Returning? {
      hide Potential;
      HandInLess(s, t);
      WakeMasterMore(HandIn(s, t));
    } else {
      EnterLess(s, t);
    }
  }

  lemma EnterLess(s: State, t: nat)
    requires t < |s.threads| && (s.threads[t].pc.Starting? || s.threads[t].pc.Asleep?)
    ensures Potential(CleanUp(s, t)) <= Potential(s) + if s.threads[t].pc == Asleep(false) then 1 else 0
  {
    SumSet(s.threads, Weight, t, s.threads[t].(pc := Inside));
  }

  lemma HeadLess(s: State, t: nat)
    requires t < |s.threads| && s.threads[t].pc == Inside && !s.stop
    ensures Potential(Head(s, t)) + 1 <= Potential(s)
    ensures s.queue != [] ==> Potential(Head(s, t)) + 2 <= Potential(s)
  {
    var s' := Head(s, t);
    SumSet(s.threads, Weight, t, s'.threads[t]);
    if s.queue != [] { BatchFits(s); }
  }

  /** Until the destructor runs, every thread step uses up potential, except that a thread which is
      woken for nothing goes back to sleep and leaves the state as it was. */
  lemma ThreadStepLess(s: State, a: Action)
    requires Inv(s) && Enabled(s, a) && IsThreadStep(a) && !s.stop
    ensures Potential(Step(s, a)) < Potential(s) || Step(s, a) == s
    ensures !Step(s, a).stop
  {
    if a.Execute? {
      ExecuteLess(s, a.t);
    } else {
      var t := a.t;
      CleanUpOk(s, t);
      CleanUpLess(s, t);
      HeadLess(CleanUp(s, t), t);
      if s.threads[t].pc == Asleep(false) && s.queue == [] { BackToSleep(s, t); }
    }
  }

  lemma BackToSleep(s: State, t: nat)
    requires Inv(s) && Enabled(s, Lock(t)) && s.threads[t].pc == Asleep(false) && s.queue == [] && !s.stop
    ensures Step(s, Lock(t)) == s
  {
    assert s.threads[t := s.threads[t].(pc := Inside)][t := s.threads[t]] == s.threads;
  }

  /** Between steps no thread is in a lock region. */
  ghost predicate Quiet(s: State) {
    forall t | 0 <= t < |s.threads| :: s.threads[t].pc != Inside
  }

  lemma CleanUpOthers(s: State, t: nat)
    requires Enabled(s, Lock(t)) && Quiet(s)
    ensures var s1 := CleanUp(s, t);
      |s1.threads| == |s.threads| && forall i | 0 <= i < |s1.threads| && i != t :: s1.threads[i].pc != Inside
  {}

  lemma StepQuiet(s: State, a: Action)
    requires Quiet(s) && Enabled(s, a)
    ensures Quiet(Step(s, a))
  {
    if a.Lock? {
      hide CleanUp, Head;
      CleanUpOthers(s, a.t);
      HeadLeaves(CleanUp(s, a.t), a.t);
    } else if a.Notify? {
      hide NotifyWorkers;
      NotifyWakes(SetThread(s, 0, s.threads[0].(pc := Outside)), s.threads[0].pc.n, a.worker);
    }
  }

  lemma HeadLeaves(s: State, t: nat)
    requires t < |s.threads|
    ensures var s' := Head(s, t); |s'.threads| == |s.threads| && s'.threads == s.threads[t := s'.threads[t]]
    ensures Head(s, t).threads[t].pc != Inside
  {}

  lemma {:induction false} RunQuiet(s: State, actions: seq<Action>)
    requires Quiet(s) && IsRun(s, actions)
    ensures Quiet(Run(s, actions))
    decreases actions
  {
    if actions != [] {
      StepQuiet(s, actions[0]);
      RunQuiet(Step(s, actions[0]), actions[1..]);
    }
  }

  /** After any run, as long as the master is in Complete, some thread can do useful work. */
  lemma NeverStuck(batchSize: nat, workers: nat, actions: seq<Action>) returns (a: Action)
    requires IsRun(Init(batchSize, workers), actions)
    requires var s := Run(Init(batchSize, workers), actions);
      !s.stop && |s.threads| > 0 && !s.threads[0].pc.Outside? && !s.threads[0].pc.Notifying?
    ensures var s := Run(Init(batchSize, workers), actions);
      Enabled(s, a) && IsThreadStep(a) && Potential(Step(s, a)) < Potential(s)
  {
    InitOk(batchSize, workers);
    RunOk(Init(batchSize, workers), actions);
    RunQuiet(Init(batchSize, workers), actions);
    a := Progress(Run(Init(batchSize, workers), actions));
  }

  /** While the master is in Complete, some thread can take a step that uses up potential, so the
      threads cannot all be stuck. */
  lemma Progress(s: State) returns (a: Action)
    requires Inv(s) && !s.stop && !s.threads[0].pc.Outside? && !s.threads[0].pc.Notifying?
    requires Quiet(s)
    ensures Enabled(s, a) && IsThreadStep(a)
    ensures Potential(Step(s, a)) < Potential(s)
  {
    var t := 0;
    if s.threads[0].pc == Asleep(false) { t := Holder(s); }
    assert ThreadOk(s.result, s.stop, t == 0, s.threads[t]);
    if s.threads[t].pc.Working? {
      a := Execute(t);
      ExecuteLess(s, t);
    } else {
      a := Lock(t);
      CleanUpOk(s, t);
      CleanUpLess(s, t);
      HeadLess(CleanUp(s, t), t);
    }
  }

  /** No step of the sequence is a mere change back to sleep. */
  ghost predicate Busy(s: State, actions: seq<Action>)
    requires IsRun(s, actions)
    decreases actions
  {
    actions == []
    || (IsThreadStep(actions[0]) && Step(s, actions[0]) != s && Busy(Step(s, actions[0]), actions[1..]))
  }

  /** Between two calls of the master the threads can take at most `Potential` steps that change
      anything. With `Progress`, Complete therefore returns. */
  lemma {:induction false} BoundedWork(s: State, actions: seq<Action>)
    requires Inv(s) && !s.stop && IsRun(s, actions) && Busy(s, actions)
    ensures |actions| <= Potential(s)
    decreases actions
  {
    hide Step, Inv, Potential, Enabled;
    if actions != [] {
      StepOk(s, actions[0]);
      ThreadStepLess(s, actions[0]);
      BoundedWork(Step(s, actions[0]), actions[1..]);
    }
  }
}
