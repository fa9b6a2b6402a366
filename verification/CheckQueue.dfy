/** The parallel check queue: one master and any number of workers over one mutex and two
    condition variables. Each critical section of `Loop` and `Add` is one atomic step; what
    a thread does between two sections is another. Wakeups may be spurious.
 */
module CheckQueue {
  import opened Collections

  /** A verification; `outcome` is what calling it returns (Some is a failure). */
  datatype Check = Check(id: nat, outcome: Option<nat>)

  /** The members guarded by `m_mutex`. */
  datatype Shared = Shared(queue: seq<Check>, nIdle: int, nTotal: int, result: Option<nat>, nTodo: int, stop: bool)

  /** Where a thread is, with those locals of `Loop` that are live there. */
  datatype Thread =
    | Outside                                                       // not in Loop
    | Notifying(all: bool)                                          // leaving Add, or the destructor
    | Starting                                                      // about to take the mutex for the first time
    | Waiting(local: Option<nat>)                                   // inside cond.wait
    | Woken(local: Option<nat>)                                     // notified, about to take the mutex again
    | Working(batch: seq<Check>, doWork: bool, local: Option<nat>)  // with a batch, without the mutex
    | Finished(batch: seq<Check>, doWork: bool, local: Option<nat>) // batch done, about to take the mutex
    | Holding(local: Option<nat>)                                   // with the mutex, clean-up done
  {
    predicate InLoop() {
      !Outside? && !Notifying?
    }

    predicate HasBatch() {
      Working? || Finished?
    }
  }

  // ---------------------------------------------------------------------------------------
  // What the code of one thread computes

  /** The value of `local_result` after the loop over a batch. */
  function RunBatch(batch: seq<Check>, local: Option<nat>): Option<nat> {
    if batch == [] then local
    else if batch[0].outcome.Some? then batch[0].outcome
    else RunBatch(batch[1..], batch[0].outcome)
  }

  function Min(a: int, b: int): int {
    if a < b then a else b
  }

  /** How many checks the next batch holds. */
  function BatchSize(q: Shared, maxBatch: nat): (n: nat)
    requires q.nTotal + q.nIdle + 1 > 0
    ensures q.queue != [] ==> 1 <= n <= |q.queue|
    ensures n <= 1 || n <= maxBatch
  {
    var share := |q.queue| / (q.nTotal + q.nIdle + 1);
    var n := Min(maxBatch, share);
    if n < 1 then 1 else n
  }

  /** The clean-up at the top of a section: the new shared state, the thread's
      `local_result`, and whether the master is notified. */
  function CleanUp(q: Shared, th: Thread, isMaster: bool): (Shared, Option<nat>, bool)
    requires th.Starting? || th.Woken? || th.Finished?
  {
    match th
    case Starting => (q.(nTotal := q.nTotal + 1), None, false)
    case Woken(local) => (q.(nIdle := q.nIdle - 1), local, false)
    case Finished(batch, _, local) =>
      var publish := local.Some? && q.result.None?;
      var todo := q.nTodo - |batch|;
      (q.(result := if publish then local else q.result, nTodo := todo),
       if publish then None else local,
       todo == 0 && !isMaster)
  }

  /** The rest of the section: wait, return (with the value returned), or leave with a batch
      of `n` checks. */
  function LoopHead(q: Shared, local: Option<nat>, isMaster: bool, n: nat): (Shared, Thread, Option<Option<nat>>)
    requires q.queue != [] ==> 1 <= n <= |q.queue|
  {
    if q.stop then (q, Outside, None)
    else if q.queue == [] then
      if isMaster && q.nTodo == 0 then (q.(nTotal := q.nTotal - 1, result := None), Outside, Some(q.result))
      else (q.(nIdle := q.nIdle + 1), Waiting(local), None)
    else
      var keep := |q.queue| - n;
      (q.(queue := q.queue[..keep]), Working(q.queue[keep..], q.result.None?, local), None)
  }

  // ---------------------------------------------------------------------------------------
  // The class

  class Queue {
    var queue: seq<Check>
    var nIdle: int
    var nTotal: int
    var result: Option<nat>
    var nTodo: int
    var stop: bool
    const nBatchSize: nat

    function State(): Shared
      reads this
    {
      Shared(queue, nIdle, nTotal, result, nTodo, stop)
    }

    constructor (batchSize: nat)
      ensures State() == Shared([], 0, 0, None, 0, false) && nBatchSize == batchSize
    {
      nBatchSize := batchSize;
      queue, nIdle, nTotal, result, nTodo, stop := [], 0, 0, None, 0, false;
    }

    /** The critical section of `Add`. */
    method Add(checks: seq<Check>)
      modifies this
      ensures State() == old(State()).(queue := old(queue) + checks, nTodo := old(nTodo) + |checks|)
    {
      if checks == [] { return; }
      queue := queue + checks;
      nTodo := nTodo + |checks|;
    }

    /** A critical section of `Loop`, from taking the mutex to releasing it. */
    method Section(th: Thread, isMaster: bool) returns (next: Thread, answer: Option<Option<nat>>, notifyMaster: bool)
      requires th.Starting? || th.Woken? || th.Finished?
      requires nTotal >= 0 && nIdle >= if th.Woken? then 1 else 0
      modifies this
      ensures var (q, local, n) := CleanUp(old(State()), th, isMaster);
              (State(), next, answer) == LoopHead(q, local, isMaster, BatchSize(q, nBatchSize)) && notifyMaster == n
    {
      var local: Option<nat>;
      local, notifyMaster := CleanUpSection(th, isMaster);
      next, answer := RestOfSection(local, isMaster);
    }

    /** The clean-up of a section. */
    method CleanUpSection(th: Thread, isMaster: bool) returns (local: Option<nat>, notifyMaster: bool)
      requires th.Starting? || th.Woken? || th.Finished?
      modifies this
      ensures (State(), local, notifyMaster) == CleanUp(old(State()), th, isMaster)
    {
      local, notifyMaster := None, false;
      match th {
        case Starting =>
          nTotal := nTotal + 1;
        case Woken(l) =>
          local := l;
          nIdle := nIdle - 1;
        case Finished(batch, _, l) =>
          local := l;
          if local.Some? && result.None? {
            local, result := result, local;
          }
          nTodo := nTodo - |batch|;
          notifyMaster := nTodo == 0 && !isMaster;
      }
    }

    /** The loop that waits, returns or takes a batch. */
    method RestOfSection(local: Option<nat>, isMaster: bool) returns (next: Thread, answer: Option<Option<nat>>)
      requires nTotal + nIdle >= 0
      modifies this
      ensures (State(), next, answer) == LoopHead(old(State()), local, isMaster, BatchSize(old(State()), nBatchSize))
    {
      answer := None;
      if queue == [] && !stop {
        if isMaster && nTodo == 0 {
          nTotal := nTotal - 1;
          answer := Some(result);
          result := None;
          return Outside, answer;
        }
        nIdle := nIdle + 1;
        return Waiting(local), answer;
      }
      if stop {
        return Outside, answer;
      }
      var nNow := ChooseBatchSize();
      var batch := queue[|queue| - nNow..];
      queue := queue[..|queue| - nNow];
      next := Working(batch, result.None?, local);
    }

    method ChooseBatchSize() returns (nNow: nat)
      requires nTotal + nIdle >= 0
      ensures nNow == BatchSize(State(), nBatchSize)
    {
      var share := |queue| / (nTotal + nIdle + 1);
      nNow := if nBatchSize < share then nBatchSize else share;
      if nNow < 1 { nNow := 1; }
    }

    /** The loop over the batch, outside the mutex. */
    method Execute(th: Thread) returns (next: Thread)
      requires th.Working?
      ensures next == Finished(th.batch, th.doWork, if th.doWork then RunBatch(th.batch, th.local) else th.local)
    {
      var local := th.local;
      if th.doWork {
        var i := 0;
        while i < |th.batch|
          invariant 0 <= i <= |th.batch|
          invariant RunBatch(th.batch, th.local) == RunBatch(th.batch[i..], local)
        {
          local := th.batch[i].outcome;
          if local.Some? { break; }
          i := i + 1;
        }
      }
      next := Finished(th.batch, th.doWork, local);
    }
  }

  // ---------------------------------------------------------------------------------------
  // The protocol: thread 0 is the master

  /** A finished call of `Complete`: the checks added since the previous one, and its value. */
  datatype Round = Round(added: multiset<Check>, answer: Option<nat>)

  /** `added` and `done` are history: the checks of the current round, and those of them whose
      batch has been cleaned up. `rounds` are the finished calls of `Complete`. */
  datatype Config = Config(q: Shared, threads: seq<Thread>, added: multiset<Check>, done: multiset<Check>, rounds: seq<Round>)

  datatype Action =
    | Add(checks: seq<Check>)
    | NotifyOne(target: nat)
    | NotifyAll
    | Complete
    | Enter(t: nat)
    | Run(t: nat)
    | Spurious(t: nat)
    | RequestStop

  function Wake(th: Thread): Thread {
    if th.Waiting? then Woken(th.local) else th
  }

  function WakeWorkers(threads: seq<Thread>): (r: seq<Thread>)
    ensures |r| == |threads|
  {
    seq(|threads|, i requires 0 <= i < |threads| => if i == 0 then threads[0] else Wake(threads[i]))
  }

  /** `m_control_mutex` lets one master at a time add checks and then complete the round. */
  predicate Enabled(s: Config, a: Action)
    requires s.threads != []
  {
    match a
    case Add(_) => s.threads[0].Outside? && !s.q.stop
    case NotifyOne(w) => s.threads[0] == Notifying(false) && 0 < w < |s.threads|
    case NotifyAll => s.threads[0].Notifying?
    case Complete => s.threads[0].Outside? && !s.q.stop
    case Enter(t) => t < |s.threads| && (s.threads[t].Starting? || s.threads[t].Woken? || s.threads[t].Finished?)
    case Run(t) => t < |s.threads| && s.threads[t].Working?
    case Spurious(t) => t < |s.threads| && s.threads[t].Waiting?
    case RequestStop => s.threads[0].Outside?
  }

  /** The first half of a critical section of thread `t`. */
  function CleanStep(s: Config, t: nat): Config
    requires s.threads != [] && Enabled(s, Enter(t))
  {
    var th := s.threads[t];
    var (q, local, notify) := CleanUp(s.q, th, t == 0);
    var threads := s.threads[t := Holding(local)];
    Config(q, if notify then threads[0 := Wake(threads[0])] else threads, s.added,
           if th.Finished? then s.done + multiset(th.batch) else s.done, s.rounds)
  }

  /** The second half. */
  function LoopStep(s: Config, t: nat, n: nat): Config
    requires t < |s.threads| && s.threads[t].Holding? && (s.q.queue != [] ==> 1 <= n <= |s.q.queue|)
  {
    var (q, th, answer) := LoopHead(s.q, s.threads[t].local, t == 0, n);
    var threads := s.threads[t := th];
    if answer.Some? then Config(q, threads, multiset{}, multiset{}, s.rounds + [Round(s.added, answer.value)])
    else s.(q := q, threads := threads)
  }

  function Step(s: Config, a: Action, maxBatch: nat): Config
    requires s.threads != [] && Enabled(s, a)
    requires a.Enter? ==> s.q.nTotal >= 0 && s.q.nIdle >= if s.threads[a.t].Woken? then 1 else 0
  {
    match a
    case Add(cs) =>
      if cs == [] then s
      else s.(q := s.q.(queue := s.q.queue + cs, nTodo := s.q.nTodo + |cs|),
              threads := s.threads[0 := Notifying(|cs| != 1)],
              added := s.added + multiset(cs))
    case NotifyOne(w) => s.(threads := s.threads[0 := Outside][w := Wake(s.threads[w])])
    case NotifyAll => s.(threads := WakeWorkers(s.threads[0 := Outside]))
    case Complete => s.(threads := s.threads[0 := Starting])
    case Enter(t) => var s' := CleanStep(s, t); LoopStep(s', t, BatchSize(s'.q, maxBatch))
    case Run(t) =>
      var th := s.threads[t];
      s.(threads := s.threads[t := Finished(th.batch, th.doWork, if th.doWork then RunBatch(th.batch, th.local) else th.local)])
    case Spurious(t) => s.(threads := s.threads[t := Wake(s.threads[t])])
    case RequestStop => s.(q := s.q.(stop := true), threads := s.threads[0 := Notifying(true)])
  }

  /** A fresh queue whose workers have not yet reached their first critical section. */
  function Initial(workers: nat): (s: Config)
    ensures Inv(s) && Settled(s)
  {
    var threads := seq(workers + 1, i => if i == 0 then Outside else Starting);
    SumZero(threads);
    Config(Shared([], 0, 0, None, 0, false), threads, multiset{}, multiset{}, [])
  }

  // ---------------------------------------------------------------------------------------
  // The invariant

  ghost function BatchOf(th: Thread): multiset<Check> {
    if th.HasBatch() then multiset(th.batch) else multiset{}
  }

  /** The checks in the batches of all threads. */
  ghost function Held(threads: seq<Thread>): multiset<Check> {
    if threads == [] then multiset{} else BatchOf(threads[0]) + Held(threads[1..])
  }

  /** What is counted over the threads: the idle ones, those that have entered `Loop`, and
      the steps that a thread can still take on its own. */
  datatype Kind = Idle | Started | Pending

  function Weight(th: Thread, kind: Kind): nat {
    match kind
    case Idle => if th.Waiting? || th.Woken? then 1 else 0
    case Started => if th.InLoop() && !th.Starting? then 1 else 0
    case Pending => if th.Working? then 3 else if th.Finished? then 2 else if th.Starting? || th.Woken? then 1 else 0
  }

  ghost function Sum(threads: seq<Thread>, kind: Kind): nat {
    if threads == [] then 0 else Weight(threads[0], kind) + Sum(threads[1..], kind)
  }

  ghost predicate AllPass(cs: multiset<Check>) {
    forall c :: c in cs ==> c.outcome == None
  }

  ghost predicate SomeFailsWith(cs: multiset<Check>, r: nat) {
    exists c :: c in cs && c.outcome == Some(r)
  }

  /** What the documentation of the class promises of the value of `Complete`. */
  ghost predicate RightAnswer(added: multiset<Check>, answer: Option<nat>) {
    match answer
    case None => AllPass(added)
    case Some(r) => SomeFailsWith(added, r)
  }

  ghost predicate ThreadOk(th: Thread, q: Shared) {
    && (th.HasBatch() ==> th.batch != [] && (!th.doWork ==> q.result.Some?))
    && (th.Finished? && th.doWork ==> th.local == RunBatch(th.batch, None))
  }

  /** `nIdle` and `nTotal` count threads (workers that were told to stop stay in `nTotal`). */
  ghost predicate Counted(s: Config) {
    && s.q.nIdle == Sum(s.threads, Idle)
    && s.q.nTotal >= Sum(s.threads, Started) && (!s.q.stop ==> s.q.nTotal == Sum(s.threads, Started))
  }

  /** `nTodo` counts the checks that are queued or in a batch; with those done they are the round. */
  ghost predicate Accounted(s: Config) {
    && s.q.nTodo == |s.q.queue| + |Held(s.threads)|
    && multiset(s.q.queue) + Held(s.threads) + s.done == s.added
  }

  /** `m_result` is right for the checks that are done, and no thread can spoil it. */
  ghost predicate Judged(s: Config) {
    && RightAnswer(s.done, s.q.result)
    && (forall i :: 0 <= i < |s.threads| ==> ThreadOk(s.threads[i], s.q))
    && (forall r :: r in s.rounds ==> RightAnswer(r.added, r.answer))
  }

  /** A master that waits has not missed the last notification. */
  ghost predicate MasterOk(s: Config) {
    && s.threads != []
    && (forall i :: 0 < i < |s.threads| ==> !s.threads[i].Notifying?)
    && (s.threads[0].Waiting? ==> s.q.nTodo > 0 && s.q.queue == [])
    && (s.q.stop ==> !s.threads[0].InLoop())
  }

  ghost predicate Inv(s: Config) {
    MasterOk(s) && Counted(s) && Accounted(s) && Judged(s)
  }

  // ---------------------------------------------------------------------------------------
  // Counting over threads

  lemma {:induction false} SumUpdate(threads: seq<Thread>, i: nat, th: Thread, kind: Kind)
    requires i < |threads|
    ensures Sum(threads[i := th], kind) == Sum(threads, kind) - Weight(threads[i], kind) + Weight(th, kind)
  {
    if i > 0 {
      SumUpdate(threads[1..], i - 1, th, kind);
      assert threads[i := th][1..] == threads[1..][i - 1 := th];
    } else {
      assert threads[i := th][1..] == threads[1..];
    }
  }

  lemma Cancel(a: multiset<Check>, b: multiset<Check>, x: multiset<Check>)
    requires a + x == b + x
    ensures a == b
  {
    forall c ensures a[c] == b[c] {
      assert (a + x)[c] == (b + x)[c];
    }
  }

  lemma AddLeft(a: multiset<Check>, b: multiset<Check>, c: multiset<Check>, d: multiset<Check>, x: multiset<Check>)
    requires a + b == c + d
    ensures x + a + b == x + c + d
  {
    assert x + a + b == x + (a + b);
    assert x + c + d == x + (c + d);
  }

  lemma {:induction false} HeldUpdate(threads: seq<Thread>, i: nat, th: Thread)
    requires i < |threads|
    ensures Held(threads[i := th]) + BatchOf(threads[i]) == Held(threads) + BatchOf(th)
  {
    if i > 0 {
      HeldUpdate(threads[1..], i - 1, th);
      assert threads[i := th][1..] == threads[1..][i - 1 := th];
      AddLeft(Held(threads[1..][i - 1 := th]), BatchOf(threads[i]), Held(threads[1..]), BatchOf(th), BatchOf(threads[0]));
    } else {
      assert threads[i := th][1..] == threads[1..];
    }
  }

  /** Waking threads changes neither the counts nor the batches. */
  lemma {:induction false} SameCounts(a: seq<Thread>, b: seq<Thread>)
    requires |a| == |b| && forall i :: 0 <= i < |a| ==> b[i] == a[i] || b[i] == Wake(a[i])
    ensures Held(a) == Held(b) && Sum(a, Idle) == Sum(b, Idle) && Sum(a, Started) == Sum(b, Started)
  {
    if a != [] {
      assert b[0] == a[0] || b[0] == Wake(a[0]);
      assert BatchOf(b[0]) == BatchOf(a[0]) && Weight(b[0], Idle) == Weight(a[0], Idle) && Weight(b[0], Started) == Weight(a[0], Started);
      SameCounts(a[1..], b[1..]);
    }
  }

  lemma {:induction false} SumAtLeast(threads: seq<Thread>, i: nat, kind: Kind)
    requires i < |threads|
    ensures Sum(threads, kind) >= Weight(threads[i], kind)
  {
    if i > 0 { SumAtLeast(threads[1..], i - 1, kind); }
  }

  lemma {:induction false} HeldContains(threads: seq<Thread>, i: nat)
    requires i < |threads|
    ensures |BatchOf(threads[i])| <= |Held(threads)|
  {
    if i > 0 { HeldContains(threads[1..], i - 1); }
  }

  /** A batch run to its end: no value exactly when all its checks passed, else one of theirs. */
  lemma {:induction false} RunBatchMeaning(batch: seq<Check>, local: Option<nat>)
    requires batch != []
    ensures RunBatch(batch, local) == RunBatch(batch, None)
    ensures RightAnswer(multiset(batch), RunBatch(batch, local))
  {
    assert batch == [batch[0]] + batch[1..];
    if batch[0].outcome.None? && |batch| > 1 {
      RunBatchMeaning(batch[1..], batch[0].outcome);
    } else {
      assert batch[0] in multiset(batch);
    }
  }

  // ---------------------------------------------------------------------------------------
  // Every step keeps the invariant

  lemma CanEnter(s: Config, t: nat)
    requires Inv(s) && Enabled(s, Enter(t))
    ensures s.q.nTotal >= 0 && s.q.nIdle >= if s.threads[t].Woken? then 1 else 0
  {
    SumAtLeast(s.threads, t, Idle);
  }

  /** Replacing thread `t`, for the batches. */
  lemma Replace(threads: seq<Thread>, t: nat, th: Thread)
    requires t < |threads|
    ensures Held(threads[t := th]) + BatchOf(threads[t]) == Held(threads) + BatchOf(th)
    ensures |Held(threads[t := th])| == |Held(threads)| - |BatchOf(threads[t])| + |BatchOf(th)|
    ensures BatchOf(threads[t]) == BatchOf(th) ==> Held(threads[t := th]) == Held(threads)
  {
    HeldUpdate(threads, t, th);
    var h, h' := Held(threads), Held(threads[t := th]);
    assert |h' + BatchOf(threads[t])| == |h + BatchOf(th)|;
    if BatchOf(threads[t]) == BatchOf(th) { Cancel(h', h, BatchOf(th)); }
  }

  lemma CleanKeepsMaster(s: Config, t: nat)
    requires Inv(s) && Enabled(s, Enter(t))
    ensures MasterOk(CleanStep(s, t))
  {
    var s' := CleanStep(s, t);
    if s.threads[t].Finished? {
      HeldContains(s.threads, t);
    }
  }

  lemma CleanKeepsCounts(s: Config, t: nat)
    requires Counted(s) && s.threads != [] && Enabled(s, Enter(t))
    ensures Counted(CleanStep(s, t))
  {
    var threads := s.threads[t := Holding(CleanUp(s.q, s.threads[t], t == 0).1)];
    assert Sum(threads, Idle) == Sum(CleanStep(s, t).threads, Idle)
        && Sum(threads, Started) == Sum(CleanStep(s, t).threads, Started) by {
      SameCounts(threads, CleanStep(s, t).threads);
    }
    SumUpdate(s.threads, t, threads[t], Idle);
    SumUpdate(s.threads, t, threads[t], Started);
  }

  lemma CleanKeepsAccounts(s: Config, t: nat)
    requires Accounted(s) && s.threads != [] && Enabled(s, Enter(t))
    ensures Accounted(CleanStep(s, t))
  {
    var s' := CleanStep(s, t);
    var (_, local, _) := CleanUp(s.q, s.threads[t], t == 0);
    Replace(s.threads, t, Holding(local));
    SameCounts(s.threads[t := Holding(local)], s'.threads);
    AccountDone(multiset(s.q.queue), Held(s'.threads), BatchOf(s.threads[t]), Held(s.threads), s.done);
  }

  lemma AccountDone(q: multiset<Check>, h': multiset<Check>, b: multiset<Check>, h: multiset<Check>, d: multiset<Check>)
    requires h' + b == h + multiset{}
    ensures q + h' + (d + b) == q + h + d
  {
    assert h == h' + b;
  }

  /** Cleaning up after a batch moves its checks to the done ones and keeps `m_result` right:
      a value is published only if the batch produced it in this round. */
  lemma CleanKeepsResult(s: Config, t: nat)
    requires Judged(s) && s.threads != [] && Enabled(s, Enter(t))
    ensures Judged(CleanStep(s, t))
  {
    var th, s' := s.threads[t], CleanStep(s, t);
    assert ThreadOk(th, s.q);
    if th.Finished? {
      RunBatchMeaning(th.batch, None);
      assert forall c :: c in s'.done <==> c in s.done || c in multiset(th.batch);
    }
    forall i | 0 <= i < |s'.threads| ensures ThreadOk(s'.threads[i], s'.q) {
      assert ThreadOk(s.threads[i], s.q);
    }
  }

  lemma CleanInv(s: Config, t: nat)
    requires Inv(s) && Enabled(s, Enter(t))
    ensures Inv(CleanStep(s, t)) && CleanStep(s, t).q.nTotal + CleanStep(s, t).q.nIdle + 1 > 0
  {
    CleanKeepsMaster(s, t);
    CleanKeepsCounts(s, t);
    CleanKeepsAccounts(s, t);
    CleanKeepsResult(s, t);
  }

  lemma LoopKeepsMaster(s: Config, t: nat, n: nat)
    requires Inv(s) && t < |s.threads| && s.threads[t].Holding? && (s.q.queue != [] ==> 1 <= n <= |s.q.queue|)
    ensures MasterOk(LoopStep(s, t, n))
  {
    var h := Held(s.threads);
  }

  lemma LoopKeepsCounts(s: Config, t: nat, n: nat)
    requires Counted(s) && t < |s.threads| && s.threads[t].Holding? && (s.q.queue != [] ==> 1 <= n <= |s.q.queue|)
    ensures Counted(LoopStep(s, t, n))
  {
    SumUpdate(s.threads, t, LoopStep(s, t, n).threads[t], Idle);
    SumUpdate(s.threads, t, LoopStep(s, t, n).threads[t], Started);
  }

  /** Taking a batch moves checks from the queue into it. */
  lemma TakeAccounts(s: Config, t: nat, n: nat, th: Thread)
    requires Accounted(s) && t < |s.threads| && s.threads[t].Holding? && 1 <= n <= |s.q.queue|
    requires th.Working? && th.batch == s.q.queue[|s.q.queue| - n..]
    ensures Accounted(s.(q := s.q.(queue := s.q.queue[..|s.q.queue| - n]), threads := s.threads[t := th]))
  {
    var queue := s.q.queue[..|s.q.queue| - n];
    Replace(s.threads, t, th);
    assert multiset(s.q.queue) == multiset(queue) + multiset(th.batch) by {
      assert s.q.queue == queue + th.batch;
    }
    AccountTaken(multiset(queue), multiset(th.batch), Held(s.threads), s.done);
  }

  lemma LoopKeepsAccounts(s: Config, t: nat, n: nat)
    requires Accounted(s) && t < |s.threads| && s.threads[t].Holding? && (s.q.queue != [] ==> 1 <= n <= |s.q.queue|)
    ensures Accounted(LoopStep(s, t, n))
  {
    var s' := LoopStep(s, t, n);
    if s.q.stop || s.q.queue == [] {
      QuietLoop(s, t, n);
    } else {
      TakeAccounts(s, t, n, s'.threads[t]);
    }
  }

  lemma QuietLoop(s: Config, t: nat, n: nat)
    requires Accounted(s) && t < |s.threads| && s.threads[t].Holding? && (s.q.queue != [] ==> 1 <= n <= |s.q.queue|)
    requires s.q.stop || s.q.queue == []
    ensures Accounted(LoopStep(s, t, n))
  {
    QuietAccounts(s, t, LoopStep(s, t, n).threads[t]);
  }

  /** Waiting or leaving changes no account; a new round starts with empty ones. */
  lemma QuietAccounts(s: Config, t: nat, th: Thread)
    requires Accounted(s) && t < |s.threads| && s.threads[t].Holding? && !th.HasBatch()
    ensures Held(s.threads[t := th]) == Held(s.threads)
    ensures s.q.nTodo == 0 ==> s.q.queue == [] && Held(s.threads) == multiset{}
  {
    Replace(s.threads, t, th);
    if s.q.nTodo == 0 { RoundDone(s); }
  }

  /** With nothing left to do, every check of the round is done. */
  lemma RoundDone(s: Config)
    requires Accounted(s) && s.q.nTodo == 0
    ensures s.done == s.added && Held(s.threads) == multiset{}
  {
    assert multiset(s.q.queue) + Held(s.threads) + s.done == s.done;
  }

  lemma AccountTaken(q: multiset<Check>, b: multiset<Check>, h: multiset<Check>, d: multiset<Check>)
    ensures q + b + h + d == q + (h + b) + d
  {
  }

  lemma LoopKeepsResult(s: Config, t: nat, n: nat)
    requires Judged(s) && Accounted(s) && t < |s.threads| && s.threads[t].Holding? && (s.q.queue != [] ==> 1 <= n <= |s.q.queue|)
    ensures Judged(LoopStep(s, t, n))
  {
    var s' := LoopStep(s, t, n);
    if LoopHead(s.q, s.threads[t].local, t == 0, n).2.Some? {
      RoundDone(s);
      NoBatch(s.threads);
    }
    LoopThreadsOk(s, t, n);
  }

  /** No thread has a batch when a round ends; otherwise the published result stays. */
  lemma LoopThreadsOk(s: Config, t: nat, n: nat)
    requires Judged(s) && t < |s.threads| && s.threads[t].Holding? && (s.q.queue != [] ==> 1 <= n <= |s.q.queue|)
    requires LoopHead(s.q, s.threads[t].local, t == 0, n).2.Some? ==>
               forall i :: 0 <= i < |s.threads| && s.threads[i].HasBatch() ==> s.threads[i].batch == []
    ensures forall i :: 0 <= i < |s.threads| ==> ThreadOk(LoopStep(s, t, n).threads[i], LoopStep(s, t, n).q)
  {
    var s' := LoopStep(s, t, n);
    forall i | 0 <= i < |s.threads| ensures ThreadOk(s'.threads[i], s'.q) {
      assert ThreadOk(s.threads[i], s.q);
    }
  }

  lemma NoBatch(threads: seq<Thread>)
    requires Held(threads) == multiset{}
    ensures forall i :: 0 <= i < |threads| && threads[i].HasBatch() ==> threads[i].batch == []
  {
    forall i | 0 <= i < |threads| && threads[i].HasBatch() ensures threads[i].batch == [] {
      HeldContains(threads, i);
    }
  }

  lemma EnterInv(s: Config, t: nat, maxBatch: nat)
    requires Inv(s) && Enabled(s, Enter(t))
    ensures s.q.nTotal >= 0 && s.q.nIdle >= (if s.threads[t].Woken? then 1 else 0)
    ensures Inv(Step(s, Enter(t), maxBatch))
  {
    CanEnter(s, t);
    CleanInv(s, t);
    var s1 := CleanStep(s, t);
    var n := BatchSize(s1.q, maxBatch);
    LoopKeepsMaster(s1, t, n);
    LoopKeepsCounts(s1, t, n);
    LoopKeepsAccounts(s1, t, n);
    LoopKeepsResult(s1, t, n);
  }

  lemma AddInv(s: Config, cs: seq<Check>, maxBatch: nat)
    requires Inv(s) && Enabled(s, Add(cs))
    ensures Inv(Step(s, Add(cs), maxBatch))
  {
    var s' := Step(s, Add(cs), maxBatch);
    Replace(s.threads, 0, Notifying(|cs| != 1));
    SumUpdate(s.threads, 0, Notifying(|cs| != 1), Idle);
    SumUpdate(s.threads, 0, Notifying(|cs| != 1), Started);
    assert multiset(s.q.queue + cs) == multiset(s.q.queue) + multiset(cs);
    forall i | 0 <= i < |s'.threads| ensures ThreadOk(s'.threads[i], s'.q) {
      assert ThreadOk(s.threads[i], s.q);
    }
  }

  /** Steps that only move threads, without a change of counters or batches. */
  lemma MoveInv(s: Config, s': Config)
    requires Inv(s) && s' == s.(threads := s'.threads, q := s.q.(stop := s'.q.stop)) && |s'.threads| == |s.threads|
    requires Held(s'.threads) == Held(s.threads)
    requires Sum(s'.threads, Idle) == Sum(s.threads, Idle) && Sum(s'.threads, Started) == Sum(s.threads, Started)
    requires forall i :: 0 <= i < |s.threads| ==> s'.threads[i].HasBatch() ==> ThreadOk(s'.threads[i], s.q)
    requires MasterOk(s') && (s.q.stop ==> s'.q.stop)
    ensures Inv(s')
  {
    forall i | 0 <= i < |s'.threads| ensures ThreadOk(s'.threads[i], s'.q) {
    }
  }

  lemma RunThread(s: Config, t: nat, maxBatch: nat)
    requires Inv(s) && Enabled(s, Run(t))
    ensures var s' := Step(s, Run(t), maxBatch);
            forall i :: 0 <= i < |s'.threads| ==> ThreadOk(s'.threads[i], s.q)
  {
    var th := s.threads[t];
    assert ThreadOk(th, s.q);
    RunBatchMeaning(th.batch, th.local);
  }

  lemma RunInv(s: Config, t: nat, maxBatch: nat)
    requires Inv(s) && Enabled(s, Run(t))
    ensures Inv(Step(s, Run(t), maxBatch))
  {
    var s' := Step(s, Run(t), maxBatch);
    RunThread(s, t, maxBatch);
    RunSums(s, t, maxBatch);
    MoveInv(s, s');
  }

  lemma RunSums(s: Config, t: nat, maxBatch: nat)
    requires s.threads != [] && Enabled(s, Run(t))
    ensures var s' := Step(s, Run(t), maxBatch);
            && Held(s'.threads) == Held(s.threads)
            && Sum(s'.threads, Idle) == Sum(s.threads, Idle) && Sum(s'.threads, Started) == Sum(s.threads, Started)
  {
    var s' := Step(s, Run(t), maxBatch);
    Replace(s.threads, t, s'.threads[t]);
    SumUpdate(s.threads, t, s'.threads[t], Idle);
    SumUpdate(s.threads, t, s'.threads[t], Started);
  }

  lemma MasterMoveInv(s: Config, th: Thread, stop: bool)
    requires Inv(s) && (s.threads[0].Outside? || s.threads[0].Notifying?)
    requires th.Outside? || th.Notifying? || (th.Starting? && !s.q.stop && !stop)
    ensures Inv(s.(q := s.q.(stop := s.q.stop || stop), threads := s.threads[0 := th]))
  {
    var s' := s.(q := s.q.(stop := s.q.stop || stop), threads := s.threads[0 := th]);
    Replace(s.threads, 0, th);
    SumUpdate(s.threads, 0, th, Idle);
    SumUpdate(s.threads, 0, th, Started);
    MoveInv(s, s');
  }

  lemma WakeInv(s: Config, threads: seq<Thread>)
    requires Inv(s) && |threads| == |s.threads|
    requires forall i :: 0 <= i < |threads| ==> threads[i] == s.threads[i] || threads[i] == Wake(s.threads[i])
    ensures Inv(s.(threads := threads))
  {
    SameCounts(s.threads, threads);
    MoveInv(s, s.(threads := threads));
  }

  /** Every step of every thread, and every spurious wakeup, keeps the invariant. */
  lemma StepInv(s: Config, a: Action, maxBatch: nat)
    requires Inv(s) && Enabled(s, a)
    ensures a.Enter? ==> s.q.nTotal >= 0 && s.q.nIdle >= if s.threads[a.t].Woken? then 1 else 0
    ensures Inv(Step(s, a, maxBatch))
  {
    match a
    case Add(cs) => AddInv(s, cs, maxBatch);
    case NotifyOne(w) =>
      MasterMoveInv(s, Outside, false);
      WakeInv(s.(threads := s.threads[0 := Outside]), Step(s, a, maxBatch).threads);
    case NotifyAll =>
      MasterMoveInv(s, Outside, false);
      WakeInv(s.(threads := s.threads[0 := Outside]), Step(s, a, maxBatch).threads);
    case Complete => MasterMoveInv(s, Starting, false);
    case Enter(t) => EnterInv(s, t, maxBatch);
    case Run(t) => RunInv(s, t, maxBatch);
    case Spurious(t) => WakeInv(s, Step(s, a, maxBatch).threads);
    case RequestStop => MasterMoveInv(s, Notifying(true), true);
  }

  // ---------------------------------------------------------------------------------------
  // Whole runs

  /** Between two steps nobody holds the mutex. */
  ghost predicate Settled(s: Config) {
    forall i :: 0 <= i < |s.threads| ==> !s.threads[i].Holding?
  }

  lemma StepSettled(s: Config, a: Action, maxBatch: nat)
    requires Inv(s) && Enabled(s, a) && Settled(s)
    ensures a.Enter? ==> s.q.nTotal >= 0 && s.q.nIdle >= if s.threads[a.t].Woken? then 1 else 0
    ensures Inv(Step(s, a, maxBatch)) && Settled(Step(s, a, maxBatch))
  {
    StepInv(s, a, maxBatch);
    if a.Enter? {
      EnterShape(s, a.t, maxBatch);
    } else {
      OtherSettled(s, a, maxBatch);
    }
  }

  lemma OtherSettled(s: Config, a: Action, maxBatch: nat)
    requires s.threads != [] && Enabled(s, a) && Settled(s) && !a.Enter?
    ensures Settled(Step(s, a, maxBatch))
  {
  }

  /** What a critical section does to threads and rounds. */
  lemma EnterShape(s: Config, t: nat, maxBatch: nat)
    requires s.threads != [] && Enabled(s, Enter(t)) && Settled(s)
    requires s.q.nTotal >= 0 && s.q.nIdle >= if s.threads[t].Woken? then 1 else 0
    ensures var s' := Step(s, Enter(t), maxBatch);
            && Settled(s') && |s'.threads| == |s.threads| && s'.q.stop == s.q.stop
            && (s.threads[0].InLoop() && s'.threads[0].InLoop() ==> s'.rounds == s.rounds && s'.added == s.added)
            && (!s.threads[0].InLoop() ==> !s'.threads[0].InLoop() && s'.rounds == s.rounds)
            && (s.threads[0].InLoop() && !s'.threads[0].InLoop() && !s.q.stop ==>
                  exists r: Round :: s'.rounds == s.rounds + [r] && r.added == s.added)
  {
    var s1 := CleanStep(s, t);
    var n := BatchSize(s1.q, maxBatch);
    assert s1.threads[t].Holding?;
    assert forall i :: 0 <= i < |s.threads| && i != t ==> s1.threads[i] == s.threads[i] || s1.threads[i] == Wake(s.threads[i]);
    LoopShape(s1, t, n);
  }

  /** What the second half does: only the master can end a round. */
  lemma LoopShape(s: Config, t: nat, n: nat)
    requires t < |s.threads| && s.threads[t].Holding? && (s.q.queue != [] ==> 1 <= n <= |s.q.queue|)
    ensures var s' := LoopStep(s, t, n);
            && |s'.threads| == |s.threads| && s'.q.stop == s.q.stop && !s'.threads[t].Holding?
            && (forall i :: 0 <= i < |s.threads| && i != t ==> s'.threads[i] == s.threads[i])
            && (t != 0 || s'.threads[0].InLoop() ==> s'.rounds == s.rounds && s'.added == s.added)
            && (t == 0 && !s'.threads[0].InLoop() && !s.q.stop ==>
                  exists r: Round :: s'.rounds == s.rounds + [r] && r.added == s.added)
  {
    var s' := LoopStep(s, t, n);
    if t == 0 && !s.q.stop && s'.threads[0].Outside? {
      assert s'.rounds == s.rounds + [Round(s.added, s.q.result)];
    }
  }

  /** The actions can be taken one after the other. */
  ghost predicate IsRun(s: Config, acts: seq<Action>, maxBatch: nat)
    requires Inv(s) && Settled(s)
    decreases |acts|
  {
    acts != [] ==>
      && Enabled(s, acts[0])
      && (StepSettled(s, acts[0], maxBatch); IsRun(Step(s, acts[0], maxBatch), acts[1..], maxBatch))
  }

  ghost function After(s: Config, acts: seq<Action>, maxBatch: nat): (s': Config)
    requires Inv(s) && Settled(s) && IsRun(s, acts, maxBatch)
    ensures Inv(s') && Settled(s')
    decreases |acts|
  {
    if acts == [] then s
    else
      StepSettled(s, acts[0], maxBatch);
      After(Step(s, acts[0], maxBatch), acts[1..], maxBatch)
  }

  lemma {:induction false} SumZero(threads: seq<Thread>)
    requires forall i :: 0 <= i < |threads| ==> threads[i].Outside? || threads[i].Starting?
    ensures Held(threads) == multiset{} && Sum(threads, Idle) == 0 && Sum(threads, Started) == 0
  {
    if threads != [] { SumZero(threads[1..]); }
  }

  /** Main safety result: in every run, with any number of workers, any interleaving and any
      spurious wakeups, each call of `Complete` returned no value exactly when all checks
      added in its round pass, and otherwise the value of a failing check of that round. */
  lemma AnswersAreRight(workers: nat, acts: seq<Action>, maxBatch: nat)
    requires IsRun(Initial(workers), acts, maxBatch)
    ensures forall r :: r in After(Initial(workers), acts, maxBatch).rounds ==>
              (r.answer.None? <==> AllPass(r.added)) && (r.answer.Some? ==> SomeFailsWith(r.added, r.answer.value))
  {
    var s := After(Initial(workers), acts, maxBatch);
    forall r | r in s.rounds
      ensures (r.answer.None? <==> AllPass(r.added)) && (r.answer.Some? ==> SomeFailsWith(r.added, r.answer.value))
    {
      assert RightAnswer(r.added, r.answer);
    }
  }

  lemma {:induction false} SomebodyHolds(threads: seq<Thread>)
    requires |Held(threads)| > 0
    ensures exists i :: 0 <= i < |threads| && threads[i].HasBatch()
  {
    if threads[0].HasBatch() {
    } else {
      SomebodyHolds(threads[1..]);
      var i :| 0 <= i < |threads[1..]| && threads[1..][i].HasBatch();
      assert threads[i + 1].HasBatch();
    }
  }

  /** A master that waits and was not notified is owed a notification: some worker still
      has a batch to clean up. */
  lemma WaitingMaster(s: Config)
    requires Inv(s) && s.threads[0].Waiting?
    ensures exists i :: 0 < i < |s.threads| && s.threads[i].HasBatch()
  {
    SomebodyHolds(s.threads);
  }

  predicate Progress(a: Action) {
    a.Enter? || a.Run?
  }

  /** The steps that remain without new checks, notifications from outside or spurious wakeups. */
  ghost function StepsLeft(s: Config): nat {
    4 * |s.q.queue| + Sum(s.threads, Pending)
  }

  /** While `Complete` is running, without a stop request, some thread can go on. */
  lemma NoDeadlock(s: Config)
    requires Inv(s) && Settled(s) && s.threads[0].InLoop() && !s.q.stop
    ensures exists a :: Progress(a) && Enabled(s, a)
  {
    if s.threads[0].Waiting? {
      WaitingMaster(s);
      var i :| 0 < i < |s.threads| && s.threads[i].HasBatch();
      assert Enabled(s, if s.threads[i].Working? then Run(i) else Enter(i));
    } else {
      assert Enabled(s, if s.threads[0].Working? then Run(0) else Enter(0));
    }
  }

  lemma CleanWeighs(s: Config, t: nat)
    requires s.threads != [] && Enabled(s, Enter(t))
    ensures Sum(CleanStep(s, t).threads, Pending) < Sum(s.threads, Pending)
    ensures CleanStep(s, t).q.queue == s.q.queue
  {
    var (_, local, notify) := CleanUp(s.q, s.threads[t], t == 0);
    var threads := s.threads[t := Holding(local)];
    SumUpdate(s.threads, t, Holding(local), Pending);
    if notify { SumUpdate(threads, 0, Wake(threads[0]), Pending); }
  }

  lemma EnterDecreases(s: Config, t: nat, maxBatch: nat)
    requires s.threads != [] && Enabled(s, Enter(t))
    requires s.q.nTotal >= 0 && s.q.nIdle >= if s.threads[t].Woken? then 1 else 0
    ensures StepsLeft(Step(s, Enter(t), maxBatch)) < StepsLeft(s)
  {
    CleanWeighs(s, t);
    var s1 := CleanStep(s, t);
    assert s1.threads[t].Holding?;
    LoopWeighs(s1, t, BatchSize(s1.q, maxBatch));
  }

  /** The second half of a section takes checks off the queue for the batch that it starts. */
  lemma LoopWeighs(s: Config, t: nat, n: nat)
    requires t < |s.threads| && s.threads[t].Holding? && (s.q.queue != [] ==> 1 <= n <= |s.q.queue|)
    ensures StepsLeft(LoopStep(s, t, n)) <= StepsLeft(s)
  {
    SumUpdate(s.threads, t, LoopStep(s, t, n).threads[t], Pending);
  }

  /** Every step of a thread uses up one of the steps that remain. */
  lemma ProgressDecreases(s: Config, a: Action, maxBatch: nat)
    requires s.threads != [] && Enabled(s, a) && Progress(a)
    requires a.Enter? ==> s.q.nTotal >= 0 && s.q.nIdle >= if s.threads[a.t].Woken? then 1 else 0
    ensures StepsLeft(Step(s, a, maxBatch)) < StepsLeft(s)
  {
    if a.Run? {
      SumUpdate(s.threads, a.t, Step(s, a, maxBatch).threads[a.t], Pending);
    } else {
      EnterDecreases(s, a.t, maxBatch);
    }
  }

  /** A step of a thread in a run, in terms of what the theorems below need. */
  lemma ProgressShape(s: Config, a: Action, maxBatch: nat)
    requires Inv(s) && Settled(s) && Enabled(s, a) && Progress(a)
    ensures a.Enter? ==> s.q.nTotal >= 0 && s.q.nIdle >= if s.threads[a.t].Woken? then 1 else 0
    ensures var s' := Step(s, a, maxBatch);
            && Inv(s') && Settled(s') && s'.q.stop == s.q.stop && StepsLeft(s') < StepsLeft(s)
            && (s.threads[0].InLoop() && s'.threads[0].InLoop() ==> s'.rounds == s.rounds && s'.added == s.added)
            && (!s.threads[0].InLoop() ==> !s'.threads[0].InLoop() && s'.rounds == s.rounds)
            && (s.threads[0].InLoop() && !s'.threads[0].InLoop() && !s.q.stop ==>
                  exists r: Round :: s'.rounds == s.rounds + [r] && r.added == s.added)
  {
    StepSettled(s, a, maxBatch);
    ProgressDecreases(s, a, maxBatch);
    if a.Enter? { EnterShape(s, a.t, maxBatch); }
  }

  /** `Complete` terminates: without spurious wakeups the threads take at most `StepsLeft`
      steps, and when they can take no more the master has returned, with a right answer for
      exactly the checks of its round. */
  lemma {:induction false} CompleteTerminates(s: Config, acts: seq<Action>, maxBatch: nat)
    requires Inv(s) && Settled(s) && s.threads[0].InLoop() && !s.q.stop
    requires IsRun(s, acts, maxBatch) && forall a :: a in acts ==> Progress(a)
    ensures |acts| <= StepsLeft(s)
    ensures var s' := After(s, acts, maxBatch);
            (forall a :: Progress(a) ==> !Enabled(s', a)) ==>
              exists r: Round :: s'.rounds == s.rounds + [r] && r.added == s.added && RightAnswer(r.added, r.answer)
    decreases |acts|
  {
    if acts == [] {
      NoDeadlock(s);
    } else {
      var a := acts[0];
      assert a in acts;
      assert forall x :: x in acts[1..] ==> x in acts;
      ProgressShape(s, a, maxBatch);
      var s1 := Step(s, a, maxBatch);
      if s1.threads[0].InLoop() {
        CompleteTerminates(s1, acts[1..], maxBatch);
      } else {
        AfterReturn(s1, acts[1..], maxBatch);
        var r: Round :| s1.rounds == s.rounds + [r] && r.added == s.added;
        assert r in s1.rounds;
      }
    }
  }

  /** Once the master is out, the workers record no further round. */
  lemma {:induction false} AfterReturn(s: Config, acts: seq<Action>, maxBatch: nat)
    requires Inv(s) && Settled(s) && !s.threads[0].InLoop()
    requires IsRun(s, acts, maxBatch) && forall a :: a in acts ==> Progress(a)
    ensures |acts| <= StepsLeft(s) && After(s, acts, maxBatch).rounds == s.rounds
    decreases |acts|
  {
    if acts != [] {
      var a := acts[0];
      assert a in acts;
      assert forall x :: x in acts[1..] ==> x in acts;
      ProgressShape(s, a, maxBatch);
      AfterReturn(Step(s, a, maxBatch), acts[1..], maxBatch);
    }
  }

  // ---------------------------------------------------------------------------------------
  // Shutdown

  /** The destructor has asked the workers to stop and has woken them. */
  ghost predicate Stopping(s: Config) {
    s.q.stop && forall i :: 0 < i < |s.threads| ==> !s.threads[i].Waiting?
  }

  /** The destructor's notification reaches every worker that waits. */
  lemma StopReaches(s: Config, maxBatch: nat)
    requires s.threads != [] && s.q.stop && Enabled(s, NotifyAll)
    ensures Stopping(Step(s, NotifyAll, maxBatch))
  {}

  /** No worker waits again after a stop request. */
  lemma StoppingStays(s: Config, a: Action, maxBatch: nat)
    requires Inv(s) && Settled(s) && Stopping(s) && Enabled(s, a) && Progress(a)
    ensures a.Enter? ==> s.q.nTotal >= 0 && s.q.nIdle >= if s.threads[a.t].Woken? then 1 else 0
    ensures Stopping(Step(s, a, maxBatch))
  {
    ProgressShape(s, a, maxBatch);
    if a.Enter? { EnterLeaves(s, a.t, maxBatch); }
  }

  /** After a stop request a critical section ends outside, and no other thread starts to wait. */
  lemma EnterLeaves(s: Config, t: nat, maxBatch: nat)
    requires s.threads != [] && s.q.stop && Enabled(s, Enter(t))
    requires s.q.nTotal >= 0 && s.q.nIdle >= if s.threads[t].Woken? then 1 else 0
    ensures var s' := Step(s, Enter(t), maxBatch);
            && s'.q.stop && |s'.threads| == |s.threads| && s'.threads[t].Outside?
            && forall i :: 0 <= i < |s.threads| && i != t && s'.threads[i].Waiting? ==> s.threads[i].Waiting?
  {
    var s1 := CleanStep(s, t);
    assert forall i :: 0 <= i < |s.threads| && i != t ==> s1.threads[i] == s.threads[i] || s1.threads[i] == Wake(s.threads[i]);
  }

  /** Shutdown: the threads take at most `StepsLeft` steps, and when they can take no more every worker
      has left `Loop`, so that the destructor can join it. */
  lemma {:induction false} ShutdownTerminates(s: Config, acts: seq<Action>, maxBatch: nat)
    requires Inv(s) && Settled(s) && Stopping(s)
    requires IsRun(s, acts, maxBatch) && forall a :: a in acts ==> Progress(a)
    ensures |acts| <= StepsLeft(s)
    ensures var s' := After(s, acts, maxBatch);
            (forall a :: Progress(a) ==> !Enabled(s', a)) ==>
              |s'.threads| == |s.threads| && forall i :: 0 < i < |s'.threads| ==> s'.threads[i].Outside?
    decreases |acts|
  {
    if acts == [] {
      if forall a :: Progress(a) ==> !Enabled(s, a) { NobodyIn(s); }
    } else {
      var a := acts[0];
      assert a in acts;
      assert forall x :: x in acts[1..] ==> x in acts;
      StoppingStays(s, a, maxBatch);
      ProgressShape(s, a, maxBatch);
      ProgressThreads(s, a, maxBatch);
      ShutdownTerminates(Step(s, a, maxBatch), acts[1..], maxBatch);
    }
  }

  lemma ProgressThreads(s: Config, a: Action, maxBatch: nat)
    requires s.threads != [] && Enabled(s, a) && Progress(a)
    requires a.Enter? ==> s.q.nTotal >= 0 && s.q.nIdle >= if s.threads[a.t].Woken? then 1 else 0
    ensures |Step(s, a, maxBatch).threads| == |s.threads|
  {}

  /** A worker that is in `Loop` and does not wait can take a step. */
  lemma NobodyIn(s: Config)
    requires Inv(s) && Settled(s) && Stopping(s) && forall a :: Progress(a) ==> !Enabled(s, a)
    ensures forall i :: 0 < i < |s.threads| ==> s.threads[i].Outside?
  {
    forall i | 0 < i < |s.threads| ensures s.threads[i].Outside? {
      assert !Enabled(s, Enter(i)) && !Enabled(s, Run(i));
    }
  }
}
