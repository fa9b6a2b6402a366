/** What the check queue promises beyond right answers: how large batches are, which checks they hold,
    that no check is started after a failure is known, and that the first failure published is the one
    that `Complete` returns. */
module CheckQueueExact {
  import opened Collections
  import opened CheckQueue

  lemma TimesAtMost(a: nat, b: nat, t: nat)
    requires a <= b
    ensures a * t <= b * t
  {
    assert b * t - a * t == (b - a) * t;
  }

  lemma ShareOf(n: nat, t: nat)
    requires t > 0
    ensures (n / t) * t <= n < (n / t + 1) * t
  {
    assert n == t * (n / t) + n % t;
  }

  /** A batch is the largest that is within the limit and leaves as much to every thread, but at least one
      check: it cannot be larger, and one more would be too many. */
  lemma BatchSizeExact(q: Shared, maxBatch: nat)
    requires q.nTotal + q.nIdle + 1 > 0
    ensures var n, threads := BatchSize(q, maxBatch), q.nTotal + q.nIdle + 1;
            && n >= 1 && (n > 1 ==> n <= maxBatch && n * threads <= |q.queue|)
            && (n + 1 <= maxBatch ==> (n + 1) * threads > |q.queue|)
  {
    var n, t := BatchSize(q, maxBatch), q.nTotal + q.nIdle + 1;
    var share := |q.queue| / t;
    ShareOf(|q.queue|, t);
    if n <= share { TimesAtMost(n, share, t); }
    if share <= n { TimesAtMost(share + 1, n + 1, t); }
  }

  /** A batch is the end of the queue, in order, and is worked on exactly if no failure is known. */
  lemma TakesLast(q: Shared, local: Option<nat>, isMaster: bool, n: nat)
    requires q.queue != [] && 1 <= n <= |q.queue| && !q.stop
    ensures var (q', th, answer) := LoopHead(q, local, isMaster, n);
            && answer == None && th.Working? && |th.batch| == n && q.queue == q'.queue + th.batch
            && (th.doWork <==> q.result == None) && th.local == local && q' == q.(queue := q'.queue)
  {}

  /** The first failure in a batch is the one that is reported. */
  lemma {:induction false} StopsAtFailure(batch: seq<Check>, local: Option<nat>, k: nat)
    requires k < |batch| && batch[k].outcome.Some? && forall i :: 0 <= i < k ==> batch[i].outcome.None?
    ensures RunBatch(batch, local) == batch[k].outcome
    decreases k
  {
    if k > 0 {
      StopsAtFailure(batch[1..], batch[0].outcome, k - 1);
    }
  }

  /** A published failure stays, until `Complete` returns it. */
  lemma FirstFailureStays(s: Config, a: Action, maxBatch: nat)
    requires Inv(s) && Enabled(s, a) && s.q.result.Some?
    requires a.Enter? ==> s.q.nTotal >= 0 && s.q.nIdle >= if s.threads[a.t].Woken? then 1 else 0
    ensures var s' := Step(s, a, maxBatch);
            || (s'.q.result == s.q.result && s'.rounds == s.rounds)
            || (exists r: Round :: s'.rounds == s.rounds + [r] && r.answer == s.q.result)
  {
    if a.Enter? {
      var c := CleanStep(s, a.t);
      assert c.q.result == s.q.result && c.rounds == s.rounds;
      var s' := LoopStep(c, a.t, BatchSize(c.q, maxBatch));
      if s'.rounds != s.rounds {
        assert s'.rounds == s.rounds + [Round(c.added, s.q.result)];
      }
    }
  }

  lemma RoundsStep(s: Config, a: Action, maxBatch: nat)
    requires s.threads != [] && Enabled(s, a)
    requires a.Enter? ==> s.q.nTotal >= 0 && s.q.nIdle >= if s.threads[a.t].Woken? then 1 else 0
    ensures s.rounds <= Step(s, a, maxBatch).rounds
  {
    if a.Enter? {
      assert CleanStep(s, a.t).rounds == s.rounds;
    }
  }

  lemma {:induction false} RoundsGrow(s: Config, acts: seq<Action>, maxBatch: nat)
    requires Inv(s) && Settled(s) && IsRun(s, acts, maxBatch)
    ensures s.rounds <= After(s, acts, maxBatch).rounds
    decreases |acts|
  {
    if acts != [] {
      var a := acts[0];
      StepSettled(s, a, maxBatch);
      StepInv(s, a, maxBatch);
      RoundsStep(s, a, maxBatch);
      RoundsGrow(Step(s, a, maxBatch), acts[1..], maxBatch);
    }
  }

  /** Over every run: the failure that is published first is the answer of the round. */
  lemma {:induction false} FirstFailureReturned(s: Config, acts: seq<Action>, maxBatch: nat)
    requires Inv(s) && Settled(s) && IsRun(s, acts, maxBatch) && s.q.result.Some?
    ensures var s', n := After(s, acts, maxBatch), |s.rounds|;
            if |s'.rounds| > n then s'.rounds[n].answer == s.q.result else s'.q.result == s.q.result
    decreases |acts|
  {
    if acts != [] {
      var a := acts[0];
      StepSettled(s, a, maxBatch);
      StepInv(s, a, maxBatch);
      FirstFailureStays(s, a, maxBatch);
      var t := Step(s, a, maxBatch);
      if t.rounds == s.rounds {
        FirstFailureReturned(t, acts[1..], maxBatch);
      } else {
        RoundsGrow(t, acts[1..], maxBatch);
      }
    }
  }
}
