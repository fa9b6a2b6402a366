/** How often failed attempts are counted: at most once between two successes, as long as attempts are
    not dated before the last success. */
module AddrManAttempts {
  import opened AddrManState
  import opened AddrManSpec
  import opened AddrManOps
  import opened AddrManRuns

  /** Two counted attempts at an address without a success between them: the second is not counted
      exactly if neither the time of the first nor the one counted before is before the last success. */
  lemma AttemptTwice(s: State, addr: Service, t1: int, t2: int)
    requires AddrOk(s) && addr in s.byAddr
    ensures AddrOk(Attempt(s, addr, true, t1))
    ensures var id, u := s.byAddr[addr], Attempt(Attempt(s, addr, true, t1), addr, true, t2);
            && id in u.info
            && u.info[id].attempts == s.info[id].attempts +
                 (if s.info[id].lastCountAttempt >= s.lastGood then 0 else if t1 >= s.lastGood then 1 else 2)
  {
    AttemptIndex(s, addr, true, t1);
  }

  lemma AttemptIndex(s: State, addr: Service, countFailure: bool, time: int)
    requires AddrOk(s)
    ensures AddrOk(Attempt(s, addr, countFailure, time)) && Attempt(s, addr, countFailure, time).byAddr == s.byAddr
  {
    var t := Attempt(s, addr, countFailure, time);
    forall id | id in t.info ensures id in s.info && t.info[id].addr == s.info[id].addr {}
  }

  // ----- Whole runs -----

  /** The counts of the entries that are in both states are the same. */
  ghost predicate SameEffort(s: State, t: State) {
    && t.lastGood == s.lastGood
    && forall x :: x in s.info && x in t.info ==>
         t.info[x].attempts == s.info[x].attempts && t.info[x].lastCountAttempt == s.info[x].lastCountAttempt
  }

  lemma SameEffortFurther(s: State, t: State, u: State)
    requires SameEffort(s, t) && SameEffort(t, u) && IdsOk(s) && s.idCount <= t.idCount && Evolves(t, u)
    ensures SameEffort(s, u)
  {
    forall x | x in s.info && x in u.info
      ensures u.info[x].attempts == s.info[x].attempts && u.info[x].lastCountAttempt == s.info[x].lastCountAttempt
    {
      assert x in t.info;
    }
  }

  lemma StayEffort(s: State, t: State, except: Id)
    requires TriedStay(s, t, except)
    ensures SameEffort(s, t)
  {
    forall x | x in t.info ensures x in s.info && t.info[x].attempts == s.info[x].attempts && t.info[x].lastCountAttempt == s.info[x].lastCountAttempt {
      assert Moved(s.info[x], t.info[x]);
    }
  }

  lemma InsertEffort(e: Env, s: State, id: Id, source: Host, now: int, limbo: set<Id>)
    requires Consistent(e, s, limbo, {}) && id in s.info && !s.info[id].inTried
    ensures SameEffort(s, Insert(e, s, id, source, now).0)
  {
    InsertStay(e, s, id, source, now, limbo);
    StayEffort(s, Insert(e, s, id, source, now).0, -1);
  }

  lemma TouchEffort(s: State, id: Id, i: Info)
    requires id in s.info && i.attempts == s.info[id].attempts && i.lastCountAttempt == s.info[id].lastCountAttempt
    ensures SameEffort(s, Touch(s, id, i))
  {}

  lemma CreatedEffort(e: Env, s: State, a: Address, source: Host, penalty: int)
    requires IdsOk(s)
    ensures SameEffort(s, Created(e, s, a, source, penalty))
  {}

  lemma AddKnownEffort(e: Env, s: State, a: Address, source: Host, penalty: int, now: int, later: int, lucky: bool)
    requires Consistent(e, s, {}, {}) && a.service in s.byAddr
    ensures SameEffort(s, AddKnown(e, s, a, source, penalty, now, later, lucky).0)
  {
    var id := s.byAddr[a.service];
    var i := Refreshed(s.info[id], a, penalty, now);
    var t := Touch(s, id, i);
    TouchKeeps(e, s, id, i, {}, {});
    TouchEffort(s, id, i);
    if !(a.time <= i.time || i.inTried || i.refCount == MAX_REFS || (i.refCount > 0 && !lucky)) {
      InsertEffort(e, t, id, source, later, {});
      InsertEvolves(e, t, id, source, later, {});
      SameEffortFurther(s, t, Insert(e, t, id, source, later).0);
    }
  }

  lemma AddUnknownEffort(e: Env, s: State, a: Address, source: Host, penalty: int, later: int)
    requires Consistent(e, s, {}, {}) && a.service !in s.byAddr
    ensures SameEffort(s, AddUnknown(e, s, a, source, penalty, later).0)
  {
    var t := Created(e, s, a, source, penalty);
    CreatedKeeps(e, s, a, source, penalty);
    CreatedEffort(e, s, a, source, penalty);
    CreatedEvolves(e, s, a, source, penalty);
    InsertEffort(e, t, s.idCount, source, later, {s.idCount});
    InsertEvolves(e, t, s.idCount, source, later, {s.idCount});
    SameEffortFurther(s, t, Insert(e, t, s.idCount, source, later).0);
  }

  lemma AddSingleEffort(e: Env, s: State, a: Announcement, source: Host, penalty: int)
    requires Sound(e, s)
    ensures SameEffort(s, AddSingle(e, s, a.address, source, penalty, a.now, a.later, a.lucky).0)
  {
    var p := if a.address.service.host == source then 0 else penalty;
    if e.routable(a.address.service.host) {
      if a.address.service in s.byAddr {
        AddKnownEffort(e, s, a.address, source, p, a.now, a.later, a.lucky);
      } else {
        AddUnknownEffort(e, s, a.address, source, p, a.later);
      }
    }
  }

  lemma {:induction false} AddAllEffort(e: Env, s: State, list: seq<Announcement>, source: Host, penalty: int)
    requires Sound(e, s)
    ensures SameEffort(s, AddAll(e, s, list, source, penalty))
    decreases |list|
  {
    if list != [] {
      var t := AddSingle(e, s, list[0].address, source, penalty, list[0].now, list[0].later, list[0].lucky).0;
      AddAllSoundStep(e, s, list[0], source, penalty);
      AddSingleEffort(e, s, list[0], source, penalty);
      AddAllEffort(e, t, list[1..], source, penalty);
      AddAllSound(e, t, list[1..], source, penalty);
      SameEffortFurther(s, t, AddAll(e, t, list[1..], source, penalty));
    }
  }

  /** No success is recorded, and no attempt is dated before `since`. */
  ghost predicate NoSuccess(op: Op, since: int) {
    !op.GoodOp? && !op.ResolveOp? && (op.AttemptOp? ==> op.time >= since)
  }

  /** At most one attempt at x is counted from s to t, and none if one was counted since the last
      success. */
  ghost predicate OnceAtMost(s: State, t: State, x: Id)
    requires x in s.info && x in t.info
  {
    var i, j := s.info[x], t.info[x];
    || (j.attempts == i.attempts && j.lastCountAttempt == i.lastCountAttempt)
    || (j.attempts == i.attempts + 1 && i.lastCountAttempt < s.lastGood <= j.lastCountAttempt)
  }

  lemma StepCounts(e: Env, s: State, op: Op, x: Id)
    requires Sound(e, s) && ValidOp(op) && NoSuccess(op, s.lastGood) && x in s.info && x in Step(e, s, op).info
    ensures Step(e, s, op).lastGood == s.lastGood && OnceAtMost(s, Step(e, s, op), x)
  {
    match op
    case AddOp(list, source, penalty) => AddAllEffort(e, s, list, source, penalty);
    case AttemptOp(addr, countFailure, time) => AttemptCounts(s, addr, countFailure, time, x);
    case ConnectedOp(addr, time) => ConnectedEffort(s, addr, time);
    case SetServicesOp(addr, services) => ServicesEffort(s, addr, services);
    case SelectOp(choice) => SelectEffort(e, s, if choice < |s.collisions| then choice else 0);
  }

  lemma AttemptCounts(s: State, addr: Service, countFailure: bool, time: int, x: Id)
    requires AddrOk(s) && time >= s.lastGood && x in s.info
    ensures var t := Attempt(s, addr, countFailure, time); t.lastGood == s.lastGood && x in t.info && OnceAtMost(s, t, x)
  {}

  lemma ConnectedEffort(s: State, addr: Service, time: int)
    requires AddrOk(s)
    ensures SameEffort(s, Connected(s, addr, time))
  {}

  lemma ServicesEffort(s: State, addr: Service, services: set<nat>)
    requires AddrOk(s)
    ensures SameEffort(s, SetServices(s, addr, services))
  {}

  lemma SelectEffort(e: Env, s: State, k: nat)
    requires Sound(e, s) && (s.collisions != [] ==> k < |s.collisions|)
    ensures SameEffort(s, SelectCollision(e, s, k).0)
  {}

  lemma OnceFurther(s: State, t: State, u: State, x: Id)
    requires x in s.info && x in t.info && x in u.info && t.lastGood == s.lastGood
    requires OnceAtMost(s, t, x) && OnceAtMost(t, u, x)
    ensures OnceAtMost(s, u, x)
  {}

  /** In every run without a success whose attempts are not dated before the last success, an entry's
      attempts are counted once at most. */
  lemma {:induction false} CountedOnce(e: Env, s: State, ops: seq<Op>, x: Id)
    requires Sound(e, s) && (forall op :: op in ops ==> ValidOp(op) && NoSuccess(op, s.lastGood))
    requires x in s.info && x in Run(e, s, ops).info
    ensures Run(e, s, ops).lastGood == s.lastGood && OnceAtMost(s, Run(e, s, ops), x)
    decreases |ops|
  {
    if ops != [] {
      assert ValidOp(ops[0]) && NoSuccess(ops[0], s.lastGood);
      var t := Step(e, s, ops[0]);
      StepSound(e, s, ops[0]);
      RunSound(e, t, ops[1..]);
      StillKnown(s, t, Run(e, t, ops[1..]), x);
      StepCounts(e, s, ops[0], x);
      CountedOnce(e, t, ops[1..], x);
      OnceFurther(s, t, Run(e, t, ops[1..]), x);
    }
  }

  /** Ids that are gone do not come back. */
  lemma StillKnown(s: State, t: State, u: State, x: Id)
    requires IdsOk(s) && Evolves(s, t) && Evolves(t, u) && x in s.info && x in u.info
    ensures x in t.info
  {}
}
