/** What every run of the address manager keeps: the consistency conditions, the permanence of tried
    cells and ids that test-before-evict relies on, and the protection of tried entries. */
module AddrManRuns {
  import opened AddrManState
  import opened AddrManSpec
  import opened AddrManOps

  // ----- Pending collisions -----

  predicate Sorted(ids: seq<Id>) {
    forall i, j :: 0 <= i < j < |ids| ==> ids[i] < ids[j]
  }

  /** A pending id whose entry still exists is new and collides with some tried entry. */
  ghost predicate PendingOk(e: Env, s: State, id: Id)
    requires ValidEnv(e)
  {
    id < s.idCount && (id in s.info ==> !s.info[id].inTried && TriedCell(e, s.info[id].addr) in s.triedTable)
  }

  ghost predicate CollisionsOk(e: Env, s: State)
    requires ValidEnv(e)
  {
    && |s.collisions| <= COLLISION_LIMIT && Sorted(s.collisions)
    && forall id :: id in s.collisions ==> PendingOk(e, s, id)
  }

  /** What holds between operations. */
  ghost predicate Sound(e: Env, s: State) {
    Consistent(e, s, {}, {}) && CollisionsOk(e, s)
  }

  lemma {:induction false} InsertedOk(ids: seq<Id>, id: Id)
    requires Sorted(ids)
    ensures Sorted(Inserted(ids, id)) && |Inserted(ids, id)| <= |ids| + 1
    ensures forall x :: x in Inserted(ids, id) <==> x in ids || x == id
  {
    if ids == [] || id < ids[0] {
    } else if id == ids[0] {
    } else {
      var rest := Inserted(ids[1..], id);
      InsertedOk(ids[1..], id);
      assert ids == [ids[0]] + ids[1..];
      forall j | 0 <= j < |rest| ensures ids[0] < rest[j] {
        assert rest[j] in rest;
      }
    }
  }

  /** Ids that are gone do not come back, so collisions stay collisions; the pending ids remain new
      if none of them enters the tried table. */
  lemma EvolvesKeepsCollisions(e: Env, s: State, t: State)
    requires Sound(e, s) && Consistent(e, t, {}, {}) && Evolves(s, t)
    requires |t.collisions| <= COLLISION_LIMIT && Sorted(t.collisions) && forall id :: id in t.collisions ==> id in s.collisions
    requires forall c :: c in t.triedTable && t.triedTable[c] in t.collisions ==> c in s.triedTable && s.triedTable[c] == t.triedTable[c]
    ensures CollisionsOk(e, t)
  {
    forall id | id in t.collisions ensures PendingOk(e, t, id) {
      assert PendingOk(e, s, id);
      if id in t.info && t.info[id].inTried {
        TriedTwice(e, s, t, id);
      }
    }
  }

  lemma TriedTwice(e: Env, s: State, t: State, id: Id)
    requires ValidEnv(e) && TriedOk(e, s) && TriedOk(e, t) && id in t.info && t.info[id].inTried
    requires forall c :: c in t.triedTable && t.triedTable[c] == id ==> c in s.triedTable && s.triedTable[c] == id
    ensures id in s.info && s.info[id].inTried
  {
    var c := TriedCell(e, t.info[id].addr);
    assert c in t.triedTable && t.triedTable[c] == id;
  }

  lemma ConnectEvolves(s: State, id: Id, time: int)
    requires IdsOk(s) && id in s.info
    ensures Evolves(s, Connect(s, id, time))
  {}

  lemma MakeTriedEvolves(e: Env, s: State, id: Id)
    requires Consistent(e, s, {}, {}) && id in s.info && !s.info[id].inTried
    ensures Evolves(s, MakeTried(e, s, id)) && MakeTried(e, s, id).collisions == s.collisions
  {
    var c := TriedCell(e, s.info[id].addr);
    MakeTriedEffect(e, s, id);
    MakeTriedStay(e, s, id);
    StayEvolves(s, MakeTried(e, s, id), if c in s.triedTable then s.triedTable[c] else -1);
  }

  /** The table in which the entry of an address has got its cell, if it has. */
  ghost predicate MayEnter(e: Env, s: State, t: State, addr: Service, free: bool)
    requires ValidEnv(e)
  {
    || t.triedTable == s.triedTable
    || (addr in s.byAddr && t.triedTable == s.triedTable[TriedCell(e, addr) := s.byAddr[addr]]
        && (free ==> TriedCell(e, addr) !in s.triedTable))
  }

  lemma GoodEvolves(e: Env, s: State, addr: Service, testBeforeEvict: bool, time: int)
    requires Consistent(e, s, {}, {}) && time > 0
    ensures Evolves(s, Good(e, s, addr, testBeforeEvict, time).0)
    ensures MayEnter(e, s, Good(e, s, addr, testBeforeEvict, time).0, addr, testBeforeEvict)
    ensures !testBeforeEvict ==> Good(e, s, addr, testBeforeEvict, time).0.collisions == s.collisions
  {
    if addr in s.byAddr {
      var id := s.byAddr[addr];
      var t := Connect(s, id, time);
      ConnectKeeps(e, s, id, time);
      ConnectEvolves(s, id, time);
      if !t.info[id].inTried && t.info[id].refCount > 0 && !(testBeforeEvict && TriedCell(e, addr) in t.triedTable) {
        MakeTriedEvolves(e, t, id);
        MakeTriedEffect(e, t, id);
        EvolvesFurther(s, t, MakeTried(e, t, id));
      }
    }
  }

  /** Recording a success, as the public `Good` does it. */
  lemma GoodSound(e: Env, s: State, addr: Service, time: int)
    requires Sound(e, s) && time > 0
    ensures Sound(e, Good(e, s, addr, true, time).0)
  {
    var r := Good(e, s, addr, true, time).0;
    GoodKeeps(e, s, addr, true, time);
    GoodEvolves(e, s, addr, true, time);
    if r.collisions == s.collisions {
      forall c | c in r.triedTable && r.triedTable[c] in r.collisions ensures c in s.triedTable && s.triedTable[c] == r.triedTable[c] {
        assert PendingOk(e, s, r.triedTable[c]);
      }
      EvolvesKeepsCollisions(e, s, r);
    } else {
      GoodCollision(e, s, addr, true, time);
    }
  }

  lemma GoodCollision(e: Env, s: State, addr: Service, testBeforeEvict: bool, time: int)
    requires Sound(e, s) && time > 0 && Good(e, s, addr, testBeforeEvict, time).0.collisions != s.collisions
    ensures CollisionsOk(e, Good(e, s, addr, testBeforeEvict, time).0)
  {
    if addr in s.byAddr {
      var id := s.byAddr[addr];
      ConnectKeeps(e, s, id, time);
      ConnectEvolves(s, id, time);
      GoodCollides(e, s, addr, testBeforeEvict, time);
      EvolvesKeepsCollisions(e, s, Connect(s, id, time));
      InsertedKeeps(e, Connect(s, id, time), id);
    }
  }

  lemma InsertedKeeps(e: Env, s: State, id: Id)
    requires ValidEnv(e) && CollisionsOk(e, s) && |s.collisions| < COLLISION_LIMIT && PendingOk(e, s, id)
    ensures CollisionsOk(e, s.(collisions := Inserted(s.collisions, id)))
  {
    var t := s.(collisions := Inserted(s.collisions, id));
    InsertedOk(s.collisions, id);
    forall x | x in t.collisions ensures PendingOk(e, t, x) {
      assert PendingOk(e, s, x);
    }
  }

  lemma GoodCollides(e: Env, s: State, addr: Service, testBeforeEvict: bool, time: int)
    requires Consistent(e, s, {}, {}) && time > 0 && addr in s.byAddr
    requires Good(e, s, addr, testBeforeEvict, time).0.collisions != s.collisions
    ensures var id := s.byAddr[addr];
            && TriedCell(e, addr) in s.triedTable && |s.collisions| < COLLISION_LIMIT && !s.info[id].inTried
            && Good(e, s, addr, testBeforeEvict, time).0 == Connect(s, id, time).(collisions := Inserted(s.collisions, id))
  {
    var id := s.byAddr[addr];
    var t := Connect(s, id, time);
    ConnectKeeps(e, s, id, time);
    if !t.info[id].inTried && t.info[id].refCount > 0 && !(testBeforeEvict && TriedCell(e, addr) in t.triedTable) {
      MakeTriedEvolves(e, t, id);
    }
  }

  // ----- Resolving collisions -----

  /** One iteration of `ResolveCollisions_`, and whether the collision is settled. */
  ghost function ResolveOne(e: Env, s: State, id: Id, now: int): (State, bool)
    requires Consistent(e, s, {}, {}) && now > 0
  {
    if id !in s.info || !e.valid(s.info[id].addr.host) then (s, true)
    else
      var c := TriedCell(e, s.info[id].addr);
      if c !in s.triedTable then (Good(e, s, s.info[id].addr, false, now).0, true)
      else
        var prior := s.info[s.triedTable[c]];
        if now - prior.lastSuccess < REPLACEMENT then (s, true)
        else if now - prior.lastTry < REPLACEMENT then
          if now - prior.lastTry > MINUTE then (Good(e, s, s.info[id].addr, false, now).0, true) else (s, false)
        else if now - s.info[id].lastSuccess > TEST_WINDOW then (Good(e, s, s.info[id].addr, false, now).0, true)
        else (s, false)
  }

  function Without(ids: seq<Id>, k: nat): seq<Id>
    requires k < |ids|
  {
    ids[..k] + ids[k + 1..]
  }

  /** One iteration with the step of the iterator: the new state, and where the next pending id is. */
  ghost function ResolveNext(e: Env, s: State, k: nat, now: int): (State, nat)
    requires Consistent(e, s, {}, {}) && k < |s.collisions| && now > 0
  {
    var r := ResolveOne(e, s, s.collisions[k], now);
    if r.1 then (r.0.(collisions := Without(s.collisions, k)), k) else (s, k + 1)
  }

  /** The state stays as it is, or the pending entry is treated as a success and settled. */
  lemma ResolveOneCases(e: Env, s: State, id: Id, now: int)
    requires Consistent(e, s, {}, {}) && now > 0
    ensures var r := ResolveOne(e, s, id, now);
            r.0 == s || (r.1 && id in s.info && r.0 == Good(e, s, s.info[id].addr, false, now).0)
  {}

  lemma ResolveOneEvolves(e: Env, s: State, id: Id, now: int) returns (t: State)
    requires Consistent(e, s, {}, {}) && now > 0
    ensures t == ResolveOne(e, s, id, now).0
    ensures Consistent(e, t, {}, {}) && Evolves(s, t) && t.collisions == s.collisions
    ensures t == s || (ResolveOne(e, s, id, now).1 && id in s.info && MayEnter(e, s, t, s.info[id].addr, false))
  {
    t := ResolveOne(e, s, id, now).0;
    ResolveOneCases(e, s, id, now);
    if t != s {
      GoodKeeps(e, s, s.info[id].addr, false, now);
      GoodEvolves(e, s, s.info[id].addr, false, now);
    }
  }

  lemma WithoutOk(ids: seq<Id>, k: nat)
    requires k < |ids| && Sorted(ids)
    ensures Sorted(Without(ids, k)) && forall x :: x in Without(ids, k) <==> x in ids && x != ids[k]
  {
    var r := Without(ids, k);
    forall x | x in ids && x != ids[k] ensures x in r {
      var i :| 0 <= i < |ids| && ids[i] == x;
      assert r[if i < k then i else i - 1] == x;
    }
  }

  lemma ForgetSound(e: Env, s: State, k: nat)
    requires Sound(e, s) && k < |s.collisions|
    ensures Sound(e, s.(collisions := Without(s.collisions, k))) && Evolves(s, s.(collisions := Without(s.collisions, k)))
  {
    var t := s.(collisions := Without(s.collisions, k));
    BesideTheTables(e, s, t);
    WithoutOk(s.collisions, k);
    EvolvesKeepsCollisions(e, s, t);
  }

  lemma SettledSound(e: Env, s: State, t: State, k: nat)
    requires Sound(e, s) && k < |s.collisions| && s.collisions[k] in s.info && t.collisions == s.collisions
    requires Consistent(e, t, {}, {}) && Evolves(s, t) && MayEnter(e, s, t, s.info[s.collisions[k]].addr, false)
    ensures Sound(e, t.(collisions := Without(s.collisions, k))) && Evolves(s, t.(collisions := Without(s.collisions, k)))
  {
    var u, id := t.(collisions := Without(s.collisions, k)), s.collisions[k];
    BesideTheTables(e, t, u);
    WithoutOk(s.collisions, k);
    assert s.byAddr[s.info[id].addr] == id;
    EvolvesKeepsCollisions(e, s, u);
  }

  lemma ResolveNextSound(e: Env, s: State, k: nat, now: int)
    requires Sound(e, s) && k < |s.collisions| && now > 0
    ensures var (t, k') := ResolveNext(e, s, k, now);
            && Sound(e, t) && Evolves(s, t) && k' <= |t.collisions|
            && |t.collisions| - k' == |s.collisions| - k - 1 && t.collisions[k'..] == s.collisions[k + 1..]
  {
    var u := ResolveOneEvolves(e, s, s.collisions[k], now);
    if ResolveOne(e, s, s.collisions[k], now).1 {
      if u == s { ForgetSound(e, s, k); } else { SettledSound(e, s, u, k); }
    }
  }

  /** `ResolveCollisions_` from the k-th pending id on. `clock` gives the reading at each id. */
  ghost function ResolveFrom(e: Env, s: State, k: nat, clock: Id -> int): State
    requires Sound(e, s) && k <= |s.collisions| && forall id :: clock(id) > 0
    decreases |s.collisions| - k
  {
    if k == |s.collisions| then s
    else
      var id := s.collisions[k];
      ResolveNextSound(e, s, k, clock(id));
      var (t, k') := ResolveNext(e, s, k, clock(id));
      ResolveFrom(e, t, k', clock)
  }

  lemma {:induction false} ResolveSound(e: Env, s: State, k: nat, clock: Id -> int)
    requires Sound(e, s) && k <= |s.collisions| && forall id :: clock(id) > 0
    ensures Sound(e, ResolveFrom(e, s, k, clock)) && Evolves(s, ResolveFrom(e, s, k, clock))
    decreases |s.collisions| - k
  {
    if k < |s.collisions| {
      var id := s.collisions[k];
      ResolveNextSound(e, s, k, clock(id));
      var (t, k') := ResolveNext(e, s, k, clock(id));
      ResolveSound(e, t, k', clock);
      EvolvesFurther(s, t, ResolveFrom(e, t, k', clock));
    }
  }

  /** `SelectTriedCollision_` with the outcome of its random choice: the tried entry to test, if any.
      That the tried cell is occupied, and not -1, is what `Sound` is needed for. */
  ghost function SelectCollision(e: Env, s: State, k: nat): (State, seq<(Service, int)>)
    requires Sound(e, s) && (s.collisions != [] ==> k < |s.collisions|)
  {
    if s.collisions == [] then (s, [])
    else
      var id := s.collisions[k];
      if id !in s.info then (s.(collisions := Without(s.collisions, k)), [])
      else
        assert PendingOk(e, s, id);
        var prior := s.info[s.triedTable[TriedCell(e, s.info[id].addr)]];
        (s, [(prior.addr, prior.lastTry)])
  }

  lemma SelectSound(e: Env, s: State, k: nat)
    requires Sound(e, s) && (s.collisions != [] ==> k < |s.collisions|)
    ensures Sound(e, SelectCollision(e, s, k).0) && Evolves(s, SelectCollision(e, s, k).0)
  {
    if s.collisions != [] && s.collisions[k] !in s.info {
      ForgetSound(e, s, k);
    }
  }

  // ----- Whole runs -----

  /** An announced address with the clock readings and the random outcome that adding it meets. */
  datatype Announcement = Announcement(address: Address, now: int, later: int, lucky: bool)

  datatype Op =
    | AddOp(list: seq<Announcement>, source: Host, penalty: int)
    | GoodOp(addr: Service, time: int)
    | AttemptOp(addr: Service, countFailure: bool, time: int)
    | ConnectedOp(addr: Service, time: int)
    | SetServicesOp(addr: Service, services: set<nat>)
    | ResolveOp(clock: Id -> int)
    | SelectOp(choice: nat)

  /** Clock readings are not before the epoch, and successes are after it. */
  ghost predicate ValidOp(op: Op) {
    match op
    case GoodOp(_, time) => time > 0
    case AttemptOp(_, _, time) => time >= 0
    case ResolveOp(clock) => forall id :: clock(id) > 0
    case _ => true
  }

  /** `Add_`. */
  ghost function AddAll(e: Env, s: State, list: seq<Announcement>, source: Host, penalty: int): State
    requires Sound(e, s)
    decreases |list|
  {
    if list == [] then s
    else
      AddAllSoundStep(e, s, list[0], source, penalty);
      AddAll(e, AddSingle(e, s, list[0].address, source, penalty, list[0].now, list[0].later, list[0].lucky).0,
             list[1..], source, penalty)
  }

  /** What `Add_` returns: whether some address got a new reference. */
  ghost predicate AnyAdded(e: Env, s: State, list: seq<Announcement>, source: Host, penalty: int)
    requires Sound(e, s)
    decreases |list|
  {
    list != [] && (
      AddAllSoundStep(e, s, list[0], source, penalty);
      var r := AddSingle(e, s, list[0].address, source, penalty, list[0].now, list[0].later, list[0].lucky);
      r.1 || AnyAdded(e, r.0, list[1..], source, penalty))
  }

  lemma AddAllSoundStep(e: Env, s: State, a: Announcement, source: Host, penalty: int)
    requires Sound(e, s)
    ensures var t := AddSingle(e, s, a.address, source, penalty, a.now, a.later, a.lucky).0; Sound(e, t) && Evolves(s, t)
  {
    AddSingleKeeps(e, s, a.address, source, penalty, a.now, a.later, a.lucky);
    AddSingleEvolves(e, s, a.address, source, penalty, a.now, a.later, a.lucky);
    EvolvesKeepsCollisions(e, s, AddSingle(e, s, a.address, source, penalty, a.now, a.later, a.lucky).0);
  }

  lemma {:induction false} AddAllSound(e: Env, s: State, list: seq<Announcement>, source: Host, penalty: int)
    requires Sound(e, s)
    ensures Sound(e, AddAll(e, s, list, source, penalty)) && Evolves(s, AddAll(e, s, list, source, penalty))
    decreases |list|
  {
    if list != [] {
      var t := AddSingle(e, s, list[0].address, source, penalty, list[0].now, list[0].later, list[0].lucky).0;
      AddAllSoundStep(e, s, list[0], source, penalty);
      AddAllSound(e, t, list[1..], source, penalty);
      EvolvesFurther(s, t, AddAll(e, t, list[1..], source, penalty));
    }
  }

  ghost function Step(e: Env, s: State, op: Op): State
    requires Sound(e, s) && ValidOp(op)
  {
    match op
    case AddOp(list, source, penalty) => AddAll(e, s, list, source, penalty)
    case GoodOp(addr, time) => Good(e, s, addr, true, time).0
    case AttemptOp(addr, countFailure, time) => Attempt(s, addr, countFailure, time)
    case ConnectedOp(addr, time) => Connected(s, addr, time)
    case SetServicesOp(addr, services) => SetServices(s, addr, services)
    case ResolveOp(clock) => ResolveFrom(e, s, 0, clock)
    case SelectOp(choice) => SelectCollision(e, s, if choice < |s.collisions| then choice else 0).0
  }

  /** Changing times, services and attempts of an entry. */
  lemma TouchSound(e: Env, s: State, id: Id, i: Info)
    requires Sound(e, s) && id in s.info && SameShape(s.info[id], i)
    requires i.lastTry >= 0 && i.lastSuccess == s.info[id].lastSuccess
    ensures Sound(e, Touch(s, id, i)) && Evolves(s, Touch(s, id, i))
  {
    TouchKeeps(e, s, id, i, {}, {});
    TouchEvolves(s, id, i);
    EvolvesKeepsCollisions(e, s, Touch(s, id, i));
  }

  lemma AttemptSound(e: Env, s: State, addr: Service, countFailure: bool, time: int)
    requires Sound(e, s) && time >= 0
    ensures Sound(e, Attempt(s, addr, countFailure, time)) && Evolves(s, Attempt(s, addr, countFailure, time))
  {
    if addr in s.byAddr {
      var id := s.byAddr[addr];
      TouchSound(e, s, id, Attempt(s, addr, countFailure, time).info[id]);
    }
  }

  lemma ConnectedSound(e: Env, s: State, addr: Service, time: int)
    requires Sound(e, s)
    ensures Sound(e, Connected(s, addr, time)) && Evolves(s, Connected(s, addr, time))
  {
    if addr in s.byAddr {
      TouchSound(e, s, s.byAddr[addr], s.info[s.byAddr[addr]].(time := time));
    }
  }

  lemma SetServicesSound(e: Env, s: State, addr: Service, services: set<nat>)
    requires Sound(e, s)
    ensures Sound(e, SetServices(s, addr, services)) && Evolves(s, SetServices(s, addr, services))
  {
    if addr in s.byAddr {
      TouchSound(e, s, s.byAddr[addr], s.info[s.byAddr[addr]].(services := services));
    }
  }

  lemma StepSound(e: Env, s: State, op: Op)
    requires Sound(e, s) && ValidOp(op)
    ensures Sound(e, Step(e, s, op)) && Evolves(s, Step(e, s, op))
  {
    match op
    case AddOp(list, source, penalty) => AddAllSound(e, s, list, source, penalty);
    case GoodOp(addr, time) =>
      GoodSound(e, s, addr, time);
      GoodEvolves(e, s, addr, true, time);
    case AttemptOp(addr, countFailure, time) => AttemptSound(e, s, addr, countFailure, time);
    case ConnectedOp(addr, time) => ConnectedSound(e, s, addr, time);
    case SetServicesOp(addr, services) => SetServicesSound(e, s, addr, services);
    case ResolveOp(clock) => ResolveSound(e, s, 0, clock);
    case SelectOp(choice) => SelectSound(e, s, if choice < |s.collisions| then choice else 0);
  }

  ghost function Run(e: Env, s: State, ops: seq<Op>): State
    requires Sound(e, s) && forall op :: op in ops ==> ValidOp(op)
    decreases |ops|
  {
    if ops == [] then s
    else
      assert ValidOp(ops[0]);
      StepSound(e, s, ops[0]);
      Run(e, Step(e, s, ops[0]), ops[1..])
  }

  lemma EmptySound(e: Env)
    requires ValidEnv(e)
    ensures Sound(e, EMPTY)
  {
    EmptyConsistent(e);
  }

  /** Every run keeps all consistency conditions; over it no id is used again, no entry changes its
      address, and no tried cell becomes empty. */
  lemma {:induction false} RunSound(e: Env, s: State, ops: seq<Op>)
    requires Sound(e, s) && forall op :: op in ops ==> ValidOp(op)
    ensures Sound(e, Run(e, s, ops)) && Evolves(s, Run(e, s, ops))
    decreases |ops|
  {
    if ops != [] {
      assert ValidOp(ops[0]);
      StepSound(e, s, ops[0]);
      var t := Step(e, s, ops[0]);
      RunSound(e, t, ops[1..]);
      EvolvesFurther(s, t, Run(e, t, ops[1..]));
    }
  }

  // ----- Only routable addresses get in -----

  ghost predicate AllRoutable(e: Env, s: State) {
    forall id :: id in s.info ==> e.routable(s.info[id].addr.host)
  }

  /** A state without new ids has no new addresses. */
  lemma SameIdsRoutable(e: Env, s: State, t: State)
    requires AllRoutable(e, s) && Evolves(s, t) && t.idCount == s.idCount && IdsOk(t)
    ensures AllRoutable(e, t)
  {}

  lemma InsertRoutable(e: Env, s: State, id: Id, source: Host, now: int, limbo: set<Id>)
    requires Consistent(e, s, limbo, {}) && id in s.info && !s.info[id].inTried && AllRoutable(e, s)
    ensures AllRoutable(e, Insert(e, s, id, source, now).0)
  {
    InsertStay(e, s, id, source, now, limbo);
    StayRoutable(e, s, Insert(e, s, id, source, now).0, -1);
  }

  lemma StayRoutable(e: Env, s: State, t: State, except: Id)
    requires TriedStay(s, t, except) && AllRoutable(e, s)
    ensures AllRoutable(e, t)
  {
    forall id | id in t.info ensures e.routable(t.info[id].addr.host) {
      assert Moved(s.info[id], t.info[id]);
    }
  }

  lemma AddKnownRoutable(e: Env, s: State, a: Address, source: Host, penalty: int, now: int, later: int, lucky: bool)
    requires Consistent(e, s, {}, {}) && a.service in s.byAddr && AllRoutable(e, s)
    ensures AllRoutable(e, AddKnown(e, s, a, source, penalty, now, later, lucky).0)
  {
    var id := s.byAddr[a.service];
    var i := Refreshed(s.info[id], a, penalty, now);
    TouchKeeps(e, s, id, i, {}, {});
    assert AllRoutable(e, Touch(s, id, i));
    if !i.inTried {
      InsertRoutable(e, Touch(s, id, i), id, source, later, {});
    }
  }

  lemma AddUnknownRoutable(e: Env, s: State, a: Address, source: Host, penalty: int, later: int)
    requires Consistent(e, s, {}, {}) && a.service !in s.byAddr && AllRoutable(e, s) && e.routable(a.service.host)
    ensures AllRoutable(e, AddUnknown(e, s, a, source, penalty, later).0)
  {
    var t := Created(e, s, a, source, penalty);
    CreatedKeeps(e, s, a, source, penalty);
    assert AllRoutable(e, t);
    InsertRoutable(e, t, s.idCount, source, later, {s.idCount});
  }

  lemma AddSingleRoutable(e: Env, s: State, a: Announcement, source: Host, penalty: int)
    requires Sound(e, s) && AllRoutable(e, s)
    ensures AllRoutable(e, AddSingle(e, s, a.address, source, penalty, a.now, a.later, a.lucky).0)
  {
    var p := if a.address.service.host == source then 0 else penalty;
    if e.routable(a.address.service.host) {
      if a.address.service in s.byAddr {
        AddKnownRoutable(e, s, a.address, source, p, a.now, a.later, a.lucky);
      } else {
        AddUnknownRoutable(e, s, a.address, source, p, a.later);
      }
    }
  }

  lemma {:induction false} AddAllRoutable(e: Env, s: State, list: seq<Announcement>, source: Host, penalty: int)
    requires Sound(e, s) && AllRoutable(e, s)
    ensures AllRoutable(e, AddAll(e, s, list, source, penalty))
    decreases |list|
  {
    if list != [] {
      AddAllSoundStep(e, s, list[0], source, penalty);
      AddSingleRoutable(e, s, list[0], source, penalty);
      AddAllRoutable(e, AddSingle(e, s, list[0].address, source, penalty, list[0].now, list[0].later, list[0].lucky).0, list[1..], source, penalty);
    }
  }

  lemma GoodIds(e: Env, s: State, addr: Service, testBeforeEvict: bool, time: int)
    requires Consistent(e, s, {}, {}) && time > 0
    ensures Good(e, s, addr, testBeforeEvict, time).0.idCount == s.idCount
  {
    if addr in s.byAddr {
      var t := Connect(s, s.byAddr[addr], time);
      ConnectKeeps(e, s, s.byAddr[addr], time);
      if !t.info[s.byAddr[addr]].inTried { MakeTriedStay(e, t, s.byAddr[addr]); }
    }
  }

  lemma {:induction false} ResolveIds(e: Env, s: State, k: nat, clock: Id -> int)
    requires Sound(e, s) && k <= |s.collisions| && forall id :: clock(id) > 0
    ensures ResolveFrom(e, s, k, clock).idCount == s.idCount
    decreases |s.collisions| - k
  {
    if k < |s.collisions| {
      var id := s.collisions[k];
      ResolveNextSound(e, s, k, clock(id));
      var (t, k') := ResolveNext(e, s, k, clock(id));
      ResolveIds(e, t, k', clock);
      ResolveOneCases(e, s, id, clock(id));
      if id in s.info { GoodIds(e, s, s.info[id].addr, false, clock(id)); }
    }
  }

  lemma OtherOpsIds(e: Env, s: State, op: Op)
    requires Sound(e, s) && ValidOp(op) && !op.AddOp?
    ensures Step(e, s, op).idCount == s.idCount
  {
    match op
    case GoodOp(addr, time) => GoodIds(e, s, addr, true, time);
    case AttemptOp(addr, countFailure, time) =>
    case ConnectedOp(addr, time) =>
    case SetServicesOp(addr, services) =>
    case ResolveOp(clock) => ResolveIds(e, s, 0, clock);
    case SelectOp(choice) =>
  }

  /** Over every run, only addresses that are routable get in. */
  lemma {:induction false} RunRoutable(e: Env, s: State, ops: seq<Op>)
    requires Sound(e, s) && AllRoutable(e, s) && forall op :: op in ops ==> ValidOp(op)
    ensures AllRoutable(e, Run(e, s, ops))
    decreases |ops|
  {
    if ops != [] {
      assert ValidOp(ops[0]);
      StepSound(e, s, ops[0]);
      if ops[0].AddOp? {
        AddAllRoutable(e, s, ops[0].list, ops[0].source, ops[0].penalty);
      } else {
        OtherOpsIds(e, s, ops[0]);
        SameIdsRoutable(e, s, Step(e, s, ops[0]));
      }
      RunRoutable(e, Step(e, s, ops[0]), ops[1..]);
    }
  }
}
