/** The public operations of the address manager, and the properties of every run of them. */
module AddrManOps {
  import opened AddrManState
  import opened AddrManSpec

  // ----- Adding addresses -----

  /** `AddSingle` for an address that has an entry: update it, and perhaps give it one more reference. */
  ghost function AddKnown(e: Env, s: State, a: Address, source: Host, penalty: int, now: int, later: int, lucky: bool): (State, bool)
    requires Consistent(e, s, {}, {}) && a.service in s.byAddr
  {
    var id := s.byAddr[a.service];
    var i := Refreshed(s.info[id], a, penalty, now);
    var t := Touch(s, id, i);
    if a.time <= i.time || i.inTried || i.refCount == MAX_REFS || (i.refCount > 0 && !lucky) then (t, false)
    else TouchKeeps(e, s, id, i, {}, {}); Insert(e, t, id, source, later)
  }

  /** `AddSingle` for an address without an entry. */
  ghost function AddUnknown(e: Env, s: State, a: Address, source: Host, penalty: int, later: int): (State, bool)
    requires Consistent(e, s, {}, {}) && a.service !in s.byAddr
  {
    CreatedKeeps(e, s, a, source, penalty);
    Insert(e, Created(e, s, a, source, penalty), s.idCount, source, later)
  }

  /** `AddSingle`. `now` and `later` are its clock readings, `lucky` the outcome of its random test. */
  ghost function AddSingle(e: Env, s: State, a: Address, source: Host, penalty: int, now: int, later: int, lucky: bool): (State, bool)
    requires Consistent(e, s, {}, {})
  {
    var p := if a.service.host == source then 0 else penalty;
    if !e.routable(a.service.host) then (s, false)
    else if a.service in s.byAddr then AddKnown(e, s, a, source, p, now, later, lucky)
    else AddUnknown(e, s, a, source, p, later)
  }

  /** A new entry, with the penalty taken off its time. */
  function Created(e: Env, s: State, a: Address, source: Host, penalty: int): State {
    Create(e, s, a.service, a.services, Max(0, a.time - penalty), source)
  }

  lemma CreatedKeeps(e: Env, s: State, a: Address, source: Host, penalty: int)
    requires Consistent(e, s, {}, {}) && a.service !in s.byAddr
    ensures Consistent(e, Created(e, s, a, source, penalty), {s.idCount}, {})
  {
    AddToNone(s.idCount);
    var time := Max(0, a.time - penalty);
    CreateKeeps(e, s, a.service, a.services, time, source, {}, {s.idCount});
    assert Created(e, s, a, source, penalty) == Create(e, s, a.service, a.services, time, source);
  }

  lemma AddKnownKeeps(e: Env, s: State, a: Address, source: Host, penalty: int, now: int, later: int, lucky: bool)
    requires Consistent(e, s, {}, {}) && a.service in s.byAddr
    ensures Consistent(e, AddKnown(e, s, a, source, penalty, now, later, lucky).0, {}, {})
  {
    var id := s.byAddr[a.service];
    var i := Refreshed(s.info[id], a, penalty, now);
    TouchKeeps(e, s, id, i, {}, {});
    if !(a.time <= i.time || i.inTried || i.refCount == MAX_REFS || (i.refCount > 0 && !lucky)) {
      InsertKeeps(e, Touch(s, id, i), id, source, later, {});
    }
  }

  lemma AddUnknownKeeps(e: Env, s: State, a: Address, source: Host, penalty: int, later: int)
    requires Consistent(e, s, {}, {}) && a.service !in s.byAddr
    ensures Consistent(e, AddUnknown(e, s, a, source, penalty, later).0, {}, {})
  {
    CreatedKeeps(e, s, a, source, penalty);
    InsertKeeps(e, Created(e, s, a, source, penalty), s.idCount, source, later, {s.idCount});
  }

  lemma AddSingleKeeps(e: Env, s: State, a: Address, source: Host, penalty: int, now: int, later: int, lucky: bool)
    requires Consistent(e, s, {}, {})
    ensures Consistent(e, AddSingle(e, s, a, source, penalty, now, later, lucky).0, {}, {})
  {
    var p := if a.service.host == source then 0 else penalty;
    if e.routable(a.service.host) {
      if a.service in s.byAddr {
        AddKnownKeeps(e, s, a, source, p, now, later, lucky);
      } else {
        AddUnknownKeeps(e, s, a, source, p, later);
      }
    }
  }

  // ----- How states develop -----

  /** Ids are never used again, entries keep their addresses, and no tried cell becomes empty. */
  ghost predicate Evolves(s: State, t: State) {
    && s.idCount <= t.idCount
    && (forall c :: c in s.triedTable ==> c in t.triedTable)
    && (forall x :: x in t.info ==> x < s.idCount ==> x in s.info && t.info[x].addr == s.info[x].addr && t.info[x].source == s.info[x].source)
  }

  /** Nothing enters or leaves the tried table or the pending collisions. */
  ghost predicate SameTried(s: State, t: State) {
    t.collisions == s.collisions && t.triedTable == s.triedTable
  }

  lemma EvolvesFurther(s: State, t: State, u: State)
    requires Evolves(s, t) && Evolves(t, u)
    ensures Evolves(s, u)
  {}

  lemma StayEvolves(s: State, t: State, except: Id)
    requires TriedStay(s, t, except) && forall c :: c in s.triedTable ==> c in t.triedTable
    ensures Evolves(s, t)
  {}

  /** An insertion takes nothing out of the tried table. */
  lemma InsertStay(e: Env, s: State, id: Id, source: Host, now: int, limbo: set<Id>)
    requires Consistent(e, s, limbo, {}) && id in s.info && !s.info[id].inTried
    ensures TriedStay(s, Insert(e, s, id, source, now).0, -1) && Insert(e, s, id, source, now).0.triedTable == s.triedTable
  {
    var c := NewCell(e, s.info[id].addr, source);
    if c in s.newTable && s.newTable[c] == id {
    } else if Insert(e, s, id, source, now).1 {
      TakeOverStay(e, s, id, c, limbo);
    } else if s.info[id].refCount == 0 {
      DeleteOthers(e, s, id);
      OthersAreTried(s, Delete(e, s, id), id);
    }
  }

  lemma TakeOverStay(e: Env, s: State, id: Id, c: Cell, limbo: set<Id>)
    requires Consistent(e, s, limbo, {}) && id in s.info && !s.info[id].inTried && !(c in s.newTable && s.newTable[c] == id)
    ensures id in ClearNew(e, s, c).info
    ensures TriedStay(s, AddRef(ClearNew(e, s, c), id, c), -1) && AddRef(ClearNew(e, s, c), id, c).triedTable == s.triedTable
  {
    ClearNewOthers(e, s, c);
    ClearNewTried(e, s, c, limbo, {});
    AddRefStay(ClearNew(e, s, c), id, c);
    StayStep(s, ClearNew(e, s, c), AddRef(ClearNew(e, s, c), id, c), -1, id);
  }

  lemma AddRefStay(s: State, id: Id, c: Cell)
    requires id in s.info
    ensures TriedStay(s, AddRef(s, id, c), id)
  {}

  lemma TouchEvolves(s: State, id: Id, i: Info)
    requires IdsOk(s) && id in s.info && SameShape(s.info[id], i)
    ensures Evolves(s, Touch(s, id, i))
  {}

  lemma CreatedEvolves(e: Env, s: State, a: Address, source: Host, penalty: int)
    ensures Evolves(s, Created(e, s, a, source, penalty))
  {}

  lemma AddKnownEvolves(e: Env, s: State, a: Address, source: Host, penalty: int, now: int, later: int, lucky: bool)
    requires Consistent(e, s, {}, {}) && a.service in s.byAddr
    ensures var t := AddKnown(e, s, a, source, penalty, now, later, lucky).0; Evolves(s, t) && SameTried(s, t)
  {
    var id := s.byAddr[a.service];
    var i := Refreshed(s.info[id], a, penalty, now);
    TouchKeeps(e, s, id, i, {}, {});
    TouchEvolves(s, id, i);
    var t := Touch(s, id, i);
    if !(a.time <= i.time || i.inTried || i.refCount == MAX_REFS || (i.refCount > 0 && !lucky)) {
      InsertEvolves(e, t, id, source, later, {});
      EvolvesFurther(s, t, Insert(e, t, id, source, later).0);
    }
  }

  lemma InsertEvolves(e: Env, s: State, id: Id, source: Host, now: int, limbo: set<Id>)
    requires Consistent(e, s, limbo, {}) && id in s.info && !s.info[id].inTried
    ensures var t := Insert(e, s, id, source, now).0; Evolves(s, t) && SameTried(s, t)
  {
    InsertStay(e, s, id, source, now, limbo);
    StayEvolves(s, Insert(e, s, id, source, now).0, -1);
  }

  lemma AddUnknownEvolves(e: Env, s: State, a: Address, source: Host, penalty: int, later: int)
    requires Consistent(e, s, {}, {}) && a.service !in s.byAddr
    ensures var t := AddUnknown(e, s, a, source, penalty, later).0; Evolves(s, t) && SameTried(s, t)
  {
    var t := Created(e, s, a, source, penalty);
    CreatedKeeps(e, s, a, source, penalty);
    CreatedEvolves(e, s, a, source, penalty);
    InsertEvolves(e, t, s.idCount, source, later, {s.idCount});
    EvolvesFurther(s, t, Insert(e, t, s.idCount, source, later).0);
  }

  lemma AddSingleEvolves(e: Env, s: State, a: Address, source: Host, penalty: int, now: int, later: int, lucky: bool)
    requires Consistent(e, s, {}, {})
    ensures var t := AddSingle(e, s, a, source, penalty, now, later, lucky).0; Evolves(s, t) && SameTried(s, t)
  {
    var p := if a.service.host == source then 0 else penalty;
    if e.routable(a.service.host) {
      if a.service in s.byAddr {
        AddKnownEvolves(e, s, a, source, p, now, later, lucky);
      } else {
        AddUnknownEvolves(e, s, a, source, p, later);
      }
    }
  }

  // ----- Touching operations -----

  ghost function Attempt(s: State, addr: Service, countFailure: bool, time: int): State
    requires AddrOk(s)
  {
    if addr !in s.byAddr then s
    else
      var id := s.byAddr[addr];
      var i := s.info[id].(lastTry := time);
      Touch(s, id, if countFailure && i.lastCountAttempt < s.lastGood
                   then i.(lastCountAttempt := time, attempts := i.attempts + 1) else i)
  }

  ghost function Connected(s: State, addr: Service, time: int): State
    requires AddrOk(s)
  {
    if addr !in s.byAddr then s
    else
      var id := s.byAddr[addr];
      if time - s.info[id].time > 20 * MINUTE then Touch(s, id, s.info[id].(time := time)) else s
  }

  ghost function SetServices(s: State, addr: Service, services: set<nat>): State
    requires AddrOk(s)
  {
    if addr !in s.byAddr then s else Touch(s, s.byAddr[addr], s.info[s.byAddr[addr]].(services := services))
  }

  // ----- Successful connections -----

  /** Insert into the ordered set of collisions, which holds ten ids at most. */
  function Remember(ids: seq<Id>, id: Id): seq<Id> {
    if |ids| < COLLISION_LIMIT then Inserted(ids, id) else ids
  }

  function Inserted(ids: seq<Id>, id: Id): seq<Id> {
    if ids == [] || id < ids[0] then [id] + ids
    else if id == ids[0] then ids
    else [ids[0]] + Inserted(ids[1..], id)
  }

  /** The entry after a successful connection. */
  function Succeeded(i: Info, time: int): Info {
    i.(lastSuccess := time, lastTry := time, attempts := 0)
  }

  ghost function Connect(s: State, id: Id, time: int): State
    requires id in s.info
  {
    Touch(s.(lastGood := time), id, Succeeded(s.info[id], time))
  }

  lemma ConnectKeeps(e: Env, s: State, id: Id, time: int)
    requires Consistent(e, s, {}, {}) && id in s.info && time > 0
    ensures Consistent(e, Connect(s, id, time), {}, {})
  {
    TouchKeeps(e, s, id, Succeeded(s.info[id], time), {}, {});
    BesideTheTables(e, Touch(s, id, Succeeded(s.info[id], time)), Connect(s, id, time));
  }

  /** The time of the last success and the pending collisions play no role for consistency. */
  lemma BesideTheTables(e: Env, s: State, t: State)
    requires Consistent(e, s, {}, {}) && t == s.(lastGood := t.lastGood, collisions := t.collisions)
    ensures Consistent(e, t, {}, {})
  {
    CountKept(e, s, {}, t, {}, false, -1);
    CountKept(e, s, {}, t, {}, true, -1);
    SameTables(e, s, t, {});
  }

  /** The end of `Good_`: move the entry to the tried table, unless it is there or another entry has
      to be tested first. */
  ghost function Promote(e: Env, s: State, id: Id, testBeforeEvict: bool): (State, bool)
    requires Consistent(e, s, {}, {}) && id in s.info
  {
    if s.info[id].inTried || s.info[id].refCount <= 0 then (s, false)
    else if testBeforeEvict && TriedCell(e, s.info[id].addr) in s.triedTable
    then (s.(collisions := Remember(s.collisions, id)), false)
    else (MakeTried(e, s, id), true)
  }

  /** `Good_`. */
  ghost function Good(e: Env, s: State, addr: Service, testBeforeEvict: bool, time: int): (State, bool)
    requires Consistent(e, s, {}, {}) && time > 0
  {
    if addr !in s.byAddr then (s.(lastGood := time), false)
    else
      var id := s.byAddr[addr];
      ConnectKeeps(e, s, id, time);
      Promote(e, Connect(s, id, time), id, testBeforeEvict)
  }

  lemma GoodKeeps(e: Env, s: State, addr: Service, testBeforeEvict: bool, time: int)
    requires Consistent(e, s, {}, {}) && time > 0
    ensures Consistent(e, Good(e, s, addr, testBeforeEvict, time).0, {}, {})
  {
    var r := Good(e, s, addr, testBeforeEvict, time).0;
    if addr !in s.byAddr {
      BesideTheTables(e, s, r);
    } else {
      var id := s.byAddr[addr];
      var t := Connect(s, id, time);
      ConnectKeeps(e, s, id, time);
      if t.info[id].inTried || t.info[id].refCount <= 0 {
      } else if testBeforeEvict && TriedCell(e, addr) in t.triedTable {
        BesideTheTables(e, t, r);
      } else {
        MakeTriedKeeps(e, t, id);
      }
    }
  }
}
