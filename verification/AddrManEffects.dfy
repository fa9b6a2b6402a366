/** What each operation of the address manager does, exactly: when an announcement is taken, when a
    success moves an entry, and what happens to every other entry. The conditions are stated on the
    state before the operation and in the terms of the tables. */
module AddrManEffects {
  import opened AddrManState
  import opened AddrManSpec
  import opened AddrManOps
  import opened AddrManRuns

  // ----- Losing a cell -----

  ghost predicate Holds(s: State, c: Cell, x: Id) {
    c in s.newTable && s.newTable[c] == x
  }

  /** What becomes of an entry when the cell c of the new table is emptied: without another reference
      it is forgotten, otherwise it has one less; an entry that is not in the cell stays as it is. */
  ghost predicate LosesCell(s: State, t: State, c: Cell, x: Id) {
    x in s.info ==>
      if Holds(s, c, x) && s.info[x].refCount == 1 then x !in t.info
      else x in t.info && Kept(if Holds(s, c, x) then s.info[x].(refCount := s.info[x].refCount - 1) else s.info[x], t.info[x])
  }

  lemma ClearNewLoses(e: Env, s: State, c: Cell, limbo: set<Id>, skipped: set<Id>, x: Id)
    requires Consistent(e, s, limbo, skipped)
    ensures LosesCell(s, ClearNew(e, s, c), c, x)
  {
    if x in s.info {
      ClearNewForgets(e, s, c, limbo, skipped, x);
      ClearNewOthers(e, s, c);
      if Holds(s, c, x) && s.info[x].refCount != 1 {
        DropRefLast(e, s, c, x);
      }
    }
  }

  lemma DropRefLast(e: Env, s: State, c: Cell, x: Id)
    requires RandomOk(s) && Holds(s, c, x) && x in s.info && x in ClearNew(e, s, c).info
    ensures Kept(s.info[x].(refCount := s.info[x].refCount - 1), ClearNew(e, s, c).info[x])
  {
    var t := DropRef(s, c);
    KeepsRandom(s, t);
    if t.info[x].refCount == 0 { DeleteOthers(e, t, x); }
  }

  // ----- Giving an entry a cell of the new table -----

  /** The cell can be had for an entry with `refs` references: it is free, or its entry is another one
      that is terrible, or that has other cells while this one has none. */
  ghost predicate CanTake(s: State, c: Cell, id: Id, refs: int, now: int)
    requires c in s.newTable ==> s.newTable[c] in s.info
  {
    c in s.newTable ==>
      var prior := s.info[s.newTable[c]];
      s.newTable[c] != id && (IsTerrible(prior, now) || (prior.refCount > 1 && refs == 0))
  }

  /** Entries other than `id` after its cell was taken. */
  ghost predicate OthersLose(s: State, t: State, c: Cell, id: Id) {
    && (forall x :: x != id ==> LosesCell(s, t, c, x))
    && (forall x :: x in t.info ==> x == id || x in s.info)
  }

  /** Every entry but `id` is as before. */
  ghost predicate OthersKept(s: State, t: State, id: Id) {
    && (forall x :: x in s.info && x != id ==> x in t.info && Kept(s.info[x], t.info[x]))
    && (forall x :: x in t.info ==> x == id || x in s.info)
  }

  /** The tried table, the pending ids and the time of the last success are as before. */
  ghost predicate Aside(s: State, t: State) {
    t.triedTable == s.triedTable && t.collisions == s.collisions && t.lastGood == s.lastGood
  }

  ghost predicate Takes(s: State, t: State, c: Cell, id: Id)
    requires id in s.info
  {
    && t.newTable == s.newTable[c := id]
    && id in t.info && Kept(s.info[id].(refCount := s.info[id].refCount + 1), t.info[id])
    && OthersLose(s, t, c, id)
  }

  ghost predicate Refused(s: State, t: State, id: Id)
    requires id in s.info
  {
    && t.newTable == s.newTable && OthersKept(s, t, id)
    && if s.info[id].refCount == 0 then id !in t.info else id in t.info && Kept(s.info[id], t.info[id])
  }

  lemma TakeCell(e: Env, s: State, id: Id, c: Cell, limbo: set<Id>)
    requires Consistent(e, s, limbo, {}) && id in s.info && !Holds(s, c, id)
    ensures id in ClearNew(e, s, c).info && Takes(s, AddRef(ClearNew(e, s, c), id, c), c, id)
    ensures Aside(s, AddRef(ClearNew(e, s, c), id, c))
  {
    var t := ClearNew(e, s, c);
    ClearNewOthers(e, s, c);
    forall x ensures LosesCell(s, t, c, x) {
      ClearNewLoses(e, s, c, limbo, {}, x);
    }
    Replaced(s.newTable, c, id);
    RefAdded(s, t, c, id);
  }

  lemma RefAdded(s: State, t: State, c: Cell, id: Id)
    requires id in s.info && id in t.info && !Holds(s, c, id) && (forall x :: LosesCell(s, t, c, x)) && forall x :: x in t.info ==> x in s.info
    ensures id in AddRef(t, id, c).info && Kept(s.info[id].(refCount := s.info[id].refCount + 1), AddRef(t, id, c).info[id])
    ensures OthersLose(s, AddRef(t, id, c), c, id)
  {
    assert LosesCell(s, t, c, id);
    forall x | x != id ensures LosesCell(s, AddRef(t, id, c), c, x) {
      assert LosesCell(s, t, c, x);
    }
  }

  lemma DeleteRefused(e: Env, s: State, id: Id)
    requires RandomOk(s) && id in s.info && s.info[id].refCount == 0
    ensures Refused(s, Delete(e, s, id), id) && Aside(s, Delete(e, s, id))
  {
    DeleteOthers(e, s, id);
  }

  /** The end of `AddSingle`, for an entry that is new. */
  lemma InsertExact(e: Env, s: State, id: Id, source: Host, now: int, limbo: set<Id>)
    requires Consistent(e, s, limbo, {}) && id in s.info
    ensures var (t, added) := Insert(e, s, id, source, now);
            var c := NewCell(e, s.info[id].addr, source);
            && Aside(s, t) && added == CanTake(s, c, id, s.info[id].refCount, now)
            && if added then Takes(s, t, c, id)
               else if Holds(s, c, id) then t == s
               else Refused(s, t, id)
  {
    var c := NewCell(e, s.info[id].addr, source);
    if Holds(s, c, id) {
    } else if Insert(e, s, id, source, now).1 {
      TakeCell(e, s, id, c, limbo);
    } else if s.info[id].refCount == 0 {
      DeleteRefused(e, s, id);
    }
  }

  // ----- Adding an address -----

  /** A new entry as announced, with one reference. A source's announcement of itself has no penalty. */
  ghost function Announced(a: Address, source: Host, penalty: int): (i: Info) {
    var known := a.time - (if a.service.host == source then 0 else penalty);
    Info(a.service, a.services, if known < 0 then 0 else known, source, 0, 0, 0, 0, 1, false, 0)
  }

  /** The new entry has got the cell. */
  ghost predicate Entered(s: State, t: State, c: Cell, i: Info) {
    && t.newTable == s.newTable[c := s.idCount] && s.idCount in t.info && Kept(i, t.info[s.idCount])
    && OthersLose(s, t, c, s.idCount)
  }

  /** Nothing but the random order has changed. */
  ghost predicate Unmoved(s: State, t: State) {
    t.newTable == s.newTable && t.info.Keys == s.info.Keys && forall x :: x in s.info ==> Kept(s.info[x], t.info[x])
  }

  lemma CreatedIs(e: Env, s: State, a: Address, source: Host, penalty: int)
    ensures var t, p := Created(e, s, a, source, penalty), if a.service.host == source then 0 else penalty;
            && t.newTable == s.newTable && Aside(s, t) && t.info.Keys == s.info.Keys + {s.idCount}
            && (forall x :: x in s.info && x != s.idCount ==> t.info[x] == s.info[x])
            && t.info[s.idCount].refCount == 0 && t.info[s.idCount].addr == a.service
            && (penalty == p ==> Kept(Announced(a, source, penalty), t.info[s.idCount].(refCount := 1)))
  {}

  lemma CreatedTaken(s: State, t: State, u: State, c: Cell, i: Info)
    requires s.idCount !in s.info && t.newTable == s.newTable && t.info.Keys == s.info.Keys + {s.idCount}
    requires forall x :: x in s.info && x != s.idCount ==> t.info[x] == s.info[x]
    requires Kept(i, t.info[s.idCount].(refCount := t.info[s.idCount].refCount + 1)) && Takes(t, u, c, s.idCount)
    ensures Entered(s, u, c, i)
  {
    forall x | x != s.idCount ensures LosesCell(s, u, c, x) {
      assert LosesCell(t, u, c, x);
    }
  }

  lemma CreatedRefused(s: State, t: State, u: State)
    requires s.idCount !in s.info && t.newTable == s.newTable && t.info.Keys == s.info.Keys + {s.idCount}
    requires forall x :: x in s.info && x != s.idCount ==> t.info[x] == s.info[x]
    requires t.info[s.idCount].refCount == 0 && Refused(t, u, s.idCount)
    ensures Unmoved(s, u)
  {
    assert forall x :: x in u.info <==> x in s.info;
  }

  /** An address that is not known is added exactly if its cell for this source is free, or holds an
      entry that is terrible or has more than one reference. Then it is in this cell, as announced;
      otherwise nothing is remembered of it. */
  lemma AddNewExact(e: Env, s: State, a: Address, source: Host, penalty: int, now: int, later: int, lucky: bool)
    requires Consistent(e, s, {}, {}) && e.routable(a.service.host) && a.service !in s.byAddr
    ensures var (t, added) := AddSingle(e, s, a, source, penalty, now, later, lucky);
            var c := NewCell(e, a.service, source);
            && Aside(s, t)
            && (added <==> c !in s.newTable || IsTerrible(s.info[s.newTable[c]], later) || s.info[s.newTable[c]].refCount > 1)
            && (added ==> Entered(s, t, c, Announced(a, source, penalty)))
            && (!added ==> Unmoved(s, t))
  {
    var p, c := if a.service.host == source then 0 else penalty, NewCell(e, a.service, source);
    var t := Created(e, s, a, source, p);
    CreatedKeeps(e, s, a, source, p);
    CreatedIs(e, s, a, source, p);
    InsertExact(e, t, s.idCount, source, later, {s.idCount});
    var (u, added) := Insert(e, t, s.idCount, source, later);
    if added {
      CreatedTaken(s, t, u, c, Announced(a, source, penalty));
    } else {
      CreatedRefused(s, t, u);
    }
  }

  /** The time of a known entry after an announcement: it moves on when the announcement is more than an
      hour newer, or a day for an address that has not been online for a day. */
  ghost function TimeAfter(i: Info, a: Address, source: Host, penalty: int, now: int): int {
    var p := if a.service.host == source then 0 else penalty;
    var interval := if now < a.time + 86400 then 3600 else 86400;
    if a.time - i.time > interval + p then (if a.time < p then 0 else a.time - p) else i.time
  }

  /** A known entry gets one more reference exactly if all these hold: the announcement is news, the
      entry is new and has fewer than eight references, the random test passes, and the cell for this
      source is free or holds a terrible entry that is another one. */
  ghost predicate GainsRef(e: Env, s: State, id: Id, a: Address, source: Host, penalty: int, now: int, later: int, lucky: bool)
    requires ValidEnv(e) && id in s.info && forall c :: c in s.newTable ==> s.newTable[c] in s.info
  {
    var i, c := s.info[id], NewCell(e, s.info[id].addr, source);
    && a.time > TimeAfter(i, a, source, penalty, now) && !i.inTried && i.refCount < 8 && lucky
    && (c in s.newTable ==> s.newTable[c] != id && IsTerrible(s.info[s.newTable[c]], later))
  }

  lemma NewHasRef(e: Env, s: State, id: Id)
    requires Consistent(e, s, {}, {}) && id in s.info && !s.info[id].inTried
    ensures 0 < s.info[id].refCount <= 8
  {}

  /** What an announcement does to the tables and entries when its address is known with `id`. */
  ghost predicate RefreshedTo(s: State, t: State, c: Cell, id: Id, i: Info, gains: bool)
    requires id in s.info
  {
    && t.newTable == (if gains then s.newTable[c := id] else s.newTable)
    && id in t.info && Kept(i.(refCount := i.refCount + if gains then 1 else 0), t.info[id])
    && if gains then OthersLose(s, t, c, id) else OthersKept(s, t, id)
  }

  lemma TouchedOnly(s: State, id: Id, i: Info, c: Cell)
    requires id in s.info
    ensures RefreshedTo(s, Touch(s, id, i), c, id, i, false)
  {}

  lemma TouchedTaken(s: State, id: Id, i: Info, u: State, c: Cell)
    requires id in s.info && Takes(Touch(s, id, i), u, c, id) && !Holds(s, c, id)
    ensures RefreshedTo(s, u, c, id, i, true)
  {
    forall x | x != id ensures LosesCell(s, u, c, x) {
      assert LosesCell(Touch(s, id, i), u, c, x);
    }
  }

  lemma TouchedRefused(s: State, id: Id, i: Info, u: State, c: Cell)
    requires id in s.info && i.refCount != 0 && Refused(Touch(s, id, i), u, id)
    ensures RefreshedTo(s, u, c, id, i, false)
  {}

  /** The insertion for a known entry that has a reference. */
  lemma InsertKnown(e: Env, s: State, id: Id, i: Info, source: Host, later: int)
    requires Consistent(e, s, {}, {}) && id in s.info && !s.info[id].inTried && SameShape(s.info[id], i)
    requires Consistent(e, Touch(s, id, i), {}, {})
    ensures var (u, added) := Insert(e, Touch(s, id, i), id, source, later);
            var c := NewCell(e, s.info[id].addr, source);
            && Aside(s, u) && RefreshedTo(s, u, c, id, i, added)
            && added == (c in s.newTable ==> s.newTable[c] != id && IsTerrible(s.info[s.newTable[c]], later))
  {
    var t, c := Touch(s, id, i), NewCell(e, s.info[id].addr, source);
    NewHasRef(e, s, id);
    InsertExact(e, t, id, source, later, {});
    var (u, added) := Insert(e, t, id, source, later);
    if added {
      TouchedTaken(s, id, i, u, c);
    } else if Holds(t, c, id) {
      TouchedOnly(s, id, i, c);
    } else {
      TouchedRefused(s, id, i, u, c);
    }
  }

  /** The known entry after an announcement, apart from its references. */
  ghost function Informed(i: Info, a: Address, source: Host, penalty: int, now: int): Info {
    i.(time := TimeAfter(i, a, source, penalty, now), services := i.services + a.services)
  }

  lemma RefreshedIs(i: Info, a: Address, source: Host, penalty: int, now: int)
    ensures Refreshed(i, a, if a.service.host == source then 0 else penalty, now) == Informed(i, a, source, penalty, now)
  {}

  /** An address that is known: its time and services follow the announcement, it gets one more
      reference exactly under the tests of `GainsRef`, and the answer is whether it did. */
  lemma AddKnownExact(e: Env, s: State, a: Address, source: Host, penalty: int, now: int, later: int, lucky: bool)
    requires Consistent(e, s, {}, {}) && e.routable(a.service.host) && a.service in s.byAddr
    ensures var (t, added) := AddSingle(e, s, a, source, penalty, now, later, lucky);
            var id := s.byAddr[a.service];
            && Aside(s, t) && added == GainsRef(e, s, id, a, source, penalty, now, later, lucky)
            && RefreshedTo(s, t, NewCell(e, a.service, source), id, Informed(s.info[id], a, source, penalty, now), added)
  {
    var id := s.byAddr[a.service];
    var i := Informed(s.info[id], a, source, penalty, now);
    RefreshedIs(s.info[id], a, source, penalty, now);
    TouchKeeps(e, s, id, i, {}, {});
    TouchedOnly(s, id, i, NewCell(e, a.service, source));
    if !i.inTried {
      NewHasRef(e, s, id);
      InsertKnown(e, s, id, i, source, later);
    }
  }

  /** Whether an announcement gets its address a cell. */
  ghost predicate Admits(e: Env, s: State, a: Announcement, source: Host, penalty: int)
    requires ValidEnv(e) && AddrOk(s) && forall c :: c in s.newTable ==> s.newTable[c] in s.info
  {
    var service, c := a.address.service, NewCell(e, a.address.service, source);
    && e.routable(service.host)
    && if service in s.byAddr then GainsRef(e, s, s.byAddr[service], a.address, source, penalty, a.now, a.later, a.lucky)
       else c !in s.newTable || IsTerrible(s.info[s.newTable[c]], a.later) || s.info[s.newTable[c]].refCount > 1
  }

  lemma AddSingleExact(e: Env, s: State, a: Announcement, source: Host, penalty: int)
    requires Consistent(e, s, {}, {})
    ensures var (t, added) := AddSingle(e, s, a.address, source, penalty, a.now, a.later, a.lucky);
            added == Admits(e, s, a, source, penalty) && (!e.routable(a.address.service.host) ==> t == s)
  {
    if e.routable(a.address.service.host) {
      if a.address.service in s.byAddr {
        AddKnownExact(e, s, a.address, source, penalty, a.now, a.later, a.lucky);
      } else {
        AddNewExact(e, s, a.address, source, penalty, a.now, a.later, a.lucky);
      }
    }
  }

  /** The k-th announcement of a list gets its address a cell, in the state that those before it leave. */
  ghost predicate AdmitsNth(e: Env, s: State, list: seq<Announcement>, source: Host, penalty: int, k: nat)
    requires Sound(e, s) && k < |list|
  {
    AddAllSound(e, s, list[..k], source, penalty);
    Admits(e, AddAll(e, s, list[..k], source, penalty), list[k], source, penalty)
  }

  /** Some announcement of a list gets its address a cell. */
  ghost predicate SomeAdmitted(e: Env, s: State, list: seq<Announcement>, source: Host, penalty: int)
    requires Sound(e, s)
  {
    exists k: nat :: k < |list| && AdmitsNth(e, s, list, source, penalty, k)
  }

  lemma NextNth(e: Env, s: State, t: State, list: seq<Announcement>, source: Host, penalty: int, k: nat)
    requires Sound(e, s) && Sound(e, t) && 0 < k < |list|
    requires t == AddSingle(e, s, list[0].address, source, penalty, list[0].now, list[0].later, list[0].lucky).0
    ensures AdmitsNth(e, s, list, source, penalty, k) == AdmitsNth(e, t, list[1..], source, penalty, k - 1)
  {
    assert list[..k][0] == list[0] && list[..k][1..] == list[1..][..k - 1];
    AddAllSoundStep(e, s, list[0], source, penalty);
  }

  lemma FirstNth(e: Env, s: State, list: seq<Announcement>, source: Host, penalty: int)
    requires Sound(e, s) && list != []
    ensures AdmitsNth(e, s, list, source, penalty, 0) == Admits(e, s, list[0], source, penalty)
  {
    assert list[..0] == [];
  }

  lemma AdmittedFirstOrLater(e: Env, s: State, t: State, list: seq<Announcement>, source: Host, penalty: int)
    requires Sound(e, s) && Sound(e, t) && list != []
    requires t == AddSingle(e, s, list[0].address, source, penalty, list[0].now, list[0].later, list[0].lucky).0
    ensures SomeAdmitted(e, s, list, source, penalty) <==>
              Admits(e, s, list[0], source, penalty) || SomeAdmitted(e, t, list[1..], source, penalty)
  {
    FirstNth(e, s, list, source, penalty);
    forall k: nat | 0 < k < |list| ensures AdmitsNth(e, s, list, source, penalty, k) == AdmitsNth(e, t, list[1..], source, penalty, k - 1) {
      NextNth(e, s, t, list, source, penalty, k);
    }
    if k: nat :| k < |list[1..]| && AdmitsNth(e, t, list[1..], source, penalty, k) {
      assert AdmitsNth(e, s, list, source, penalty, k + 1);
    }
  }

  /** `Add_` answers whether some announcement of the list got its address a cell. */
  lemma {:induction false} AnyAddedExact(e: Env, s: State, list: seq<Announcement>, source: Host, penalty: int)
    requires Sound(e, s)
    ensures AnyAdded(e, s, list, source, penalty) <==> SomeAdmitted(e, s, list, source, penalty)
    decreases |list|
  {
    if list != [] {
      var t := AddSingle(e, s, list[0].address, source, penalty, list[0].now, list[0].later, list[0].lucky).0;
      AddAllSoundStep(e, s, list[0], source, penalty);
      AddSingleExact(e, s, list[0], source, penalty);
      AnyAddedExact(e, t, list[1..], source, penalty);
      AdmittedFirstOrLater(e, s, t, list, source, penalty);
    }
  }

  // ----- Recording a success -----

  /** The new table without the cells of an entry. */
  ghost function CellsWithout(table: map<Cell, Id>, id: Id): map<Cell, Id> {
    map c | c in table && table[c] != id :: table[c]
  }

  /** Entries other than the one that moves and the one it replaces: only what is in the cell that the
      replaced one goes back to is affected. */
  ghost predicate Spared(e: Env, s: State, t: State, c: Cell, x: Id)
    requires ValidEnv(e) && (c in s.triedTable ==> s.triedTable[c] in s.info)
  {
    if c !in s.triedTable then x in s.info ==> x in t.info && Kept(s.info[x], t.info[x])
    else x != s.triedTable[c] ==> LosesCell(s, t, HomeCell(e, s.info[s.triedTable[c]]), x)
  }

  /** The entry has moved to the cell c of the tried table; whatever was there is new again, with one
      reference, in the cell for its own source. */
  ghost predicate MovedIn(e: Env, s: State, t: State, c: Cell, id: Id, i: Info)
    requires ValidEnv(e) && (c in s.triedTable ==> s.triedTable[c] in s.info)
  {
    && t.triedTable == s.triedTable[c := id] && id in t.info && Kept(i.(inTried := true, refCount := 0), t.info[id])
    && (if c !in s.triedTable then t.newTable == CellsWithout(s.newTable, id)
        else
          var prior := s.triedTable[c];
          && t.newTable == CellsWithout(s.newTable, id)[HomeCell(e, s.info[prior]) := prior]
          && prior in t.info && Kept(s.info[prior].(inTried := false, refCount := 1), t.info[prior]))
    && (forall x :: x != id ==> Spared(e, s, t, c, x))
    && (forall x :: x in t.info ==> x in s.info)
  }

  lemma MakeRoomSpares(e: Env, s: State, id: Id, c: Cell, x: Id)
    requires Consistent(e, s, {id}, {id}) && c in s.triedTable && x != s.triedTable[c]
    ensures LosesCell(s, MakeRoom(e, s, id, c), HomeCell(e, s.info[s.triedTable[c]]), x)
    ensures x in MakeRoom(e, s, id, c).info ==> x in s.info
  {
    var prior, t, m := s.triedTable[c], TakeTried(e, s, c), {id} + {s.triedTable[c]};
    TakeTriedKeeps(e, s, c, {id}, {id});
    var home := HomeCell(e, s.info[prior]);
    ClearNewSpares(e, t, home, prior, m, m);
    ClearNewLoses(e, t, home, m, m, x);
    ClearNewOthers(e, t, home);
  }

  lemma LeftSpares(e: Env, s: State, id: Id, u: State, home: Cell, x: Id)
    requires id in s.info && x != id && LosesCell(UncountNew(e, DropNew(s, id), id), u, home, x)
    ensures LosesCell(s, u, home, x)
  {}

  lemma PlacedSpares(e: Env, s: State, u: State, id: Id, c: Cell, home: Cell, x: Id)
    requires id in u.info && x != id && LosesCell(s, u, home, x)
    ensures LosesCell(s, PlaceTried(e, u, id, c), home, x)
  {}

  lemma MakeTriedSpares(e: Env, s: State, id: Id, x: Id)
    requires Consistent(e, s, {}, {}) && id in s.info && !s.info[id].inTried && x != id
    ensures Spared(e, s, MakeTried(e, s, id), TriedCell(e, s.info[id].addr), x)
    ensures x in MakeTried(e, s, id).info ==> x in s.info
  {
    var t, c := UncountNew(e, DropNew(s, id), id), TriedCell(e, s.info[id].addr);
    LeaveNew(e, s, id);
    if c in t.triedTable && x != s.triedTable[c] {
      var home := HomeCell(e, s.info[s.triedTable[c]]);
      MakeRoomKeeps(e, t, id, c);
      MakeRoomSpares(e, t, id, c, x);
      LeftSpares(e, s, id, MakeRoom(e, t, id, c), home, x);
      PlacedSpares(e, s, MakeRoom(e, t, id, c), id, c, home, x);
    }
  }

  lemma MakeTriedCells(e: Env, s: State, id: Id)
    requires Consistent(e, s, {}, {}) && id in s.info && !s.info[id].inTried
    ensures var t, c := MakeTried(e, s, id), TriedCell(e, s.info[id].addr);
            t.newTable == if c !in s.triedTable then CellsWithout(s.newTable, id)
                          else CellsWithout(s.newTable, id)[HomeCell(e, s.info[s.triedTable[c]]) := s.triedTable[c]]
  {
    var t, c := UncountNew(e, DropNew(s, id), id), TriedCell(e, s.info[id].addr);
    LeaveNew(e, s, id);
    assert t.newTable == CellsWithout(s.newTable, id);
    if c in t.triedTable {
      MakeRoomKeeps(e, t, id, c);
      MakeRoomOthers(e, t, id, c, id);
    }
  }

  lemma MakeTriedExact(e: Env, s: State, id: Id)
    requires Consistent(e, s, {}, {}) && id in s.info && !s.info[id].inTried
    ensures MovedIn(e, s, MakeTried(e, s, id), TriedCell(e, s.info[id].addr), id, s.info[id])
  {
    MakeTriedEffect(e, s, id);
    MakeTriedCells(e, s, id);
    forall x | x != id
      ensures Spared(e, s, MakeTried(e, s, id), TriedCell(e, s.info[id].addr), x)
      ensures x in MakeTried(e, s, id).info ==> x in s.info
    {
      MakeTriedSpares(e, s, id, x);
    }
  }

  lemma {:induction false} InsertedHas(ids: seq<Id>, id: Id, x: Id)
    ensures x in Inserted(ids, id) <==> x in ids || x == id
  {
    if ids != [] && id > ids[0] {
      InsertedHas(ids[1..], id, x);
      assert ids == [ids[0]] + ids[1..];
    }
  }

  /** The entry after a success. */
  function Renewed(i: Info, time: int): Info {
    i.(lastSuccess := time, lastTry := time, attempts := 0)
  }

  /** A success that moves nothing: one entry is renewed, and it may be pending now. */
  ghost predicate StaysPut(s: State, t: State, id: Id, time: int, collides: bool)
    requires id in s.info
  {
    && t.triedTable == s.triedTable && t.newTable == s.newTable && t.info == s.info[id := Renewed(s.info[id], time)]
    && (forall x :: x in t.collisions <==> x in s.collisions || (x == id && collides && |s.collisions| < 10))
  }

  lemma ConnectMoves(e: Env, s: State, id: Id, time: int, t: State, c: Cell)
    requires ValidEnv(e) && id in s.info && !s.info[id].inTried && (c in s.triedTable ==> s.triedTable[c] in s.info && s.triedTable[c] != id)
    requires MovedIn(e, Connect(s, id, time), t, c, id, Connect(s, id, time).info[id])
    ensures MovedIn(e, s, t, c, id, Renewed(s.info[id], time))
  {
    forall x | x != id ensures Spared(e, s, t, c, x) {
      assert Spared(e, Connect(s, id, time), t, c, x);
    }
  }

  lemma PromoteMoves(e: Env, s: State, id: Id, time: int)
    requires Consistent(e, s, {}, {}) && time > 0 && id in s.info && !s.info[id].inTried
    ensures Consistent(e, Connect(s, id, time), {}, {})
    ensures MovedIn(e, s, MakeTried(e, Connect(s, id, time), id), TriedCell(e, s.info[id].addr), id, Renewed(s.info[id], time))
    ensures MakeTried(e, Connect(s, id, time), id).collisions == s.collisions && MakeTried(e, Connect(s, id, time), id).lastGood == time
  {
    ConnectKeeps(e, s, id, time);
    MakeTriedExact(e, Connect(s, id, time), id);
    MakeTriedStay(e, Connect(s, id, time), id);
    ConnectMoves(e, s, id, time, MakeTried(e, Connect(s, id, time), id), TriedCell(e, s.info[id].addr));
  }

  lemma RememberedPending(ids: seq<Id>, id: Id)
    ensures forall x :: x in Remember(ids, id) <==> x in ids || (x == id && |ids| < 10)
  {
    forall x ensures x in Inserted(ids, id) <==> x in ids || x == id {
      InsertedHas(ids, id, x);
    }
  }

  lemma PromoteStays(e: Env, s: State, id: Id, time: int, testBeforeEvict: bool)
    requires Consistent(e, s, {}, {}) && id in s.info && Consistent(e, Connect(s, id, time), {}, {})
    requires s.info[id].inTried || (testBeforeEvict && TriedCell(e, s.info[id].addr) in s.triedTable)
    ensures var (t, moved) := Promote(e, Connect(s, id, time), id, testBeforeEvict);
            !moved && t.lastGood == time && StaysPut(s, t, id, time, !s.info[id].inTried)
  {
    if !s.info[id].inTried { NewHasRef(e, s, id); }
    RememberedPending(s.collisions, id);
  }

  /** `Good_` for a known address. The entry moves to the tried table exactly if it is new and either
      its cell is free or nothing is to be tested first; then it has this cell. Otherwise the tables
      stay, and the entry becomes pending if it collides and fewer than ten are. Its times and attempts
      are those of a success in every case. */
  lemma GoodExact(e: Env, s: State, addr: Service, testBeforeEvict: bool, time: int)
    requires Consistent(e, s, {}, {}) && time > 0 && addr in s.byAddr
    ensures var (t, moved) := Good(e, s, addr, testBeforeEvict, time);
            var id, c := s.byAddr[addr], TriedCell(e, addr);
            && t.lastGood == time
            && (moved <==> !s.info[id].inTried && (!testBeforeEvict || c !in s.triedTable))
            && (moved ==> t.collisions == s.collisions && MovedIn(e, s, t, c, id, Renewed(s.info[id], time)))
            && (!moved ==> StaysPut(s, t, id, time, !s.info[id].inTried))
  {
    var id, c := s.byAddr[addr], TriedCell(e, addr);
    ConnectKeeps(e, s, id, time);
    if s.info[id].inTried || (testBeforeEvict && c in s.triedTable) {
      PromoteStays(e, s, id, time, testBeforeEvict);
    } else {
      NewHasRef(e, s, id);
      PromoteMoves(e, s, id, time);
    }
  }

  /** An address that is not known only leaves its mark on the time of the last success. */
  lemma GoodUnknown(e: Env, s: State, addr: Service, testBeforeEvict: bool, time: int)
    requires Consistent(e, s, {}, {}) && time > 0 && addr !in s.byAddr
    ensures var (t, moved) := Good(e, s, addr, testBeforeEvict, time);
            !moved && t.lastGood == time && t == s.(lastGood := t.lastGood)
  {}

  // ----- Smaller changes -----

  /** Nothing but one entry has changed. */
  ghost predicate OnlyEntry(s: State, t: State, id: Id) {
    t.info.Keys == s.info.Keys && (forall x :: x in s.info && x != id ==> t.info[x] == s.info[x]) && t == s.(info := t.info)
  }

  /** An attempt is dated always; it counts as a failure exactly if it should and the last counted one
      is before the last success of any address. */
  lemma AttemptExact(s: State, addr: Service, countFailure: bool, time: int)
    requires AddrOk(s)
    ensures var t := Attempt(s, addr, countFailure, time);
            if addr !in s.byAddr then t == s
            else
              var id := s.byAddr[addr];
              var i, counts := s.info[id], countFailure && s.info[id].lastCountAttempt < s.lastGood;
              && OnlyEntry(s, t, id) && t.info[id].lastTry == time
              && t.info[id].attempts == i.attempts + (if counts then 1 else 0)
              && t.info[id].lastCountAttempt == (if counts then time else i.lastCountAttempt)
              && t.info[id].(lastTry := 0, attempts := 0, lastCountAttempt := 0) == i.(lastTry := 0, attempts := 0, lastCountAttempt := 0)
  {
    if addr in s.byAddr { assert s.byAddr[addr] in s.info; }
  }

  /** A connection dates the entry anew exactly if its time is more than twenty minutes ago, so that it
      is never more than that behind. */
  lemma ConnectedExact(s: State, addr: Service, time: int)
    requires AddrOk(s)
    ensures var t := Connected(s, addr, time);
            if addr !in s.byAddr then t == s
            else
              var id := s.byAddr[addr];
              && OnlyEntry(s, t, id) && t.info[id] == s.info[id].(time := t.info[id].time)
              && time - t.info[id].time <= 1200 && (t.info[id].time == s.info[id].time || t.info[id].time == time)
              && (time - s.info[id].time <= 1200 ==> t == s)
  {
    if addr in s.byAddr { assert s.byAddr[addr] in s.info; }
  }

  lemma SetServicesExact(s: State, addr: Service, services: set<nat>)
    requires AddrOk(s)
    ensures var t := SetServices(s, addr, services);
            if addr !in s.byAddr then t == s
            else
              var id := s.byAddr[addr];
              OnlyEntry(s, t, id) && t.info[id].services == services && t.info[id] == s.info[id].(services := t.info[id].services)
  {
    if addr in s.byAddr { assert s.byAddr[addr] in s.info; }
  }

  /** An entry that was tried in the last minute is never terrible. Any other is exactly if it is dated
      more than ten minutes ahead or thirty days back, has failed three times without a success ever, or
      ten times without one in a week. */
  lemma TerribleExact(i: Info, now: int)
    ensures IsTerrible(i, now) <==>
              now > i.lastTry + 60 &&
              !(now - 2592000 <= i.time <= now + 600 && (i.attempts < 3 || i.lastSuccess != 0)
                && (i.attempts < 10 || i.lastSuccess >= now - 604800))
  {}
}
