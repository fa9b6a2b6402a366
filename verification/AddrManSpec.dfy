/** The operations of the address manager as functions on its state, and what they keep over every
    run. Clock readings and the outcomes of random choices are parameters. */
module AddrManSpec {
  import opened AddrManState

  const MINUTE: int := 60
  const HOUR: int := 3600
  const DAY: int := 86400

  const HORIZON: int := 30 * DAY
  const RETRIES: int := 3
  const MAX_FAILURES: int := 10
  const MIN_FAIL: int := 7 * DAY
  const REPLACEMENT: int := 4 * HOUR
  const TEST_WINDOW: int := 40 * MINUTE
  const COLLISION_LIMIT: nat := 10

  lemma EmptyConsistent(e: Env)
    requires ValidEnv(e)
    ensures Consistent(e, EMPTY, {}, {})
  {
    assert Members(EMPTY, false, {}) == {} && Members(EMPTY, true, {}) == {};
    forall net, tried: bool ensures NetMembers(e, EMPTY, tried, {}, net) == {} {}
  }

  // ----- Deleting entries and clearing cells -----

  ghost function MoveToEnd(s: State, id: Id): State
    requires RandomOk(s) && id in s.info
  {
    SwapRandom(s, s.info[id].randomPos, |s.random| - 1)
  }

  predicate EndsWith(s: State, id: Id) {
    s.random != [] && s.random[|s.random| - 1] == id
  }

  lemma LandsAtEnd(s: State, id: Id)
    requires RandomOk(s) && id in s.info
    ensures EndsWith(MoveToEnd(s, id), id) && id in MoveToEnd(s, id).info
  {}

  lemma MoveToEndKeeps(e: Env, s: State, id: Id, limbo: set<Id>, skipped: set<Id>)
    requires Consistent(e, s, limbo, skipped) && id in s.info
    ensures Consistent(e, MoveToEnd(s, id), limbo, skipped)
  {
    SwapKeeps(e, s, s.info[id].randomPos, |s.random| - 1, limbo, skipped);
  }

  /** `Delete`. */
  ghost function Delete(e: Env, s: State, id: Id): State
    requires RandomOk(s) && id in s.info
  {
    LandsAtEnd(s, id);
    DropLast(e, MoveToEnd(s, id), id)
  }

  lemma DeleteKeeps(e: Env, s: State, id: Id, limbo: set<Id>, skipped: set<Id>)
    requires Consistent(e, s, limbo, skipped) && id in limbo && id !in skipped
    ensures Consistent(e, Delete(e, s, id), limbo - {id}, skipped)
  {
    LandsAtEnd(s, id);
    MoveToEndKeeps(e, s, id, limbo, skipped);
    DropLastKeeps(e, MoveToEnd(s, id), id, limbo, skipped);
  }

  /** What stays of entries other than `id` when it is deleted or loses cells. */
  ghost predicate OthersStay(s: State, t: State, id: Id) {
    && t.triedTable == s.triedTable && t.idCount == s.idCount && t.lastGood == s.lastGood && t.collisions == s.collisions
    && (forall x :: x in t.info ==> x in s.info)
    && (forall x :: x in s.info && x != id ==> x in t.info && Kept(s.info[x], t.info[x]))
  }

  lemma DeleteOthers(e: Env, s: State, id: Id)
    requires RandomOk(s) && id in s.info
    ensures OthersStay(s, Delete(e, s, id), id) && Delete(e, s, id).newTable == s.newTable && id !in Delete(e, s, id).info
  {
    LandsAtEnd(s, id);
  }

  /** `ClearNew`: empty a cell of the new table, and forget its entry if that was its last cell. */
  ghost function ClearNew(e: Env, s: State, c: Cell): State
    requires RandomOk(s) && (c in s.newTable ==> s.newTable[c] in s.info)
  {
    if c !in s.newTable then s
    else
      var id, t := s.newTable[c], DropRef(s, c);
      if t.info[id].refCount == 0 then KeepsRandom(s, t); Delete(e, t, id) else t
  }

  lemma KeepsRandom(s: State, t: State)
    requires RandomOk(s) && t.random == s.random && t.info.Keys == s.info.Keys
    requires forall id :: id in s.info ==> t.info[id].randomPos == s.info[id].randomPos
    ensures RandomOk(t)
  {
    assert forall id :: id in t.info <==> id in s.info;
  }

  lemma ClearNewKeeps(e: Env, s: State, c: Cell, limbo: set<Id>, skipped: set<Id>)
    requires Consistent(e, s, limbo, skipped)
    ensures Consistent(e, ClearNew(e, s, c), limbo, skipped)
  {
    if c in s.newTable {
      var id, t := s.newTable[c], DropRef(s, c);
      assert c in Refs(s.newTable, id);
      DropRefKeeps(e, s, c, limbo, skipped);
      if t.info[id].refCount == 0 {
        DeleteKeeps(e, t, id, limbo + {id}, skipped);
        AddAndTake(limbo, id);
      }
    }
  }

  lemma ClearNewOthers(e: Env, s: State, c: Cell)
    requires RandomOk(s) && (c in s.newTable ==> s.newTable[c] in s.info)
    ensures var t := ClearNew(e, s, c);
            && OthersStay(s, t, if c in s.newTable then s.newTable[c] else -1)
            && t.newTable == s.newTable - {c}
  {
    if c in s.newTable {
      var id, t := s.newTable[c], DropRef(s, c);
      KeepsRandom(s, t);
      if t.info[id].refCount == 0 {
        DeleteOthers(e, t, id);
      }
    }
  }

  // ----- Moving an entry to the tried table -----

  /** An entry on the move keeps everything but its place in the random order when a cell is cleared. */
  lemma ClearNewSpares(e: Env, s: State, c: Cell, id: Id, limbo: set<Id>, skipped: set<Id>)
    requires Consistent(e, s, limbo, skipped) && id in limbo
    ensures Consistent(e, ClearNew(e, s, c), limbo, skipped)
    ensures c !in ClearNew(e, s, c).newTable && ClearNew(e, s, c).triedTable == s.triedTable
    ensures id in ClearNew(e, s, c).info && Kept(s.info[id], ClearNew(e, s, c).info[id])
  {
    ClearNewKeeps(e, s, c, limbo, skipped);
    ClearNewOthers(e, s, c);
    assert c in s.newTable ==> c in Refs(s.newTable, s.newTable[c]);
  }

  /** The cell that an evicted entry goes back to. */
  function HomeCell(e: Env, i: Info): Cell
    requires ValidEnv(e)
  {
    NewCell(e, i.addr, i.source)
  }

  /** The eviction in `MakeTried`: the entry in a tried cell goes back to the new table, where it
      takes the cell of whatever is there. `id` is the entry that waits for the tried cell. */
  ghost function MakeRoom(e: Env, s: State, id: Id, c: Cell): State
    requires Consistent(e, s, {id}, {id}) && c in s.triedTable
  {
    var prior, t := s.triedTable[c], TakeTried(e, s, c);
    TakeTriedKeeps(e, s, c, {id}, {id});
    var home := HomeCell(e, s.info[prior]);
    ClearNewSpares(e, t, home, prior, {id} + {prior}, {id} + {prior});
    PlaceNew(e, ClearNew(e, t, home), prior, home)
  }

  /** Room is made: the cell is empty, the evicted entry is new with one reference, and the
      waiting entry is as it was. */
  lemma MakeRoomKeeps(e: Env, s: State, id: Id, c: Cell)
    requires Consistent(e, s, {id}, {id}) && c in s.triedTable
    ensures Consistent(e, MakeRoom(e, s, id, c), {id}, {id})
    ensures MakeRoom(e, s, id, c).triedTable == s.triedTable - {c}
    ensures id in MakeRoom(e, s, id, c).info && Kept(s.info[id], MakeRoom(e, s, id, c).info[id])
    ensures s.triedTable[c] in MakeRoom(e, s, id, c).info
    ensures Kept(s.info[s.triedTable[c]].(inTried := false, refCount := 1), MakeRoom(e, s, id, c).info[s.triedTable[c]])
  {
    var prior, t := s.triedTable[c], TakeTried(e, s, c);
    var m := {id} + {prior};
    TakeTriedKeeps(e, s, c, {id}, {id});
    var home := HomeCell(e, s.info[prior]);
    ClearNewSpares(e, t, home, prior, m, m);
    ClearNewSpares(e, t, home, id, m, m);
    PlaceEvicted(e, ClearNew(e, t, home), id, prior, home);
  }

  lemma PlaceEvicted(e: Env, s: State, id: Id, prior: Id, home: Cell)
    requires Consistent(e, s, {id} + {prior}, {id} + {prior}) && id != prior
    requires home !in s.newTable && Fits(e, s.info[prior].addr, home)
    ensures Consistent(e, PlaceNew(e, s, prior, home), {id}, {id})
  {
    PlaceNewKeeps(e, s, prior, home, {id} + {prior}, {id} + {prior});
    AddAndTake({id}, prior);
  }

  /** The same entry, perhaps at another place of the random order. */
  predicate Kept(i: Info, j: Info) {
    j == i.(randomPos := j.randomPos)
  }

  /** The same entry, perhaps with other cells. */
  predicate Moved(i: Info, j: Info) {
    j == i.(refCount := j.refCount, inTried := j.inTried, randomPos := j.randomPos)
  }

  /** The second half of `MakeTried`: an entry that has left the new table enters its tried cell. */
  ghost function JoinTried(e: Env, s: State, id: Id): State
    requires Consistent(e, s, {id}, {id})
  {
    var c := TriedCell(e, s.info[id].addr);
    if c in s.triedTable then MakeRoomKeeps(e, s, id, c); PlaceTried(e, MakeRoom(e, s, id, c), id, c)
    else PlaceTried(e, s, id, c)
  }

  /** `MakeTried`. */
  ghost function MakeTried(e: Env, s: State, id: Id): State
    requires Consistent(e, s, {}, {}) && id in s.info && !s.info[id].inTried
  {
    LeaveNew(e, s, id);
    JoinTried(e, UncountNew(e, DropNew(s, id), id), id)
  }

  lemma LeaveNew(e: Env, s: State, id: Id)
    requires Consistent(e, s, {}, {}) && id in s.info && !s.info[id].inTried
    ensures Consistent(e, UncountNew(e, DropNew(s, id), id), {id}, {id})
  {
    DropNewKeeps(e, s, id, {}, {});
    AddToNone(id);
    UncountKeeps(e, DropNew(s, id), id, {id}, {});
  }

  lemma MakeTriedKeeps(e: Env, s: State, id: Id)
    requires Consistent(e, s, {}, {}) && id in s.info && !s.info[id].inTried && s.info[id].lastSuccess > 0
    ensures Consistent(e, MakeTried(e, s, id), {}, {})
  {
    var t := UncountNew(e, DropNew(s, id), id);
    LeaveNew(e, s, id);
    var c := TriedCell(e, s.info[id].addr);
    AddToNone(id);
    if c in t.triedTable {
      MakeRoomKeeps(e, t, id, c);
      PlaceTriedKeeps(e, MakeRoom(e, t, id, c), id, {id}, {id});
    } else {
      PlaceTriedKeeps(e, t, id, {id}, {id});
    }
  }

  /** No entry but one leaves the tried table, and entries change in their cells only. */
  ghost predicate TriedStay(s: State, t: State, except: Id) {
    && t.idCount == s.idCount && t.lastGood == s.lastGood && t.collisions == s.collisions
    && (forall x :: x in t.info ==> x in s.info && Moved(s.info[x], t.info[x]))
    && (forall x :: x in s.info && s.info[x].inTried && x != except ==> x in t.info && Kept(s.info[x], t.info[x]))
  }

  lemma StayStep(s: State, t: State, u: State, except: Id, x: Id)
    requires TriedStay(s, t, except) && TriedStay(t, u, x)
    requires x == except || (x in s.info ==> !s.info[x].inTried)
    ensures TriedStay(s, u, except)
  {}

  lemma ClearNewTried(e: Env, s: State, c: Cell, limbo: set<Id>, skipped: set<Id>)
    requires Consistent(e, s, limbo, skipped)
    ensures TriedStay(s, ClearNew(e, s, c), -1)
  {
    ClearNewOthers(e, s, c);
    if c in s.newTable {
      if s.newTable[c] in ClearNew(e, s, c).info {
        ClearNewSame(e, s, c);
      }
      OthersAreTried(s, ClearNew(e, s, c), s.newTable[c]);
    } else {
      OthersAreTried(s, s, -1);
    }
  }

  lemma OthersAreTried(s: State, t: State, id: Id)
    requires OthersStay(s, t, id) && (id in s.info ==> !s.info[id].inTried)
    requires id in t.info ==> id in s.info && Moved(s.info[id], t.info[id])
    ensures TriedStay(s, t, -1)
  {
    forall x | x in t.info && x != id ensures Moved(s.info[x], t.info[x]) {
      assert Kept(s.info[x], t.info[x]);
    }
  }

  lemma ClearNewSame(e: Env, s: State, c: Cell)
    requires RandomOk(s) && c in s.newTable && s.newTable[c] in s.info && s.newTable[c] in ClearNew(e, s, c).info
    ensures Moved(s.info[s.newTable[c]], ClearNew(e, s, c).info[s.newTable[c]])
  {
    var t, id := DropRef(s, c), s.newTable[c];
    KeepsRandom(s, t);
    if t.info[id].refCount == 0 {
      DeleteOthers(e, t, id);
    }
  }

  lemma TakeTriedStay(e: Env, s: State, c: Cell)
    requires c in s.triedTable && s.triedTable[c] in s.info
    ensures TriedStay(s, TakeTried(e, s, c), s.triedTable[c])
  {}

  lemma PlaceNewStay(e: Env, s: State, id: Id, c: Cell)
    requires id in s.info
    ensures TriedStay(s, PlaceNew(e, s, id, c), id)
  {}

  lemma PlaceTriedStay(e: Env, s: State, id: Id, c: Cell)
    requires id in s.info
    ensures TriedStay(s, PlaceTried(e, s, id, c), id)
  {}

  lemma LeaveNewStay(e: Env, s: State, id: Id)
    requires id in s.info && !s.info[id].inTried
    ensures TriedStay(s, UncountNew(e, DropNew(s, id), id), -1)
  {}

  lemma MakeRoomTried(e: Env, s: State, id: Id, c: Cell)
    requires Consistent(e, s, {id}, {id}) && c in s.triedTable
    ensures TriedStay(s, MakeRoom(e, s, id, c), s.triedTable[c])
  {
    var prior, t, m := s.triedTable[c], TakeTried(e, s, c), {id} + {s.triedTable[c]};
    TakeTriedKeeps(e, s, c, {id}, {id});
    var home := HomeCell(e, s.info[prior]);
    ClearNewSpares(e, t, home, prior, m, m);
    var u := ClearNew(e, t, home);
    ClearNewTried(e, t, home, m, m);
    TakeTriedStay(e, s, c);
    StayStep(s, t, u, prior, -1);
    PlaceNewStay(e, u, prior, home);
    StayStep(s, u, PlaceNew(e, u, prior, home), prior, prior);
  }

  /** The tried table gains the entry and nothing else changes in it but the cell's former entry,
      which is new again with one reference. */
  lemma MakeTriedEffect(e: Env, s: State, id: Id)
    requires Consistent(e, s, {}, {}) && id in s.info && !s.info[id].inTried
    ensures var t, c := MakeTried(e, s, id), TriedCell(e, s.info[id].addr);
            && t.triedTable == s.triedTable[c := id]
            && id in t.info && Kept(s.info[id].(inTried := true, refCount := 0), t.info[id])
            && (c in s.triedTable ==>
                  var p := s.triedTable[c];
                  p in t.info && Kept(s.info[p].(inTried := false, refCount := 1), t.info[p]))
  {
    var t := UncountNew(e, DropNew(s, id), id);
    LeaveNew(e, s, id);
    var c := TriedCell(e, s.info[id].addr);
    if c in t.triedTable {
      MakeRoomKeeps(e, t, id, c);
      Replaced(s.triedTable, c, id);
    }
  }

  lemma Replaced(table: map<Cell, Id>, c: Cell, id: Id)
    ensures (table - {c})[c := id] == table[c := id]
  {}

  lemma MakeTriedStay(e: Env, s: State, id: Id)
    requires Consistent(e, s, {}, {}) && id in s.info && !s.info[id].inTried
    ensures var c := TriedCell(e, s.info[id].addr);
            TriedStay(s, MakeTried(e, s, id), if c in s.triedTable then s.triedTable[c] else -1)
  {
    var t := UncountNew(e, DropNew(s, id), id);
    LeaveNew(e, s, id);
    var c := TriedCell(e, s.info[id].addr);
    LeaveNewStay(e, s, id);
    if c in t.triedTable {
      var u := MakeRoom(e, t, id, c);
      MakeRoomKeeps(e, t, id, c);
      MakeRoomTried(e, t, id, c);
      StayStep(s, t, u, s.triedTable[c], s.triedTable[c]);
      PlaceTriedStay(e, u, id, c);
      StayStep(s, u, PlaceTried(e, u, id, c), s.triedTable[c], id);
    } else {
      PlaceTriedStay(e, t, id, c);
      StayStep(s, t, PlaceTried(e, t, id, c), -1, id);
    }
  }

  // ----- Who is forgotten -----

  /** The entry has no cell but c. */
  ghost predicate OnlyAt(s: State, c: Cell, x: Id) {
    x in s.info && c in s.newTable && s.newTable[c] == x && s.info[x].refCount == 1
  }

  lemma ClearNewForgets(e: Env, s: State, c: Cell, limbo: set<Id>, skipped: set<Id>, x: Id)
    requires Consistent(e, s, limbo, skipped) && x in s.info
    ensures x in ClearNew(e, s, c).info <==> !OnlyAt(s, c, x)
  {
    ClearNewOthers(e, s, c);
    if c in s.newTable && s.newTable[c] == x {
      var t := DropRef(s, c);
      KeepsRandom(s, t);
      if t.info[x].refCount == 0 { DeleteOthers(e, t, x); }
    }
  }

  lemma MakeRoomForgets(e: Env, s: State, id: Id, c: Cell, x: Id)
    requires Consistent(e, s, {id}, {id}) && c in s.triedTable && x in s.info
    ensures x in MakeRoom(e, s, id, c).info <==> !OnlyAt(s, HomeCell(e, s.info[s.triedTable[c]]), x)
  {
    var prior, t, m := s.triedTable[c], TakeTried(e, s, c), {id} + {s.triedTable[c]};
    TakeTriedKeeps(e, s, c, {id}, {id});
    var home := HomeCell(e, s.info[prior]);
    ClearNewSpares(e, t, home, prior, m, m);
    ClearNewForgets(e, t, home, m, m, x);
  }

  /** Moving an entry to the tried table forgets another one exactly if an entry is evicted to the
      other's only cell. */
  lemma MakeTriedForgets(e: Env, s: State, id: Id, x: Id)
    requires Consistent(e, s, {}, {}) && id in s.info && !s.info[id].inTried && x in s.info
    ensures var c := TriedCell(e, s.info[id].addr);
            x !in MakeTried(e, s, id).info <==>
              x != id && c in s.triedTable && OnlyAt(s, HomeCell(e, s.info[s.triedTable[c]]), x)
  {
    var t := UncountNew(e, DropNew(s, id), id);
    LeaveNew(e, s, id);
    var c := TriedCell(e, s.info[id].addr);
    if c in t.triedTable {
      MakeRoomKeeps(e, t, id, c);
      MakeRoomForgets(e, t, id, c, x);
    }
  }

  lemma MakeRoomOthers(e: Env, s: State, id: Id, c: Cell, x: Id)
    requires Consistent(e, s, {id}, {id}) && c in s.triedTable && x in s.info && x != s.triedTable[c]
    ensures var home := HomeCell(e, s.info[s.triedTable[c]]);
            && MakeRoom(e, s, id, c).newTable == s.newTable[home := s.triedTable[c]]
            && (!(home in s.newTable && s.newTable[home] == x) ==>
                  x in MakeRoom(e, s, id, c).info && Kept(s.info[x], MakeRoom(e, s, id, c).info[x]))
  {
    var prior, t, m := s.triedTable[c], TakeTried(e, s, c), {id} + {s.triedTable[c]};
    TakeTriedKeeps(e, s, c, {id}, {id});
    var home := HomeCell(e, s.info[prior]);
    ClearNewSpares(e, t, home, prior, m, m);
    ClearNewOthers(e, t, home);
    Replaced(s.newTable, home, prior);
  }

  /** The entry has one cell, which is the one that eviction puts it in. */
  ghost predicate AtHome(e: Env, s: State, x: Id)
    requires ValidEnv(e)
  {
    x in s.info && !s.info[x].inTried && OnlyAt(s, HomeCell(e, s.info[x]), x)
  }

  /** No other cell holds an entry that is at home. */
  lemma HomesApart(e: Env, s: State, limbo: set<Id>, skipped: set<Id>, home: Cell, x: Id)
    requires Consistent(e, s, limbo, skipped) && AtHome(e, s, x) && home != HomeCell(e, s.info[x])
    ensures !(home in s.newTable && s.newTable[home] == x)
  {
    if home in s.newTable && s.newTable[home] == x {
      OneCell(s.newTable, x, HomeCell(e, s.info[x]), home);
    }
  }

  lemma MakeRoomHomes(e: Env, s: State, id: Id, c: Cell, x: Id)
    requires Consistent(e, s, {id}, {id}) && c in s.triedTable && AtHome(e, s, x)
    requires HomeCell(e, s.info[s.triedTable[c]]) != HomeCell(e, s.info[x])
    ensures AtHome(e, MakeRoom(e, s, id, c), x)
  {
    HomesApart(e, s, {id}, {id}, HomeCell(e, s.info[s.triedTable[c]]), x);
    MakeRoomOthers(e, s, id, c, x);
  }

  lemma LeaveNewHomes(e: Env, s: State, id: Id, x: Id)
    requires ValidEnv(e) && id in s.info && AtHome(e, s, x) && x != id
    ensures AtHome(e, UncountNew(e, DropNew(s, id), id), x)
  {}

  lemma PlaceTriedHomes(e: Env, s: State, id: Id, c: Cell, x: Id)
    requires ValidEnv(e) && id in s.info && AtHome(e, s, x) && x != id
    ensures AtHome(e, PlaceTried(e, s, id, c), x)
  {}

  /** An evicted entry is at home, and stays there until another one with the same home is evicted. */
  lemma MakeTriedHomes(e: Env, s: State, id: Id, x: Id)
    requires Consistent(e, s, {}, {}) && id in s.info && !s.info[id].inTried && AtHome(e, s, x) && x != id
    ensures var c := TriedCell(e, s.info[id].addr);
            if c in s.triedTable && HomeCell(e, s.info[s.triedTable[c]]) == HomeCell(e, s.info[x]) then x !in MakeTried(e, s, id).info
            else AtHome(e, MakeTried(e, s, id), x)
  {
    var t, c := UncountNew(e, DropNew(s, id), id), TriedCell(e, s.info[id].addr);
    LeaveNew(e, s, id);
    LeaveNewHomes(e, s, id, x);
    if c !in t.triedTable {
      PlaceTriedHomes(e, t, id, c, x);
    } else if HomeCell(e, s.info[s.triedTable[c]]) == HomeCell(e, s.info[x]) {
      MakeTriedForgets(e, s, id, x);
    } else {
      MakeRoomKeeps(e, t, id, c);
      MakeRoomHomes(e, t, id, c, x);
      PlaceTriedHomes(e, MakeRoom(e, t, id, c), id, c, x);
    }
  }

  /** An entry with two cells has at least two references. */
  lemma OneCell(table: map<Cell, Id>, x: Id, c: Cell, d: Cell)
    requires c in table && d in table && table[c] == x && table[d] == x && c != d
    ensures |Refs(table, x)| > 1
  {
    assert {c, d} <= Refs(table, x);
    assert Refs(table, x) == {c, d} + (Refs(table, x) - {c, d});
  }

  /** An evicted entry comes home. */
  lemma EvictedHome(e: Env, s: State, id: Id)
    requires Consistent(e, s, {}, {}) && id in s.info && !s.info[id].inTried && TriedCell(e, s.info[id].addr) in s.triedTable
    ensures AtHome(e, MakeTried(e, s, id), s.triedTable[TriedCell(e, s.info[id].addr)])
  {
    var t := UncountNew(e, DropNew(s, id), id);
    LeaveNew(e, s, id);
    MakeTriedEffect(e, s, id);
    var c := TriedCell(e, s.info[id].addr);
    MakeRoomKeeps(e, t, id, c);
    MakeRoomOthers(e, t, id, c, id);
  }

  // ----- The operations -----

  /** An address as it is announced. */
  datatype Address = Address(service: Service, services: set<nat>, time: int)

  function Max(a: int, b: int): int { if a >= b then a else b }

  predicate IsTerrible(i: Info, now: int) {
    if now - i.lastTry <= MINUTE then false
    else
      || i.time > now + 10 * MINUTE
      || now - i.time > HORIZON
      || (i.lastSuccess == 0 && i.attempts >= RETRIES)
      || (now - i.lastSuccess > MIN_FAIL && i.attempts >= MAX_FAILURES)
  }

  /** What `AddSingle` learns about a known entry. */
  function Refreshed(i: Info, a: Address, penalty: int, now: int): Info {
    var interval := if now - a.time < DAY then HOUR else DAY;
    var time := if i.time < a.time - interval - penalty then Max(0, a.time - penalty) else i.time;
    i.(time := time, services := i.services + a.services)
  }

  /** The end of `AddSingle`: give the entry a reference in the cell for this source, if it is free
      or its entry is worth less. */
  ghost function Insert(e: Env, s: State, id: Id, source: Host, now: int): (State, bool)
    requires RandomOk(s) && ValidEnv(e) && id in s.info && forall c :: c in s.newTable ==> s.newTable[c] in s.info
  {
    var c := NewCell(e, s.info[id].addr, source);
    if c in s.newTable && s.newTable[c] == id then (s, false)
    else if c !in s.newTable || IsTerrible(s.info[s.newTable[c]], now)
            || (s.info[s.newTable[c]].refCount > 1 && s.info[id].refCount == 0)
    then ClearNewOthers(e, s, c); (AddRef(ClearNew(e, s, c), id, c), true)
    else if s.info[id].refCount == 0 then (Delete(e, s, id), false)
    else (s, false)
  }

  lemma InsertKeeps(e: Env, s: State, id: Id, source: Host, now: int, limbo: set<Id>)
    requires Consistent(e, s, limbo, {}) && id in s.info && !s.info[id].inTried && limbo <= {id}
    requires s.info[id].refCount < MAX_REFS
    ensures Consistent(e, Insert(e, s, id, source, now).0, {}, {})
  {
    var c := NewCell(e, s.info[id].addr, source);
    TakeOnly(limbo, id);
    if c in s.newTable && s.newTable[c] == id {
      assert c in Refs(s.newTable, id);
    } else if Insert(e, s, id, source, now).1 {
      ClearNewKeeps(e, s, c, limbo, {});
      ClearNewOthers(e, s, c);
      AddRefKeeps(e, ClearNew(e, s, c), id, c, limbo, {});
    } else if s.info[id].refCount == 0 {
      DeleteKeeps(e, s, id, limbo, {});
    }
  }
}
