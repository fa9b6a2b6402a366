/** The address manager itself: indexes, bucket tables and counters that its methods update in place.
    Each method is proved to have the effect of the corresponding function on states. */
module AddrMan {
  import opened Collections
  import opened AddrManState
  import opened AddrManSpec
  import opened AddrManOps
  import opened AddrManRuns

  const EMPTY_CELL: Id := -1

  /** A bucket table and what it holds. */
  ghost predicate Holds(a: array2<Id>, table: map<Cell, Id>)
    reads a
  {
    && (forall c :: c in table ==> c.bucket < a.Length0 && c.pos < a.Length1 && a[c.bucket, c.pos] == table[c])
    && (forall b: nat, p: nat :: b < a.Length0 && p < a.Length1 ==>
          (Cell(b, p) in table <==> a[b, p] != EMPTY_CELL))
  }

  /** `(start + n) % buckets`, the n-th bucket of a scan that starts at `start`. */
  function ScanBucket(start: nat, n: nat, buckets: nat): (b: nat)
    requires start < buckets && n < buckets
    ensures b < buckets && Offset(start, b, buckets) == n
  {
    if start + n < buckets then start + n else start + n - buckets
  }

  /** The step of the scan that visits a bucket. */
  function Offset(start: nat, b: nat, buckets: nat): nat
    requires start < buckets && b < buckets
  {
    if b >= start then b - start else b + buckets - start
  }

  /** Some cells of id have been emptied, no others. */
  ghost predicate Thinned(before: map<Cell, Id>, after: map<Cell, Id>, id: Id) {
    && (forall c :: c in after ==> c in before && after[c] == before[c])
    && (forall c :: c in before && c !in after ==> before[c] == id)
  }

  /** A cell of the new table belongs to an entry that is not tried and counts the cell. */
  lemma CellOwner(e: Env, s: State, c: Cell, limbo: set<Id>)
    requires ValidEnv(e) && NewOk(e, s, limbo) && c in s.newTable
    ensures s.newTable[c] in s.info && !s.info[s.newTable[c]].inTried && s.info[s.newTable[c]].refCount > 0
  {
    assert c in Refs(s.newTable, s.newTable[c]);
  }

  /** The scan has emptied the cells of id in the first n buckets. */
  ghost predicate Scanned(e: Env, s: State, info: map<Id, Info>, table: map<Cell, Id>, id: Id, i: Info, start: nat, n: nat) {
    && start < e.newBuckets
    && info == s.info[id := i.(refCount := |Refs(table, id)|)]
    && Thinned(s.newTable, table, id)
    && forall c :: c in table && table[c] == id ==> c.bucket < e.newBuckets && Offset(start, c.bucket, e.newBuckets) >= n
  }

  lemma ScanStarts(e: Env, s: State, id: Id, i: Info, start: nat)
    requires ValidEnv(e) && NewOk(e, s, {}) && id in s.info && i == s.info[id] && start < e.newBuckets
    ensures Scanned(e, s, s.info, s.newTable, id, i, start, 0)
  {
    assert s.info == s.info[id := i.(refCount := |Refs(s.newTable, id)|)];
  }

  lemma ScanStep(e: Env, s: State, info: map<Id, Info>, table: map<Cell, Id>, id: Id, i: Info, start: nat, n: nat)
    requires ValidEnv(e) && NewOk(e, s, {}) && id in s.info && i == s.info[id]
    requires Scanned(e, s, info, table, id, i, start, n) && n < e.newBuckets
    ensures var b := ScanBucket(start, n, e.newBuckets);
            var c := Cell(b, Position(e, i.addr, true, b));
            if c in table && table[c] == id
            then Scanned(e, s, info[id := info[id].(refCount := info[id].refCount - 1)], table - {c}, id, i, start, n + 1)
            else Scanned(e, s, info, table, id, i, start, n + 1)
  {
    var b := ScanBucket(start, n, e.newBuckets);
    var c := Cell(b, Position(e, i.addr, true, b));
    forall d | d in table && table[d] == id && d != c ensures Offset(start, d.bucket, e.newBuckets) >= n + 1 {
      assert s.newTable[d] == id;
    }
    if c in table && table[c] == id {
      RefsRemoved(table, c, id);
      UpdateTwice(s.info, id, info[id], info[id].(refCount := info[id].refCount - 1));
    }
  }

  lemma ScanEnds(e: Env, s: State, info: map<Id, Info>, table: map<Cell, Id>, id: Id, i: Info, start: nat, n: nat)
    requires ValidEnv(e) && id in s.info && i == s.info[id]
    requires Scanned(e, s, info, table, id, i, start, n) && (n == e.newBuckets || info[id].refCount == 0)
    ensures info == DropNew(s, id).info && table == DropNew(s, id).newTable
  {
    assert forall c :: c in table && table[c] == id ==> c in Refs(table, id);
    assert Refs(table, id) == {};
  }

  class AddrManImpl {
    const env: Env
    var mapInfo: map<Id, Info>
    var mapAddr: map<Service, Id>
    var vRandom: seq<Id>
    const vvNew: array2<Id>
    const vvTried: array2<Id>
    var nNew: int
    var nTried: int
    var networkCounts: map<Network, Count>
    var nIdCount: int
    var lastGood: int
    var triedCollisions: seq<Id>

    ghost var newTable: map<Cell, Id>
    ghost var triedTable: map<Cell, Id>

    ghost predicate Valid()
      reads this`newTable, this`triedTable, vvNew, vvTried
    {
      && ValidEnv(env) && vvNew != vvTried
      && vvNew.Length0 == env.newBuckets && vvNew.Length1 == env.bucketSize && Holds(vvNew, newTable)
      && vvTried.Length0 == env.triedBuckets && vvTried.Length1 == env.bucketSize && Holds(vvTried, triedTable)
    }

    ghost function Abs(): State
      reads this
    {
      State(mapInfo, mapAddr, vRandom, newTable, triedTable, nNew, nTried, networkCounts, nIdCount, lastGood, triedCollisions)
    }

    constructor (e: Env)
      requires ValidEnv(e)
      ensures Valid() && env == e && Abs() == EMPTY && fresh(vvNew) && fresh(vvTried)
    {
      env := e;
      mapInfo, mapAddr, vRandom, networkCounts, triedCollisions := map[], map[], [], map[], [];
      nNew, nTried, nIdCount, lastGood := 0, 0, 0, 1;
      vvNew := new Id[e.newBuckets, e.bucketSize]((_, _) => EMPTY_CELL);
      vvTried := new Id[e.triedBuckets, e.bucketSize]((_, _) => EMPTY_CELL);
      newTable, triedTable := map[], map[];
    }

    // Writing single cells.

    method SetNew(c: Cell, id: Id)
      requires Valid() && c.bucket < env.newBuckets && c.pos < env.bucketSize && id != EMPTY_CELL
      modifies this`newTable, vvNew
      ensures Valid() && newTable == old(newTable)[c := id]
    {
      vvNew[c.bucket, c.pos] := id;
      newTable := newTable[c := id];
    }

    method EmptyNew(c: Cell)
      requires Valid() && c.bucket < env.newBuckets && c.pos < env.bucketSize
      modifies this`newTable, vvNew
      ensures Valid() && newTable == old(newTable) - {c}
    {
      vvNew[c.bucket, c.pos] := EMPTY_CELL;
      newTable := newTable - {c};
    }

    method SetTried(c: Cell, id: Id)
      requires Valid() && c.bucket < env.triedBuckets && c.pos < env.bucketSize && id != EMPTY_CELL
      modifies this`triedTable, vvTried
      ensures Valid() && triedTable == old(triedTable)[c := id]
    {
      vvTried[c.bucket, c.pos] := id;
      triedTable := triedTable[c := id];
    }

    method EmptyTried(c: Cell)
      requires Valid() && c.bucket < env.triedBuckets && c.pos < env.bucketSize
      modifies this`triedTable, vvTried
      ensures Valid() && triedTable == old(triedTable) - {c}
    {
      vvTried[c.bucket, c.pos] := EMPTY_CELL;
      triedTable := triedTable - {c};
    }

    // Entries.

    method Find(addr: Service) returns (found: bool, id: Id)
      requires AddrOk(Abs())
      ensures found <==> addr in mapAddr
      ensures found ==> id == mapAddr[addr] && id in mapInfo
    {
      if addr !in mapAddr { return false, EMPTY_CELL; }
      return true, mapAddr[addr];
    }

    method Create(addr: Service, services: set<nat>, time: int, source: Host) returns (id: Id)
      modifies `mapInfo, `mapAddr, `vRandom, `nNew, `networkCounts, `nIdCount
      ensures id == old(nIdCount) && Abs() == AddrManState.Create(env, old(Abs()), addr, services, time, source)
    {
      id := nIdCount;
      nIdCount := nIdCount + 1;
      var info := Info(addr, services, time, source, 0, 0, 0, 0, 0, false, -1);
      mapInfo := mapInfo[id := info];
      mapAddr := mapAddr[addr := id];
      mapInfo := mapInfo[id := info.(randomPos := |vRandom|)];
      UpdateTwice(old(mapInfo), id, info, info.(randomPos := |vRandom|));
      vRandom := vRandom + [id];
      nNew := nNew + 1;
      networkCounts := AddCount(networkCounts, env.network(addr.host), 1, 0);
    }

    method SwapRandom(i: nat, j: nat)
      requires RandomOk(Abs()) && i < |vRandom| && j < |vRandom|
      modifies `mapInfo, `vRandom
      ensures Abs() == AddrManState.SwapRandom(old(Abs()), i, j)
    {
      if i == j { return; }
      var id1, id2 := vRandom[i], vRandom[j];
      assert id1 in mapInfo && id2 in mapInfo;
      mapInfo := mapInfo[id1 := mapInfo[id1].(randomPos := j)];
      mapInfo := mapInfo[id2 := mapInfo[id2].(randomPos := i)];
      vRandom := vRandom[i := id2];
      vRandom := vRandom[j := id1];
    }

    method Delete(id: Id)
      requires RandomOk(Abs()) && id in mapInfo && !mapInfo[id].inTried && mapInfo[id].refCount == 0
      modifies `mapInfo, `mapAddr, `vRandom, `nNew, `networkCounts
      ensures Abs() == AddrManSpec.Delete(env, old(Abs()), id)
    {
      LandsAtEnd(Abs(), id);
      SwapRandom(mapInfo[id].randomPos, |vRandom| - 1);
      Forget(id);
    }

    /** The second half of `Delete`. */
    method Forget(id: Id)
      requires id in mapInfo && vRandom != []
      modifies `mapInfo, `mapAddr, `vRandom, `nNew, `networkCounts
      ensures Abs() == DropLast(env, old(Abs()), id)
    {
      var info := mapInfo[id];
      networkCounts := AddCount(networkCounts, env.network(info.addr.host), -1, 0);
      vRandom := vRandom[..|vRandom| - 1];
      mapAddr := mapAddr - {info.addr};
      mapInfo := mapInfo - {id};
      nNew := nNew - 1;
    }

    // Cells.

    method ClearNew(c: Cell, ghost limbo: set<Id>, ghost skipped: set<Id>)
      requires Valid() && Consistent(env, Abs(), limbo, skipped) && c.bucket < env.newBuckets && c.pos < env.bucketSize
      modifies `mapInfo, `mapAddr, `vRandom, `nNew, `networkCounts, `newTable, vvNew
      ensures Valid() && Abs() == AddrManSpec.ClearNew(env, old(Abs()), c)
    {
      var id := ReadNew(c);
      if id != EMPTY_CELL {
        CellOwner(env, Abs(), c, limbo);
        assert mapInfo[id].refCount > 0;
        TakeRef(c, id);
        if mapInfo[id].refCount == 0 {
          KeepsRandom(old(Abs()), Abs());
          Delete(id);
        }
      }
    }

    method ReadNew(c: Cell) returns (id: Id)
      requires Valid() && c.bucket < env.newBuckets && c.pos < env.bucketSize
      ensures id != EMPTY_CELL <==> c in newTable
      ensures c in newTable ==> id == newTable[c]
    {
      assert Cell(c.bucket, c.pos) == c;
      id := vvNew[c.bucket, c.pos];
    }

    method TakeRef(c: Cell, id: Id)
      requires Valid() && c in newTable && newTable[c] == id && id in mapInfo
      modifies `mapInfo, `newTable, vvNew
      ensures Valid() && Abs() == DropRef(old(Abs()), c)
    {
      mapInfo := mapInfo[id := mapInfo[id].(refCount := mapInfo[id].refCount - 1)];
      EmptyNew(c);
    }

    /** The scan in `MakeTried` over all new buckets, from the one that the entry's source leads to;
        it stops when no reference is left, which happens in every case. */
    method LeaveNewTable(id: Id)
      requires Valid() && Consistent(env, Abs(), {}, {}) && id in mapInfo && !mapInfo[id].inTried
      modifies `mapInfo, `newTable, vvNew
      ensures Valid() && Abs() == DropNew(old(Abs()), id)
    {
      ghost var s := Abs();
      var info := mapInfo[id];
      var start := NewBucket(env, info.addr, info.source);
      ScanStarts(env, s, id, info, start);
      var n := 0;
      while n < env.newBuckets
        invariant n <= env.newBuckets && Valid() && Scanned(env, s, mapInfo, newTable, id, info, start, n)
      {
        var done := VisitBucket(id, info, start, n, s);
        n := n + 1;
        if done { break; }
      }
      ScanEnds(env, s, mapInfo, newTable, id, info, start, n);
    }

    /** One iteration of the scan. */
    method VisitBucket(id: Id, info: Info, start: nat, n: nat, ghost s: State) returns (done: bool)
      requires Valid() && NewOk(env, s, {}) && id in s.info && info == s.info[id] && n < env.newBuckets && id >= 0
      requires Scanned(env, s, mapInfo, newTable, id, info, start, n)
      modifies `mapInfo, `newTable, vvNew
      ensures Valid() && Scanned(env, s, mapInfo, newTable, id, info, start, n + 1)
      ensures done ==> mapInfo[id].refCount == 0
    {
      var bucket := ScanBucket(start, n, env.newBuckets);
      var c := Cell(bucket, Position(env, info.addr, true, bucket));
      var found := ReadNew(c);
      ScanStep(env, s, mapInfo, newTable, id, info, start, n);
      if found == id {
        TakeRef(c, id);
        done := mapInfo[id].refCount == 0;
      } else {
        done := false;
      }
    }

    method ReadTried(c: Cell) returns (id: Id)
      requires Valid() && c.bucket < env.triedBuckets && c.pos < env.bucketSize
      ensures id != EMPTY_CELL <==> c in triedTable
      ensures c in triedTable ==> id == triedTable[c]
    {
      assert Cell(c.bucket, c.pos) == c;
      id := vvTried[c.bucket, c.pos];
    }

    method LeaveTried(c: Cell, id: Id)
      requires Valid() && c in triedTable && triedTable[c] == id && id in mapInfo
      modifies `mapInfo, `nTried, `networkCounts, `triedTable, vvTried
      ensures Valid() && Abs() == TakeTried(env, old(Abs()), c)
    {
      var net := env.network(mapInfo[id].addr.host);
      mapInfo := mapInfo[id := mapInfo[id].(inTried := false)];
      EmptyTried(c);
      nTried := nTried - 1;
      networkCounts := AddCount(networkCounts, net, 0, -1);
    }

    method EnterNew(id: Id, c: Cell)
      requires Valid() && c.bucket < env.newBuckets && c.pos < env.bucketSize && id in mapInfo && id != EMPTY_CELL
      modifies `mapInfo, `nNew, `networkCounts, `newTable, vvNew
      ensures Valid() && Abs() == PlaceNew(env, old(Abs()), id, c)
    {
      var net := env.network(mapInfo[id].addr.host);
      mapInfo := mapInfo[id := mapInfo[id].(refCount := 1)];
      SetNew(c, id);
      nNew := nNew + 1;
      networkCounts := AddCount(networkCounts, net, 1, 0);
    }

    method EnterTried(id: Id, c: Cell)
      requires Valid() && c.bucket < env.triedBuckets && c.pos < env.bucketSize && id in mapInfo && id != EMPTY_CELL
      modifies `mapInfo, `nTried, `networkCounts, `triedTable, vvTried
      ensures Valid() && Abs() == PlaceTried(env, old(Abs()), id, c)
    {
      var net := env.network(mapInfo[id].addr.host);
      SetTried(c, id);
      nTried := nTried + 1;
      mapInfo := mapInfo[id := mapInfo[id].(inTried := true)];
      networkCounts := AddCount(networkCounts, net, 0, 1);
    }

    /** The eviction in `MakeTried`. */
    method Evict(id: Id, c: Cell)
      requires Valid() && Consistent(env, Abs(), {id}, {id}) && c in triedTable
      modifies this, vvNew, vvTried
      ensures Valid() && Abs() == MakeRoom(env, old(Abs()), id, c)
    {
      var prior := ReadTried(c);
      assert prior in mapInfo;
      TakeTriedKeeps(env, Abs(), c, {id}, {id});
      LeaveTried(c, prior);
      var home := HomeCell(env, mapInfo[prior]);
      ClearNewSpares(env, Abs(), home, prior, {id} + {prior}, {id} + {prior});
      ClearNew(home, {id} + {prior}, {id} + {prior});
      assert home !in newTable;
      EnterNew(prior, home);
    }

    /** The second half of `MakeTried`. */
    method EnterTriedTable(id: Id)
      requires Valid() && Consistent(env, Abs(), {id}, {id})
      modifies this, vvNew, vvTried
      ensures Valid() && Abs() == JoinTried(env, old(Abs()), id)
    {
      var c := TriedCell(env, mapInfo[id].addr);
      var occupant := ReadTried(c);
      if occupant != EMPTY_CELL {
        MakeRoomKeeps(env, Abs(), id, c);
        Evict(id, c);
      }
      assert c !in triedTable;
      EnterTried(id, c);
    }

    method UncountEntry(id: Id)
      requires id in mapInfo
      modifies `nNew, `networkCounts
      ensures Abs() == UncountNew(env, old(Abs()), id)
    {
      nNew := nNew - 1;
      networkCounts := AddCount(networkCounts, env.network(mapInfo[id].addr.host), -1, 0);
    }

    /** The first half of `MakeTried`: no reference to the entry is left in the new table. */
    method LeaveNewSet(id: Id)
      requires Valid() && Consistent(env, Abs(), {}, {}) && id in mapInfo && !mapInfo[id].inTried
      modifies `mapInfo, `nNew, `networkCounts, `newTable, vvNew
      ensures Valid() && Abs() == UncountNew(env, DropNew(old(Abs()), id), id)
    {
      LeaveNewTable(id);
      assert mapInfo[id].refCount == 0;
      UncountEntry(id);
    }

    method MakeTried(id: Id)
      requires Valid() && Consistent(env, Abs(), {}, {}) && id in mapInfo && !mapInfo[id].inTried
      modifies this, vvNew, vvTried
      ensures Valid() && Abs() == AddrManSpec.MakeTried(env, old(Abs()), id)
    {
      LeaveNew(env, Abs(), id);
      LeaveNewSet(id);
      EnterTriedTable(id);
    }

    // Operations.

    method GiveRef(id: Id, c: Cell)
      requires Valid() && c.bucket < env.newBuckets && c.pos < env.bucketSize && id in mapInfo && id != EMPTY_CELL
      modifies `mapInfo, `newTable, vvNew
      ensures Valid() && Abs() == AddRef(old(Abs()), id, c)
    {
      mapInfo := mapInfo[id := mapInfo[id].(refCount := mapInfo[id].refCount + 1)];
      SetNew(c, id);
    }

    /** Give the entry a cell, whoever has it. */
    method TakeCell(id: Id, c: Cell, ghost limbo: set<Id>)
      requires Valid() && Consistent(env, Abs(), limbo, {}) && c.bucket < env.newBuckets && c.pos < env.bucketSize
      requires id in mapInfo && !(c in newTable && newTable[c] == id)
      modifies `mapInfo, `mapAddr, `vRandom, `nNew, `networkCounts, `newTable, vvNew
      ensures Valid() && id in AddrManSpec.ClearNew(env, old(Abs()), c).info
      ensures Abs() == AddRef(AddrManSpec.ClearNew(env, old(Abs()), c), id, c)
    {
      ClearNewOthers(env, Abs(), c);
      ClearNew(c, limbo, {});
      GiveRef(id, c);
    }

    /** The end of `AddSingle`. */
    method InsertRef(id: Id, source: Host, now: int, ghost limbo: set<Id>) returns (inserted: bool)
      requires Valid() && Consistent(env, Abs(), limbo, {}) && id in mapInfo && !mapInfo[id].inTried
      modifies this, vvNew, vvTried
      ensures Valid() && (Abs(), inserted) == Insert(env, old(Abs()), id, source, now)
    {
      var c := NewCell(env, mapInfo[id].addr, source);
      var occupant := ReadNew(c);
      inserted := occupant == EMPTY_CELL;
      if occupant != id {
        if !inserted {
          var existing := mapInfo[occupant];
          if IsTerrible(existing, now) || (existing.refCount > 1 && mapInfo[id].refCount == 0) {
            inserted := true;
          }
        }
        if inserted {
          TakeCell(id, c, limbo);
        } else if mapInfo[id].refCount == 0 {
          Delete(id);
        }
      }
    }

    method AddSingle(a: Address, source: Host, timePenalty: int, now: int, later: int, lucky: bool) returns (inserted: bool)
      requires Valid() && Consistent(env, Abs(), {}, {})
      modifies this, vvNew, vvTried
      ensures Valid() && (Abs(), inserted) == AddrManOps.AddSingle(env, old(Abs()), a, source, timePenalty, now, later, lucky)
    {
      if !env.routable(a.service.host) { return false; }
      var found, id := Find(a.service);
      var penalty := if a.service.host == source then 0 else timePenalty;
      if found {
        inserted := AddToKnown(id, a, source, penalty, now, later, lucky);
      } else {
        inserted := AddNew(a, source, penalty, later);
      }
    }

    method AddNew(a: Address, source: Host, penalty: int, later: int) returns (inserted: bool)
      requires Valid() && Consistent(env, Abs(), {}, {}) && a.service !in mapAddr
      modifies this, vvNew, vvTried
      ensures Valid() && (Abs(), inserted) == AddUnknown(env, old(Abs()), a, source, penalty, later)
    {
      CreatedKeeps(env, Abs(), a, source, penalty);
      var id := CreateWithPenalty(a, source, penalty);
      inserted := InsertRef(id, source, later, {id});
    }

    method CreateWithPenalty(a: Address, source: Host, penalty: int) returns (id: Id)
      modifies `mapInfo, `mapAddr, `vRandom, `nNew, `networkCounts, `nIdCount
      ensures id == old(nIdCount) && Abs() == Created(env, old(Abs()), a, source, penalty)
    {
      id := Create(a.service, a.services, a.time, source);
      UpdateTwice(old(mapInfo), id, mapInfo[id], mapInfo[id].(time := Max(0, a.time - penalty)));
      mapInfo := mapInfo[id := mapInfo[id].(time := Max(0, a.time - penalty))];
    }

    method AddToKnown(id: Id, a: Address, source: Host, penalty: int, now: int, later: int, lucky: bool) returns (inserted: bool)
      requires Valid() && Consistent(env, Abs(), {}, {}) && a.service in mapAddr && id == mapAddr[a.service]
      modifies this, vvNew, vvTried
      ensures Valid() && (Abs(), inserted) == AddKnown(env, old(Abs()), a, source, penalty, now, later, lucky)
    {
      TouchKeeps(env, Abs(), id, Refreshed(mapInfo[id], a, penalty, now), {}, {});
      var info := Refresh(id, a, penalty, now);
      if a.time <= info.time { return false; }
      if info.inTried { return false; }
      if info.refCount == MAX_REFS { return false; }
      if info.refCount > 0 && !lucky { return false; }
      inserted := InsertRef(id, source, later, {});
    }

    /** Take over time and services from an announcement. */
    method Refresh(id: Id, a: Address, penalty: int, now: int) returns (info: Info)
      requires id in mapInfo
      modifies `mapInfo
      ensures info == Refreshed(old(mapInfo[id]), a, penalty, now) && Abs() == Touch(old(Abs()), id, info)
    {
      info := mapInfo[id];
      var currentlyOnline := now - a.time < DAY;
      var updateInterval := if currentlyOnline then HOUR else DAY;
      if info.time < a.time - updateInterval - penalty {
        info := info.(time := Max(0, a.time - penalty));
      }
      info := info.(services := info.services + a.services);
      mapInfo := mapInfo[id := info];
    }

    method Add(list: seq<Announcement>, source: Host, timePenalty: int) returns (any: bool)
      requires Valid() && Sound(env, Abs())
      modifies this, vvNew, vvTried
      ensures Valid() && Sound(env, Abs()) && Abs() == AddAll(env, old(Abs()), list, source, timePenalty)
      ensures any == AnyAdded(env, old(Abs()), list, source, timePenalty)
    {
      var added := 0;
      ghost var goal := AddAll(env, Abs(), list, source, timePenalty);
      ghost var expected := AnyAdded(env, Abs(), list, source, timePenalty);
      assert list[0..] == list;
      for k := 0 to |list|
        invariant Valid() && Sound(env, Abs()) && added >= 0 && AddAll(env, Abs(), list[k..], source, timePenalty) == goal
        invariant (added > 0 || AnyAdded(env, Abs(), list[k..], source, timePenalty)) == expected
      {
        var a := list[k];
        AddAllSoundStep(env, Abs(), a, source, timePenalty);
        assert list[k..][0] == a && list[k..][1..] == list[k + 1..];
        var one := AddSingle(a.address, source, timePenalty, a.now, a.later, a.lucky);
        added := added + if one then 1 else 0;
      }
      any := added > 0;
    }

    method Good_(addr: Service, testBeforeEvict: bool, time: int) returns (moved: bool)
      requires Valid() && Consistent(env, Abs(), {}, {}) && time > 0
      modifies this, vvNew, vvTried
      ensures Valid() && (Abs(), moved) == AddrManOps.Good(env, old(Abs()), addr, testBeforeEvict, time)
    {
      var found, id := Find(addr);
      if !found {
        lastGood := time;
        return false;
      }
      ConnectKeeps(env, Abs(), id, time);
      RecordSuccess(id, time);
      moved := AfterSuccess(id, testBeforeEvict);
    }

    method RecordSuccess(id: Id, time: int)
      requires id in mapInfo
      modifies `mapInfo, `lastGood
      ensures Abs() == Connect(old(Abs()), id, time)
    {
      lastGood := time;
      mapInfo := mapInfo[id := mapInfo[id].(lastSuccess := time)];
      mapInfo := mapInfo[id := mapInfo[id].(lastTry := time)];
      mapInfo := mapInfo[id := mapInfo[id].(attempts := 0)];
    }

    /** The end of `Good_`, after the entry has been updated. */
    method AfterSuccess(id: Id, testBeforeEvict: bool) returns (moved: bool)
      requires Valid() && Consistent(env, Abs(), {}, {}) && id in mapInfo
      modifies this, vvNew, vvTried
      ensures Valid()
      ensures (Abs(), moved) == Promote(env, old(Abs()), id, testBeforeEvict)
    {
      var info := mapInfo[id];
      if info.inTried { return false; }
      if info.refCount <= 0 { return false; }
      var occupant := ReadTried(TriedCell(env, info.addr));
      if testBeforeEvict && occupant != EMPTY_CELL {
        if |triedCollisions| < COLLISION_LIMIT {
          triedCollisions := Inserted(triedCollisions, id);
        }
        return false;
      }
      MakeTried(id);
      return true;
    }

    method Attempt(addr: Service, countFailure: bool, time: int)
      requires AddrOk(Abs())
      modifies `mapInfo
      ensures Abs() == AddrManOps.Attempt(old(Abs()), addr, countFailure, time)
    {
      var found, id := Find(addr);
      if !found { return; }
      var info := mapInfo[id].(lastTry := time);
      if countFailure && info.lastCountAttempt < lastGood {
        info := info.(lastCountAttempt := time, attempts := info.attempts + 1);
      }
      mapInfo := mapInfo[id := info];
    }

    method Connected(addr: Service, time: int)
      requires AddrOk(Abs())
      modifies `mapInfo
      ensures Abs() == AddrManOps.Connected(old(Abs()), addr, time)
    {
      var found, id := Find(addr);
      if !found { return; }
      if time - mapInfo[id].time > 20 * MINUTE {
        mapInfo := mapInfo[id := mapInfo[id].(time := time)];
      }
    }

    method SetServices(addr: Service, services: set<nat>)
      requires AddrOk(Abs())
      modifies `mapInfo
      ensures Abs() == AddrManOps.SetServices(old(Abs()), addr, services)
    {
      var found, id := Find(addr);
      if !found { return; }
      mapInfo := mapInfo[id := mapInfo[id].(services := services)];
    }

    /** One iteration of `ResolveCollisions_`. */
    method ResolveCollision(id: Id, now: int) returns (erase: bool)
      requires Valid() && Sound(env, Abs()) && now > 0
      modifies this, vvNew, vvTried
      ensures Valid() && (Abs(), erase) == ResolveOne(env, old(Abs()), id, now)
    {
      if id !in mapInfo { return true; }
      var info := mapInfo[id];
      if !env.valid(info.addr.host) { return true; }
      var occupant := ReadTried(TriedCell(env, info.addr));
      var replace := true;
      if occupant != EMPTY_CELL {
        var prior := mapInfo[occupant];
        if now - prior.lastSuccess < REPLACEMENT {
          return true;
        } else if now - prior.lastTry < REPLACEMENT {
          replace := now - prior.lastTry > MINUTE;
        } else {
          replace := now - info.lastSuccess > TEST_WINDOW;
        }
      }
      if replace {
        var _ := Good_(info.addr, false, now);
      }
      return replace;
    }

    method ResolveCollisions(clock: Id -> int)
      requires Valid() && Sound(env, Abs()) && forall id :: clock(id) > 0
      modifies this, vvNew, vvTried
      ensures Valid() && Sound(env, Abs()) && Abs() == ResolveFrom(env, old(Abs()), 0, clock)
    {
      ghost var goal := ResolveFrom(env, Abs(), 0, clock);
      var k: nat := 0;
      while k < |triedCollisions|
        invariant Valid() && Sound(env, Abs()) && k <= |triedCollisions| && ResolveFrom(env, Abs(), k, clock) == goal
        decreases |triedCollisions| - k
      {
        var id := triedCollisions[k];
        ResolveNextSound(env, Abs(), k, clock(id));
        k := ResolveNext(k, clock(id));
      }
    }

    /** Handle the k-th pending collision; the result is the index of the next one. */
    method ResolveNext(k: nat, now: int) returns (next: nat)
      requires Valid() && Sound(env, Abs()) && k < |triedCollisions| && now > 0
      modifies this, vvNew, vvTried
      ensures Valid() && (Abs(), next) == AddrManRuns.ResolveNext(env, old(Abs()), k, now)
    {
      var ids := triedCollisions;
      var erase := ResolveCollision(ids[k], now);
      if !erase { return k + 1; }
      triedCollisions := Without(ids, k);
      return k;
    }

    /** `SelectTriedCollision_`; the lookup in the tried table never meets an empty cell. */
    method SelectTriedCollision(choice: nat) returns (r: seq<(Service, int)>)
      requires Valid() && Sound(env, Abs()) && (triedCollisions != [] ==> choice < |triedCollisions|)
      modifies `triedCollisions
      ensures (Abs(), r) == SelectCollision(env, old(Abs()), choice)
    {
      if |triedCollisions| == 0 { return []; }
      var id := triedCollisions[choice];
      if id !in mapInfo {
        triedCollisions := Without(triedCollisions, choice);
        return [];
      }
      assert PendingOk(env, Abs(), id);
      var occupant := ReadTried(TriedCell(env, mapInfo[id].addr));
      assert occupant != EMPTY_CELL;
      var prior := mapInfo[occupant];
      return [(prior.addr, prior.lastTry)];
    }
  }
}
