/** `CheckAddrman`, the consistency check that the address manager runs on itself. It returns 0 exactly
    if its demands are met; together with three conditions that it does not look at, these demands are
    the full consistency that every run keeps. */
module AddrManCheck {
  import opened AddrManState
  import opened AddrManDisk
  import opened AddrManReading
  import opened AddrManRoundTrip
  import opened AddrMan

  method PickOne<T(==)>(s: set<T>) returns (x: T)
    requires s != {}
    ensures x in s
  {
    x :| x in s;
  }

  // ----- One entry -----

  /** The tests on a single entry. */
  method CheckEntry(m: AddrManImpl, n: Id) returns (code: int)
    requires n in m.mapInfo
    ensures code == 0 <==> EntryChecked(m.Abs(), n)
  {
    var info := m.mapInfo[n];
    if info.inTried {
      if info.lastSuccess == 0 { return -1; }
      if info.refCount != 0 { return -2; }
    } else {
      if info.refCount < 0 || info.refCount > MAX_REFS { return -3; }
      if info.refCount == 0 { return -4; }
    }
    if info.addr !in m.mapAddr || m.mapAddr[info.addr] != n { return -5; }
    if info.randomPos < 0 || info.randomPos >= |m.vRandom| || m.vRandom[info.randomPos] != n { return -14; }
    if info.lastTry < 0 { return -6; }
    if info.lastSuccess < 0 { return -8; }
    return 0;
  }

  // ----- Collecting the entries -----

  /** What has been collected when the entries in `rest` are still to come. */
  ghost predicate Collected(e: Env, s: State, rest: set<Id>, setTried: set<Id>, mapNew: map<Id, int>, local: map<Network, Count>) {
    && setTried == Members(s, true, rest)
    && mapNew.Keys == Members(s, false, rest)
    && (forall n :: n in mapNew ==> mapNew[n] == s.info[n].refCount)
    && LocalOk(e, s, rest, local, true) && LocalOk(e, s, rest, local, false)
    && forall net :: net in local ==> local[net].nNew + local[net].nTried > 0
  }

  function CountFor(c: Count, tried: bool): int {
    if tried then c.nTried else c.nNew
  }

  ghost predicate LocalOk(e: Env, s: State, rest: set<Id>, local: map<Network, Count>, tried: bool) {
    forall net :: CountFor(CountOf(local, net), tried) == |NetMembers(e, s, tried, rest, net)|
  }

  lemma CollectStart(e: Env, s: State)
    ensures Collected(e, s, s.info.Keys, {}, map[], map[])
  {
    forall net, tried: bool ensures NetMembers(e, s, tried, s.info.Keys, net) == {} {}
    assert Members(s, true, s.info.Keys) == {} && Members(s, false, s.info.Keys) == {};
  }

  lemma LocalStep(e: Env, s: State, rest: set<Id>, n: Id, local: map<Network, Count>, tried: bool)
    requires LocalOk(e, s, rest, local, tried) && n in rest && n in s.info
    ensures var i := s.info[n];
            LocalOk(e, s, rest - {n}, AddCount(local, NetOf(e, i), if i.inTried then 0 else 1, if i.inTried then 1 else 0), tried)
  {
    var i := s.info[n];
    var local' := AddCount(local, NetOf(e, i), if i.inTried then 0 else 1, if i.inTried then 1 else 0);
    forall net ensures CountFor(CountOf(local', net), tried) == |NetMembers(e, s, tried, rest - {n}, net)| {
      assert CountFor(CountOf(local, net), tried) == |NetMembers(e, s, tried, rest, net)|;
      if i.inTried == tried {
        NetGains(e, s, rest, s, rest - {n}, tried, n, net);
      } else {
        assert forall x :: x in NetMembers(e, s, tried, rest - {n}, net) <==> x in NetMembers(e, s, tried, rest, net);
        assert NetMembers(e, s, tried, rest - {n}, net) == NetMembers(e, s, tried, rest, net);
      }
    }
  }

  lemma MembersStep(s: State, rest: set<Id>, n: Id, tried: bool)
    requires n in rest && n in s.info
    ensures Members(s, tried, rest - {n}) == if s.info[n].inTried == tried then Members(s, tried, rest) + {n} else Members(s, tried, rest)
  {
    assert forall x :: x in Members(s, tried, rest - {n}) <==>
      x in if s.info[n].inTried == tried then Members(s, tried, rest) + {n} else Members(s, tried, rest);
  }

  lemma NonNegative(e: Env, s: State, rest: set<Id>, local: map<Network, Count>, net: Network)
    requires LocalOk(e, s, rest, local, true) && LocalOk(e, s, rest, local, false)
    ensures CountOf(local, net).nNew >= 0 && CountOf(local, net).nTried >= 0
  {
    assert CountFor(CountOf(local, net), true) >= 0 && CountFor(CountOf(local, net), false) >= 0;
  }

  lemma CollectStep(e: Env, s: State, rest: set<Id>, setTried: set<Id>, mapNew: map<Id, int>, local: map<Network, Count>, n: Id)
    requires Collected(e, s, rest, setTried, mapNew, local) && n in rest && n in s.info
    ensures var i := s.info[n];
            if i.inTried then Collected(e, s, rest - {n}, setTried + {n}, mapNew, AddCount(local, NetOf(e, i), 0, 1))
            else Collected(e, s, rest - {n}, setTried, mapNew[n := i.refCount], AddCount(local, NetOf(e, i), 1, 0))
  {
    LocalStep(e, s, rest, n, local, true);
    LocalStep(e, s, rest, n, local, false);
    MembersStep(s, rest, n, true);
    MembersStep(s, rest, n, false);
    NonNegative(e, s, rest, local, NetOf(e, s.info[n]));
  }

  /** The first loop, over all entries in any order. */
  method CollectEntries(m: AddrManImpl) returns (code: int, setTried: set<Id>, mapNew: map<Id, int>, local: map<Network, Count>)
    ensures code == 0 <==> forall n :: n in m.mapInfo ==> EntryChecked(m.Abs(), n)
    ensures code == 0 ==> Collected(m.env, m.Abs(), {}, setTried, mapNew, local)
  {
    setTried, mapNew, local := {}, map[], map[];
    var rest := m.mapInfo.Keys;
    CollectStart(m.env, m.Abs());
    while rest != {}
      invariant rest <= m.mapInfo.Keys && Collected(m.env, m.Abs(), rest, setTried, mapNew, local)
      invariant forall n :: n in m.mapInfo && n !in rest ==> EntryChecked(m.Abs(), n)
      decreases |rest|
    {
      var n := PickOne(rest);
      var info := m.mapInfo[n];
      code := CheckEntry(m, n);
      if code != 0 { return; }
      CollectStep(m.env, m.Abs(), rest, setTried, mapNew, local, n);
      if info.inTried {
        setTried := setTried + {n};
        local := AddCount(local, NetOf(m.env, info), 0, 1);
      } else {
        mapNew := mapNew[n := info.refCount];
        local := AddCount(local, NetOf(m.env, info), 1, 0);
      }
      rest := rest - {n};
    }
    code := 0;
  }

  // ----- Walking the tried table -----

  ghost predicate InTable(table: map<Cell, Id>, buckets: nat, size: nat) {
    forall c :: c in table ==> c.bucket < buckets && c.pos < size
  }

  /** A cell holds a tried entry that belongs there. */
  ghost predicate TriedRight(e: Env, s: State, c: Cell)
    requires ValidEnv(e) && c in s.triedTable
  {
    var id := s.triedTable[c];
    id in s.info && s.info[id].inTried && c == TriedCell(e, s.info[id].addr)
  }

  /** The entry has its cell, and that is before (b, p). */
  ghost predicate TriedMet(e: Env, s: State, b: nat, p: nat, id: Id)
    requires ValidEnv(e) && id in s.info
  {
    var c := TriedCell(e, s.info[id].addr);
    Before(c, b, p) && c in s.triedTable && s.triedTable[c] == id
  }

  /** The cells before (b, p) are right and `left` are the tried entries that were not met in them. */
  ghost predicate TriedSeen(e: Env, s: State, b: nat, p: nat, left: set<Id>)
    requires ValidEnv(e)
  {
    && (forall c :: c in s.triedTable && Before(c, b, p) ==> TriedRight(e, s, c))
    && (forall id :: id in left <==> id in s.info && s.info[id].inTried && !TriedMet(e, s, b, p, id))
  }

  lemma TriedVisit(e: Env, s: State, b: nat, p: nat, left: set<Id>)
    requires ValidEnv(e) && TriedSeen(e, s, b, p, left)
    ensures var c := Cell(b, p);
            if c in s.triedTable then
              var id := s.triedTable[c];
              && (id in left ==> id in s.info)
              && (TriedRight(e, s, c) <==> id in left && TriedBucket(e, s.info[id].addr) == b && Position(e, s.info[id].addr, false, b) == p)
              && (TriedRight(e, s, c) ==> TriedSeen(e, s, b, p + 1, left - {id}))
            else TriedSeen(e, s, b, p + 1, left)
  {
    var c := Cell(b, p);
    forall d ensures Before(d, b, p + 1) <==> Before(d, b, p) || d == c {
      NextCell(d, b, p);
    }
    forall id | id in s.info
      ensures TriedMet(e, s, b, p + 1, id) <==>
                TriedMet(e, s, b, p, id) || (c == TriedCell(e, s.info[id].addr) && c in s.triedTable && s.triedTable[c] == id)
    {}
  }

  lemma TriedRow(e: Env, s: State, b: nat, left: set<Id>)
    requires ValidEnv(e) && TriedSeen(e, s, b, e.bucketSize, left) && InTable(s.triedTable, e.triedBuckets, e.bucketSize)
    ensures TriedSeen(e, s, b + 1, 0, left)
  {
    forall id | id in s.info ensures TriedMet(e, s, b, e.bucketSize, id) <==> TriedMet(e, s, b + 1, 0, id) {}
  }

  lemma TriedStart(e: Env, s: State)
    requires ValidEnv(e)
    ensures TriedSeen(e, s, 0, 0, Members(s, true, {}))
  {}

  lemma Vacant<T>(a: set<T>)
    requires forall x :: x !in a
    ensures a == {}
  {}

  lemma TriedEnd(e: Env, s: State, left: set<Id>)
    requires ValidEnv(e) && TriedSeen(e, s, e.triedBuckets, 0, left) && InTable(s.triedTable, e.triedBuckets, e.bucketSize)
    ensures left == {} <==> TriedOk(e, s)
  {
    forall c | c in s.triedTable ensures TriedRight(e, s, c) {
      assert Before(c, e.triedBuckets, 0);
    }
    if TriedOk(e, s) {
      forall id ensures id !in left {
        if id in s.info && s.info[id].inTried { TriedAt(e, s, id); }
      }
      Vacant(left);
    }
    if left == {} {
      forall id | id in s.info && s.info[id].inTried ensures TriedMet(e, s, e.triedBuckets, 0, id) {
        assert id !in left;
      }
    }
  }

  method WalkTriedBucket(m: AddrManImpl, b: nat, left: set<Id>) returns (code: int, left': set<Id>)
    requires m.Valid() && b < m.env.triedBuckets && TriedSeen(m.env, m.Abs(), b, 0, left)
    ensures code == 0 ==> TriedSeen(m.env, m.Abs(), b, m.env.bucketSize, left')
    ensures code != 0 ==> !TriedOk(m.env, m.Abs())
  {
    left' := left;
    for p := 0 to m.env.bucketSize
      invariant TriedSeen(m.env, m.Abs(), b, p, left')
    {
      var id := m.ReadTried(Cell(b, p));
      TriedVisit(m.env, m.Abs(), b, p, left');
      if id != EMPTY_CELL {
        if id !in left' { return -11, left'; }
        if id !in m.mapInfo || TriedBucket(m.env, m.mapInfo[id].addr) != b { return -17, left'; }
        if Position(m.env, m.mapInfo[id].addr, false, b) != p { return -18, left'; }
        left' := left' - {id};
      }
    }
    code := 0;
  }

  /** The loop over the tried table; what is left of the set must be empty. */
  method WalkTried(m: AddrManImpl, setTried: set<Id>) returns (code: int, left: set<Id>)
    requires m.Valid() && setTried == Members(m.Abs(), true, {})
    ensures code == 0 && left == {} <==> TriedOk(m.env, m.Abs())
  {
    left := setTried;
    TriedStart(m.env, m.Abs());
    for b := 0 to m.env.triedBuckets
      invariant TriedSeen(m.env, m.Abs(), b, 0, left)
    {
      code, left := WalkTriedBucket(m, b, left);
      if code != 0 { return; }
      TriedRow(m.env, m.Abs(), b, left);
    }
    code := 0;
    TriedEnd(m.env, m.Abs(), left);
  }

  // ----- Walking the new table -----

  /** A cell holds a new entry in its position. */
  ghost predicate NewRight(e: Env, s: State, c: Cell)
    requires ValidEnv(e) && c in s.newTable
  {
    var id := s.newTable[c];
    id in s.info && !s.info[id].inTried && c.bucket < e.newBuckets && c.pos == Position(e, s.info[id].addr, true, c.bucket)
  }

  /** How many cells of the entry are before (b, p). */
  ghost function MetCells(s: State, b: nat, p: nat, id: Id): int {
    |Refs(Restricted(s.newTable, b, p), id)|
  }

  /** Of the entry's references, as many are left as were not met. */
  ghost predicate LeftFor(s: State, b: nat, p: nat, left: map<Id, int>, id: Id)
    requires id in s.info
  {
    if id in left then left[id] == s.info[id].refCount - MetCells(s, b, p, id) > 0
    else s.info[id].refCount == MetCells(s, b, p, id)
  }

  /** The cells before (b, p) are right and `left` are the references that were not met in them. */
  ghost predicate NewSeen(e: Env, s: State, b: nat, p: nat, left: map<Id, int>)
    requires ValidEnv(e)
  {
    && (forall c :: c in s.newTable && Before(c, b, p) ==> NewRight(e, s, c))
    && (forall id :: id in left ==> id in s.info && !s.info[id].inTried)
    && (forall id :: id in s.info && !s.info[id].inTried ==> LeftFor(s, b, p, left, id))
  }

  function Reduced(left: map<Id, int>, id: Id): map<Id, int>
    requires id in left
  {
    if left[id] == 1 then left - {id} else left[id := left[id] - 1]
  }

  lemma NewNeeded(e: Env, s: State, b: nat, p: nat, left: map<Id, int>)
    requires ValidEnv(e) && NewOk(e, s, {}) && NewSeen(e, s, b, p, left) && Cell(b, p) in s.newTable
    ensures var id := s.newTable[Cell(b, p)];
            id in s.info && id in left && Position(e, s.info[id].addr, true, b) == p
  {
    var id := s.newTable[Cell(b, p)];
    NewAt(e, s, Cell(b, p));
    FewerRefs(s.newTable, b, p);
    RefsAt(e, s, id, {});
    assert LeftFor(s, b, p, left, id);
  }

  lemma NewHit(e: Env, s: State, b: nat, p: nat, left: map<Id, int>)
    requires ValidEnv(e) && NewSeen(e, s, b, p, left) && Cell(b, p) in s.newTable && b < e.newBuckets
    requires var id := s.newTable[Cell(b, p)];
             id in left && id in s.info && Position(e, s.info[id].addr, true, b) == p
    ensures NewSeen(e, s, b, p + 1, Reduced(left, s.newTable[Cell(b, p)]))
  {
    var c, id := Cell(b, p), s.newTable[Cell(b, p)];
    assert forall d :: Before(d, b, p + 1) <==> Before(d, b, p) || d == c;
    RestrictedNext(s.newTable, b, p);
    forall x | x in s.info && !s.info[x].inTried ensures LeftFor(s, b, p + 1, Reduced(left, id), x) {
      assert LeftFor(s, b, p, left, x);
      RefsAdded(Restricted(s.newTable, b, p), c, id, x);
    }
  }

  lemma NextCell(d: Cell, b: nat, p: nat)
    ensures Before(d, b, p + 1) <==> Before(d, b, p) || d == Cell(b, p)
  {
    assert d == Cell(d.bucket, d.pos);
  }

  lemma NewMiss(e: Env, s: State, b: nat, p: nat, left: map<Id, int>)
    requires ValidEnv(e) && NewSeen(e, s, b, p, left) && Cell(b, p) !in s.newTable
    ensures NewSeen(e, s, b, p + 1, left)
  {
    forall d ensures Before(d, b, p + 1) <==> Before(d, b, p) || d == Cell(b, p) {
      NextCell(d, b, p);
    }
    RestrictedNext(s.newTable, b, p);
    forall x | x in s.info && !s.info[x].inTried ensures LeftFor(s, b, p + 1, left, x) {
      assert LeftFor(s, b, p, left, x);
    }
  }

  lemma NewRow(e: Env, s: State, b: nat, left: map<Id, int>)
    requires ValidEnv(e) && NewSeen(e, s, b, e.bucketSize, left) && InTable(s.newTable, e.newBuckets, e.bucketSize)
    ensures NewSeen(e, s, b + 1, 0, left)
  {
    assert Restricted(s.newTable, b + 1, 0) == Restricted(s.newTable, b, e.bucketSize);
    forall x | x in s.info && !s.info[x].inTried ensures LeftFor(s, b + 1, 0, left, x) {
      assert LeftFor(s, b, e.bucketSize, left, x);
    }
  }

  /** The references that the first loop has collected. */
  ghost predicate AllRefs(s: State, mapNew: map<Id, int>) {
    && mapNew.Keys == Members(s, false, {})
    && (forall n :: n in mapNew ==> mapNew[n] == s.info[n].refCount)
    && (forall n :: n in s.info ==> EntryChecked(s, n))
  }

  lemma NewStart(e: Env, s: State, mapNew: map<Id, int>)
    requires ValidEnv(e) && AllRefs(s, mapNew)
    ensures NewSeen(e, s, 0, 0, mapNew)
  {
    assert Restricted(s.newTable, 0, 0) == map[];
    forall id | id in mapNew ensures id in s.info && !s.info[id].inTried {
      assert id in mapNew.Keys;
    }
    forall id | id in s.info && !s.info[id].inTried ensures LeftFor(s, 0, 0, mapNew, id) {
      assert id in Members(s, false, {});
      assert EntryChecked(s, id);
      assert Refs(map[], id) == {};
    }
  }

  lemma NewEnd(e: Env, s: State, left: map<Id, int>)
    requires ValidEnv(e) && NewSeen(e, s, e.newBuckets, 0, left) && InTable(s.newTable, e.newBuckets, e.bucketSize)
    requires forall id :: id in s.info ==> EntryChecked(s, id)
    ensures left == map[] <==> NewOk(e, s, {})
  {
    assert Restricted(s.newTable, e.newBuckets, 0) == s.newTable;
    forall c | c in s.newTable ensures NewRight(e, s, c) {
      assert Before(c, e.newBuckets, 0);
    }
    if NewOk(e, s, {}) {
      forall id ensures id !in left.Keys {
        if id in s.info && !s.info[id].inTried {
          RefsAt(e, s, id, {});
          assert LeftFor(s, e.newBuckets, 0, left, id);
        }
      }
      Vacant(left.Keys);
    }
    if left == map[] {
      forall id | id in s.info ensures s.info[id].refCount == |Refs(s.newTable, id)| <= MAX_REFS && (s.info[id].refCount == 0 <==> s.info[id].inTried) {
        NoneLeft(e, s, id);
      }
    }
  }

  /** With no reference left, the count of an entry is the number of its cells. */
  lemma NoneLeft(e: Env, s: State, id: Id)
    requires ValidEnv(e) && NewSeen(e, s, e.newBuckets, 0, map[]) && Restricted(s.newTable, e.newBuckets, 0) == s.newTable
    requires (forall c :: c in s.newTable ==> NewRight(e, s, c)) && id in s.info && EntryChecked(s, id)
    ensures s.info[id].refCount == |Refs(s.newTable, id)| <= MAX_REFS && (s.info[id].refCount == 0 <==> s.info[id].inTried)
  {
    if s.info[id].inTried {
      forall c ensures c !in Refs(s.newTable, id) {
        if c in s.newTable { assert NewRight(e, s, c); }
      }
      Vacant(Refs(s.newTable, id));
    } else {
      assert LeftFor(s, e.newBuckets, 0, map[], id);
    }
  }

  method WalkNewBucket(m: AddrManImpl, b: nat, left: map<Id, int>) returns (code: int, left': map<Id, int>)
    requires m.Valid() && b < m.env.newBuckets && NewSeen(m.env, m.Abs(), b, 0, left)
    ensures code == 0 ==> NewSeen(m.env, m.Abs(), b, m.env.bucketSize, left')
    ensures code != 0 ==> !NewOk(m.env, m.Abs(), {})
  {
    left' := left;
    for p := 0 to m.env.bucketSize
      invariant NewSeen(m.env, m.Abs(), b, p, left')
    {
      var id := m.ReadNew(Cell(b, p));
      if id != EMPTY_CELL {
        ghost var ok := NewOk(m.env, m.Abs(), {});
        if ok { NewNeeded(m.env, m.Abs(), b, p, left'); }
        if id !in left' { return -12, left'; }
        if id !in m.mapInfo || Position(m.env, m.mapInfo[id].addr, true, b) != p { return -19, left'; }
        NewHit(m.env, m.Abs(), b, p, left');
        left' := Reduced(left', id);
      } else {
        NewMiss(m.env, m.Abs(), b, p, left');
      }
    }
    code := 0;
  }

  /** The loop over the new table, which counts the references down. */
  method WalkNew(m: AddrManImpl, mapNew: map<Id, int>) returns (code: int, left: map<Id, int>)
    requires m.Valid() && AllRefs(m.Abs(), mapNew)
    ensures code == 0 && left == map[] <==> NewOk(m.env, m.Abs(), {})
  {
    left := mapNew;
    NewStart(m.env, m.Abs(), mapNew);
    for b := 0 to m.env.newBuckets
      invariant NewSeen(m.env, m.Abs(), b, 0, left)
    {
      code, left := WalkNewBucket(m, b, left);
      if code != 0 { return; }
      NewRow(m.env, m.Abs(), b, left);
    }
    code := 0;
    NewEnd(m.env, m.Abs(), left);
  }

  // ----- The counters -----

  /** The networks that were counted are those that have an entry. */
  lemma LocalNetworks(e: Env, s: State, local: map<Network, Count>)
    requires LocalOk(e, s, {}, local, true) && LocalOk(e, s, {}, local, false)
    requires forall net :: net in local ==> local[net].nNew + local[net].nTried > 0
    ensures local.Keys == Networks(e, s)
  {
    forall net | net in local.Keys ensures net in Networks(e, s) {
      var a, b := NetMembers(e, s, true, {}, net), NetMembers(e, s, false, {}, net);
      assert CountFor(CountOf(local, net), true) == |a| && CountFor(CountOf(local, net), false) == |b|;
      var id := Pick(if a != {} then a else b);
      assert NetOf(e, s.info[id]) == net;
    }
    forall id | id in s.info ensures NetOf(e, s.info[id]) in local.Keys {
      var net, tried := NetOf(e, s.info[id]), s.info[id].inTried;
      assert id in NetMembers(e, s, tried, {}, net);
      assert CountFor(CountOf(local, net), tried) == |NetMembers(e, s, tried, {}, net)|;
    }
    SameSet(local.Keys, Networks(e, s));
  }

  /** The last loop, over the counters. */
  method CompareCounts(m: AddrManImpl, local: map<Network, Count>) returns (code: int)
    ensures code == 0 <==> forall net :: net in m.networkCounts ==> CountOf(local, net) == m.networkCounts[net]
  {
    var rest := m.networkCounts.Keys;
    while rest != {}
      invariant rest <= m.networkCounts.Keys
      invariant forall net :: net in m.networkCounts && net !in rest ==> CountOf(local, net) == m.networkCounts[net]
      decreases |rest|
    {
      var net := PickOne(rest);
      if CountOf(local, net) != m.networkCounts[net] { return -21; }
      rest := rest - {net};
    }
    code := 0;
  }

  lemma CountsCompared(e: Env, s: State, local: map<Network, Count>)
    requires LocalOk(e, s, {}, local, true) && LocalOk(e, s, {}, local, false)
    requires forall net :: net in local ==> local[net].nNew + local[net].nTried > 0
    ensures |local| <= |s.counts| && (forall net :: net in s.counts ==> CountOf(local, net) == s.counts[net]) <==> CountsChecked(e, s)
  {
    LocalNetworks(e, s, local);
    assert |local| == |local.Keys|;
    forall net ensures CountOf(local, net) == Count(|NetMembers(e, s, false, {}, net)|, |NetMembers(e, s, true, {}, net)|) {
      assert CountFor(CountOf(local, net), true) == |NetMembers(e, s, true, {}, net)|;
      assert CountFor(CountOf(local, net), false) == |NetMembers(e, s, false, {}, net)|;
    }
  }

  /** The whole check. */
  method CheckAddrman(m: AddrManImpl) returns (code: int)
    requires m.Valid()
    ensures code == 0 <==> Checked(m.env, m.Abs())
  {
    if |m.vRandom| != m.nTried + m.nNew { return -7; }
    var setTried, mapNew, local;
    code, setTried, mapNew, local := CollectEntries(m);
    if code != 0 { return; }
    assert |mapNew| == |mapNew.Keys|;
    if |setTried| != m.nTried { return -9; }
    if |mapNew| != m.nNew { return -10; }
    code := CheckTables(m, setTried, mapNew);
    if code != 0 { return; }
    if m.env.key == 0 { return -16; }
    CountsCompared(m.env, m.Abs(), local);
    if |m.networkCounts| < |local| { return -20; }
    code := CompareCounts(m, local);
  }

  /** The two loops over the tables and the tests of what they leave. */
  method CheckTables(m: AddrManImpl, setTried: set<Id>, mapNew: map<Id, int>) returns (code: int)
    requires m.Valid() && setTried == Members(m.Abs(), true, {}) && AllRefs(m.Abs(), mapNew)
    ensures code == 0 <==> TriedOk(m.env, m.Abs()) && NewOk(m.env, m.Abs(), {})
  {
    var leftTried, leftNew;
    code, leftTried := WalkTried(m, setTried);
    if code != 0 { return; }
    code, leftNew := WalkNew(m, mapNew);
    if code != 0 { return; }
    if |leftTried| != 0 { return -13; }
    if |leftNew| != 0 { return -15; }
  }
}
