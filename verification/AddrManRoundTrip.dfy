/** Reading back what was written loses nothing but ids, positions and the memory-only fields. */
module AddrManRoundTrip {
  import opened Collections
  import opened AddrManState
  import opened AddrManRuns
  import opened AddrManDisk
  import opened AddrManReading

  /** The ids in the order in which the file lists their entries. */
  function FileOrder(s: State, order: seq<Id>): seq<Id>
    requires Known(s, order)
  {
    Chosen(s, order, false) + Chosen(s, order, true)
  }

  /** The states differ only in the names of the ids, the random order and what is kept in memory only;
      the k-th id of the file has become k. */
  ghost predicate SameUpToIds(e: Env, s: State, ids: seq<Id>, t: State) {
    && Enumerates(ids, s) && t.info.Keys == Range(|ids|)
    && (forall k :: 0 <= k < |ids| ==> SameEntry(s, ids, t, k))
    && SameTable(s.newTable, ids, t.newTable) && SameTable(s.triedTable, ids, t.triedTable)
    && t.nNew == s.nNew && t.nTried == s.nTried
    && (forall net :: CountOf(t.counts, net) == CountOf(s.counts, net))
  }

  /** What a file keeps of an entry: the times of attempts are in memory only, and the time of the
      entry is cut to 32 bits. */
  function Reread(i: Info): Info {
    i.(time := OnDisk(i.time), lastTry := 0, lastCountAttempt := 0)
  }

  ghost predicate SameEntry(s: State, ids: seq<Id>, t: State, k: nat)
    requires Known(s, ids) && k < |ids|
  {
    k in t.info && t.info[k] == Reread(s.info[ids[k]]).(randomPos := t.info[k].randomPos)
  }

  ghost predicate SameTable(before: map<Cell, Id>, ids: seq<Id>, after: map<Cell, Id>) {
    && before.Keys == after.Keys
    && forall c :: c in after ==> 0 <= after[c] < |ids| && ids[after[c]] == before[c]
  }

  // ----- The list of ids -----

  lemma {:induction false} ChosenDistinct(s: State, order: seq<Id>, tried: bool)
    requires Known(s, order) && Distinct(order)
    ensures Distinct(Chosen(s, order, tried))
  {
    if order != [] {
      ChosenDistinct(s, order[1..], tried);
      assert order[0] !in order[1..];
    }
  }

  lemma FileOrderOk(e: Env, s: State, order: seq<Id>)
    requires Consistent(e, s, {}, {}) && Enumerates(order, s)
    ensures Enumerates(FileOrder(s, order), s) && Split(s, FileOrder(s, order), |Chosen(s, order, false)|)
  {
    var a, b := Chosen(s, order, false), Chosen(s, order, true);
    ChosenSplit(e, s, order, false);
    ChosenSplit(e, s, order, true);
    SplitDistinct(s, a, b);
    forall id | id in s.info ensures id in a + b {
      PickedOk(e, s, id, false);
      PickedOk(e, s, id, true);
      assert id in a || id in b;
    }
  }

  lemma ChosenSplit(e: Env, s: State, order: seq<Id>, tried: bool)
    requires Consistent(e, s, {}, {}) && Enumerates(order, s)
    ensures var a := Chosen(s, order, tried); Distinct(a) && forall i :: 0 <= i < |a| ==> s.info[a[i]].inTried == tried
  {
    var a := Chosen(s, order, tried);
    ChosenDistinct(s, order, tried);
    forall i | 0 <= i < |a| ensures s.info[a[i]].inTried == tried {
      assert a[i] in a;
      PickedOk(e, s, a[i], tried);
    }
  }

  lemma SplitDistinct(s: State, a: seq<Id>, b: seq<Id>)
    requires Known(s, a) && Known(s, b) && Distinct(a) && Distinct(b)
    requires (forall i :: 0 <= i < |a| ==> !s.info[a[i]].inTried) && (forall i :: 0 <= i < |b| ==> s.info[b[i]].inTried)
    ensures Known(s, a + b) && Distinct(a + b) && Split(s, a + b, |a|)
  {}

  /** The first m ids are new, the others tried. */
  predicate Split(s: State, ids: seq<Id>, m: nat)
    requires Known(s, ids)
  {
    m <= |ids| && forall i :: 0 <= i < |ids| ==> s.info[ids[i]].inTried == (m <= i)
  }

  function Infos(s: State, ids: seq<Id>): (r: seq<Info>)
    requires Known(s, ids)
    ensures |r| == |ids| && forall k :: 0 <= k < |ids| ==> r[k] == s.info[ids[k]]
  {
    seq(|ids|, k requires 0 <= k < |ids| => s.info[ids[k]])
  }

  lemma TimeAt(s: State, id: Id)
    requires TimesOk(s) && id in s.info
    ensures s.info[id].lastSuccess >= 0 && (s.info[id].inTried ==> s.info[id].lastSuccess > 0)
  {}

  ghost predicate AllValid(e: Env, s: State) {
    forall id :: id in s.info ==> e.valid(s.info[id].addr.host)
  }

  lemma ValidAt(e: Env, s: State, id: Id)
    requires AllValid(e, s) && id in s.info
    ensures e.valid(s.info[id].addr.host)
  {}

  lemma InfosApart(e: Env, s: State, ids: seq<Id>, i: nat, j: nat)
    requires ValidEnv(e) && AddrOk(s) && TriedOk(e, s) && Known(s, ids) && Distinct(ids) && i < j < |ids|
    ensures Apart(e, Infos(s, ids), i, j)
  {
    AddrAt(s, ids[i]);
    AddrAt(s, ids[j]);
    if s.info[ids[i]].inTried && s.info[ids[j]].inTried {
      TriedAt(e, s, ids[i]);
      TriedAt(e, s, ids[j]);
    }
  }

  lemma InfosLoadable(e: Env, s: State, ids: seq<Id>, m: nat)
    requires Consistent(e, s, {}, {}) && AllValid(e, s) && Known(s, ids) && Distinct(ids) && Split(s, ids, m)
    ensures Loadable(e, Infos(s, ids), m)
  {
    var infos := Infos(s, ids);
    forall k | 0 <= k < |infos| ensures LoadableAt(e, infos, k, m) {
      TimeAt(s, ids[k]);
      ValidAt(e, s, ids[k]);
    }
    forall i, j | 0 <= i < j < |infos| ensures Apart(e, infos, i, j) {
      InfosApart(e, s, ids, i, j);
    }
  }

  // ----- Counting through the renaming -----

  ghost function Positions(ids: seq<Id>, a: set<Id>): set<Id> {
    set k | k in Range(|ids|) && 0 <= k < |ids| && ids[k] in a
  }

  lemma {:induction false} ImageCard(ids: seq<Id>, a: set<Id>)
    requires Distinct(ids) && forall x :: x in a ==> x in ids
    ensures |Positions(ids, a)| == |a|
    decreases |a|
  {
    if a == {} {
      NoPositions(ids);
    } else {
      var x := Pick(a);
      ImageCard(ids, a - {x});
      OnePosition(ids, a, x);
    }
  }

  lemma Pick<T>(a: set<T>) returns (x: T)
    requires a != {}
    ensures x in a
  {
    x :| x in a;
  }

  lemma NoPositions(ids: seq<Id>)
    ensures Positions(ids, {}) == {}
  {}

  lemma OnePosition(ids: seq<Id>, a: set<Id>, x: Id)
    requires Distinct(ids) && x in a && x in ids
    ensures |Positions(ids, a)| == |Positions(ids, a - {x})| + 1
  {
    var k := IndexOf(ids, x);
    forall i ensures i in Positions(ids, a) <==> i in Positions(ids, a - {x}) || i == k {
      if i in Range(|ids|) && i != k {
        assert ids[i] != ids[k];
      }
    }
    assert Positions(ids, a) == Positions(ids, a - {x}) + {k};
  }

  lemma {:induction false} RangeCard(n: nat)
    ensures |Range(n)| == n
  {
    if n > 0 {
      RangeCard(n - 1);
    }
  }

  lemma ListLength(ids: seq<Id>, a: set<Id>)
    requires Distinct(ids) && forall x :: x in a <==> x in ids
    ensures |ids| == |a|
  {
    ImageCard(ids, a);
    RangeCard(|ids|);
    assert Positions(ids, a) == Range(|ids|);
  }

  /** The file's numbers are the true ones, so the writer's assertions hold. */
  lemma FileNumbers(e: Env, s: State, order: seq<Id>)
    requires Consistent(e, s, {}, {}) && Enumerates(order, s)
    ensures |Chosen(s, order, false)| == s.nNew && |Chosen(s, order, true)| == s.nTried
  {
    forall tried: bool ensures |Chosen(s, order, tried)| == |Members(s, tried, {})| {
      ChosenMembers(e, s, order, tried);
    }
    assert |Chosen(s, order, false)| == |Members(s, false, {})|;
    assert |Chosen(s, order, true)| == |Members(s, true, {})|;
  }

  lemma ChosenMembers(e: Env, s: State, order: seq<Id>, tried: bool)
    requires Consistent(e, s, {}, {}) && Enumerates(order, s)
    ensures |Chosen(s, order, tried)| == |Members(s, tried, {})|
  {
    ChosenDistinct(s, order, tried);
    forall id ensures id in Members(s, tried, {}) <==> id in Chosen(s, order, tried) {
      if id in s.info {
        PickedOk(e, s, id, tried);
      }
    }
    ListLength(Chosen(s, order, tried), Members(s, tried, {}));
  }

  lemma SameNet(e: Env, s: State, ids: seq<Id>, t: State, tried: bool, net: Network)
    requires Enumerates(ids, s) && t.info.Keys == Range(|ids|) && forall k :: 0 <= k < |ids| ==> SameEntry(s, ids, t, k)
    ensures |NetMembers(e, t, tried, {}, net)| == |NetMembers(e, s, tried, {}, net)|
    ensures |Members(t, tried, {})| == |Members(s, tried, {})|
  {
    forall k | 0 <= k < |ids| ensures k in t.info && ids[k] in s.info && t.info[k].addr == s.info[ids[k]].addr && t.info[k].inTried == s.info[ids[k]].inTried {
      assert SameEntry(s, ids, t, k);
    }
    var a, b := NetMembers(e, s, tried, {}, net), Members(s, tried, {});
    ImageCard(ids, a);
    ImageCard(ids, b);
    SamePositions(e, s, ids, t, tried, net);
  }

  lemma SamePositions(e: Env, s: State, ids: seq<Id>, t: State, tried: bool, net: Network)
    requires Known(s, ids) && t.info.Keys == Range(|ids|)
    requires forall k :: 0 <= k < |ids| ==> k in t.info && t.info[k].addr == s.info[ids[k]].addr && t.info[k].inTried == s.info[ids[k]].inTried
    ensures NetMembers(e, t, tried, {}, net) == Positions(ids, NetMembers(e, s, tried, {}, net))
    ensures Members(t, tried, {}) == Positions(ids, Members(s, tried, {}))
  {
    forall k ensures k in NetMembers(e, t, tried, {}, net) <==> k in Positions(ids, NetMembers(e, s, tried, {}, net)) {
      if k in Range(|ids|) {
        var id := ids[k];
        assert CountedIn(e, t, tried, {}, net, k) <==> CountedIn(e, s, tried, {}, net, id);
      }
    }
    forall k ensures k in Members(t, tried, {}) <==> k in Positions(ids, Members(s, tried, {})) {
      if k in Range(|ids|) {
        var id := ids[k];
        assert Counted(t, tried, {}, k) <==> Counted(s, tried, {}, id);
      }
    }
  }

  // ----- The rebuilt state -----

  lemma RefsRenamed(s: State, ids: seq<Id>, m: nat, k: nat)
    requires m <= |ids| && Distinct(ids) && Listed(s, ids[..m]) && k < |ids|
    ensures Refs(Renamed(s, ids[..m]), k) == if k < m then Refs(s.newTable, ids[k]) else {}
  {
    var table := Renamed(s, ids[..m]);
    forall c | c in s.newTable ensures table[c] == k <==> k < m && s.newTable[c] == ids[k] {
      var j := table[c];
      assert j < m && ids[j] == ids[..m][j] == s.newTable[c];
    }
  }

  lemma NewAt(e: Env, s: State, c: Cell)
    requires ValidEnv(e) && NewOk(e, s, {}) && c in s.newTable
    ensures s.newTable[c] in s.info && !s.info[s.newTable[c]].inTried && Fits(e, s.info[s.newTable[c]].addr, c)
  {}

  lemma RefsAt(e: Env, s: State, id: Id, limbo: set<Id>)
    requires ValidEnv(e) && NewOk(e, s, limbo) && id in s.info
    ensures s.info[id].refCount == |Refs(s.newTable, id)| <= MAX_REFS
    ensures s.info[id].refCount == 0 <==> s.info[id].inTried || id in limbo
  {}

  /** The written table can be filled into the loaded state. */
  lemma TablePlaceable(e: Env, s: State, ids: seq<Id>, m: nat, t: State)
    requires ValidEnv(e) && NewOk(e, s, {}) && AllValid(e, s)
    requires Known(s, ids) && Distinct(ids) && m <= |ids| && Listed(s, ids[..m])
    requires Loaded(Infos(s, ids), |ids|, t)
    ensures Placeable(e, t, m, Renamed(s, ids[..m]))
  {
    var table := Renamed(s, ids[..m]);
    forall c | c in table ensures PlaceableAt(e, t, m, table, c) {
      NewAt(e, s, c);
      ValidAt(e, s, s.newTable[c]);
      assert LoadedAt(Infos(s, ids), t, table[c]);
    }
    forall k | k in t.info ensures |Refs(table, k)| <= MAX_REFS {
      assert k in Range(|ids|);
      RefsRenamed(s, ids, m, k);
      RefsAt(e, s, ids[k], {});
    }
  }

  /** Filling a table into a loaded state gives each entry its reference count. */
  ghost function Filled(t: State, table: map<Cell, Id>): State {
    t.(newTable := table, info := map k | k in t.info :: t.info[k].(refCount := |Refs(table, k)|))
  }

  lemma FilledTables(e: Env, t: State, m: nat, table: map<Cell, Id>)
    requires ValidEnv(e) && TriedOk(e, t) && Placeable(e, t, m, table)
    requires forall k :: k in t.info ==> (|Refs(table, k)| == 0 <==> t.info[k].inTried)
    ensures TriedOk(e, Filled(t, table)) && NewOk(e, Filled(t, table), {})
  {
    var u := Filled(t, table);
    forall c | c in table ensures table[c] in u.info && !u.info[table[c]].inTried && Fits(e, u.info[table[c]].addr, c) {
      assert PlaceableAt(e, t, m, table, c);
      assert c in Refs(table, table[c]);
    }
  }

  lemma FilledKeeps(e: Env, t: State, m: nat, table: map<Cell, Id>, limbo: set<Id>)
    requires Consistent(e, t, limbo, {}) && Placeable(e, t, m, table)
    requires forall k :: k in t.info ==> (|Refs(table, k)| == 0 <==> t.info[k].inTried)
    ensures Consistent(e, Filled(t, table), {}, {})
  {
    var u := Filled(t, table);
    assert u.info.Keys == t.info.Keys;
    KeepsEntries(t, u);
    FilledCounts(e, t, table);
    FilledTables(e, t, m, table);
  }

  lemma FilledCounts(e: Env, t: State, table: map<Cell, Id>)
    requires CountOk(e, t, false, {}) && CountOk(e, t, true, {})
    ensures CountOk(e, Filled(t, table), false, {}) && CountOk(e, Filled(t, table), true, {})
  {
    CountKept(e, t, {}, Filled(t, table), {}, false, -1);
    CountKept(e, t, {}, Filled(t, table), {}, true, -1);
  }

  // ----- The round trip -----

  lemma StageStart(t: State, table: map<Cell, Id>)
    requires t.newTable == map[] && forall k :: k in t.info ==> t.info[k].refCount == 0
    ensures Stage(t, table, 0, 0) == t
  {
    var u := Stage(t, table, 0, 0);
    assert Restricted(table, 0, 0) == map[];
    forall k | k in t.info ensures u.info[k] == t.info[k] {
      assert Refs(map[], k) == {};
    }
    assert u.info == t.info;
  }

  lemma StageEnd(e: Env, t: State, m: nat, table: map<Cell, Id>)
    requires ValidEnv(e) && Placeable(e, t, m, table)
    ensures Stage(t, table, e.newBuckets, 0) == Filled(t, table)
  {
    AllPlaced(e, t, m, table);
  }

  /** All that is loaded has references in the written table, or is tried. */
  lemma LoadedRefs(e: Env, s: State, ids: seq<Id>, m: nat, t: State, k: Id)
    requires ValidEnv(e) && NewOk(e, s, {}) && Known(s, ids) && Distinct(ids) && Split(s, ids, m) && Listed(s, ids[..m])
    requires Loaded(Infos(s, ids), |ids|, t) && k in t.info
    ensures 0 <= k < |ids| && t.info[k].refCount == 0
    ensures |Refs(Renamed(s, ids[..m]), k)| == s.info[ids[k]].refCount
    ensures |Refs(Renamed(s, ids[..m]), k)| == 0 <==> t.info[k].inTried
  {
    assert k in Range(|ids|);
    assert LoadedAt(Infos(s, ids), t, k);
    RefsRenamed(s, ids, m, k);
    RefsAt(e, s, ids[k], {});
  }

  /** What a file says about the state it was written from. */
  ghost predicate Describes(e: Env, f: File, s: State, ids: seq<Id>, m: nat) {
    && Enumerates(ids, s) && Split(s, ids, m) && Listed(s, ids[..m])
    && f.nNew == s.nNew == m && f.nTried == s.nTried == |ids| - m && f.records == Records(s, ids)
    && f.buckets == BucketLists(Renamed(s, ids[..m]), e.newBuckets, e.bucketSize)
  }

  lemma SerializeDescribes(e: Env, s: State, order: seq<Id>, checksum: nat)
    requires Consistent(e, s, {}, {}) && Enumerates(order, s)
    ensures Describes(e, Serialize(e, s, order, checksum), s, FileOrder(s, order), |Chosen(s, order, false)|)
  {
    var ids, m := FileOrder(s, order), |Chosen(s, order, false)|;
    FileOrderOk(e, s, order);
    FileNumbers(e, s, order);
    NewAreListed(e, s, order);
    assert ids[..m] == Chosen(s, order, false);
  }

  /** Loading and placing what was written. */
  lemma RebuiltOk(e: Env, f: File, s: State, ids: seq<Id>, m: nat) returns (t: State)
    requires Consistent(e, s, {}, {}) && AllValid(e, s) && Describes(e, f, s, ids, m)
    ensures Loaded(Infos(s, ids), |ids|, t) && Consistent(e, t, Range(m), {})
    ensures Rebuilt(e, f, f.checksum) == Filled(t, Renamed(s, ids[..m]))
  {
    InfosLoadable(e, s, ids, m);
    t := LoadedOk(e, Infos(s, ids), m, f.records);
    PlacedOk(e, s, ids, m, t);
  }

  lemma InfosReadable(e: Env, infos: seq<Info>, m: nat, records: seq<Record>)
    requires ValidEnv(e) && Loadable(e, infos, m) && RecordsOf(infos, records)
    ensures Readable(e, records, m)
  {
    forall k | 0 <= k < |records| ensures ReadableAt(e, records, m, k) {
      assert LoadableAt(e, infos, k, m);
    }
    forall j, k | 0 <= j < k < |records| ensures Differ(records, j, k) {
      assert Apart(e, infos, j, k);
    }
  }

  lemma {:induction false} LoadAllNewOk(e: Env, infos: seq<Info>, m: nat, records: seq<Record>, n: nat)
    requires ValidEnv(e) && Loadable(e, infos, m) && RecordsOf(infos, records) && n <= m
    ensures Loaded(infos, n, LoadAllNew(e, records, n))
    decreases n
  {
    if n > 0 {
      LoadAllNewOk(e, infos, m, records, n - 1);
      assert LoadableAt(e, infos, n - 1, m);
      LoadNewLoads(e, infos, n - 1, LoadAllNew(e, records, n - 1));
    }
  }

  /** Every tried record finds its cell free. */
  lemma CellIsFree(e: Env, infos: seq<Info>, m: nat, records: seq<Record>, n: nat)
    requires ValidEnv(e) && Loadable(e, infos, m) && RecordsOf(infos, records) && m <= n < |infos|
    ensures TriedCell(e, infos[n].addr) !in LoadAllTried(e, records, m, n).triedTable
  {
    InfosReadable(e, infos, m, records);
    LoadAllTriedRead(e, records, m, n);
    FreeIfFirst(e, records, m, n, LoadAllTried(e, records, m, n));
    forall j | m <= j < n ensures TriedCell(e, records[j].addr) != TriedCell(e, records[n].addr) {
      assert Apart(e, infos, j, n) && LoadableAt(e, infos, j, m) && LoadableAt(e, infos, n, m);
    }
  }

  lemma {:induction false} LoadAllTriedOk(e: Env, infos: seq<Info>, m: nat, records: seq<Record>, n: nat)
    requires ValidEnv(e) && Loadable(e, infos, m) && RecordsOf(infos, records) && m <= n <= |infos|
    ensures Loaded(infos, n, LoadAllTried(e, records, m, n))
    decreases n
  {
    if n == m {
      LoadAllNewOk(e, infos, m, records, m);
    } else {
      LoadAllTriedOk(e, infos, m, records, n - 1);
      CellIsFree(e, infos, m, records, n - 1);
      assert LoadableAt(e, infos, n - 1, m);
      LoadTriedLoads(e, infos, n - 1, LoadAllTried(e, records, m, n - 1));
    }
  }

  lemma LoadedOk(e: Env, infos: seq<Info>, m: nat, records: seq<Record>) returns (t: State)
    requires ValidEnv(e) && Loadable(e, infos, m) && RecordsOf(infos, records)
    ensures t == LoadAllTried(e, records, m, |records|)
    ensures Loaded(infos, |infos|, t) && Consistent(e, t, Range(m), {})
  {
    t := LoadAllTried(e, records, m, |records|);
    LoadAllTriedOk(e, infos, m, records, |records|);
    InfosReadable(e, infos, m, records);
    LoadAllTriedRead(e, records, m, |records|);
  }

  lemma PlacedOk(e: Env, s: State, ids: seq<Id>, m: nat, t: State)
    requires ValidEnv(e) && NewOk(e, s, {}) && AllValid(e, s)
    requires Known(s, ids) && Distinct(ids) && Split(s, ids, m) && Listed(s, ids[..m])
    requires Loaded(Infos(s, ids), |ids|, t)
    ensures forall id :: 0 <= id < m ==> id in t.info
    ensures var table := Renamed(s, ids[..m]);
            PlaceAll(e, t, BucketLists(table, e.newBuckets, e.bucketSize), 0, m, true) == Filled(t, table)
  {
    var table := Renamed(s, ids[..m]);
    TablePlaceable(e, s, ids, m, t);
    assert forall id :: 0 <= id < m ==> id in Range(|ids|);
    forall k | k in t.info ensures t.info[k].refCount == 0 {
      LoadedRefs(e, s, ids, m, t, k);
    }
    StageStart(t, table);
    PlaceAllOk(e, t, m, table, 0);
    StageEnd(e, t, m, table);
  }

  lemma EntrySame(e: Env, s: State, ids: seq<Id>, m: nat, t: State, k: nat)
    requires ValidEnv(e) && NewOk(e, s, {}) && Known(s, ids) && Distinct(ids) && Split(s, ids, m) && Listed(s, ids[..m])
    requires Loaded(Infos(s, ids), |ids|, t) && k < |ids|
    ensures SameEntry(s, ids, Filled(t, Renamed(s, ids[..m])), k)
  {
    assert k in Range(|ids|);
    assert LoadedAt(Infos(s, ids), t, k);
    LoadedRefs(e, s, ids, m, t, k);
  }

  lemma SameNewTable(s: State, ids: seq<Id>, m: nat)
    requires m <= |ids| && Listed(s, ids[..m])
    ensures SameTable(s.newTable, ids, Renamed(s, ids[..m]))
  {
    var table := Renamed(s, ids[..m]);
    forall c | c in table ensures 0 <= table[c] < |ids| && ids[table[c]] == s.newTable[c] {
      assert ids[table[c]] == ids[..m][table[c]];
    }
  }

  lemma SameTriedTable(e: Env, s: State, ids: seq<Id>, t: State)
    requires ValidEnv(e) && TriedOk(e, s) && TriedOk(e, t) && Enumerates(ids, s) && t.info.Keys == Range(|ids|)
    requires forall k :: 0 <= k < |ids| ==> SameEntry(s, ids, t, k)
    ensures SameTable(s.triedTable, ids, t.triedTable)
  {
    forall c | c in t.triedTable ensures 0 <= t.triedTable[c] < |ids| && c in s.triedTable && ids[t.triedTable[c]] == s.triedTable[c] {
      var k := t.triedTable[c];
      TriedFrom(e, t, c);
      assert k in Range(|ids|);
      assert SameEntry(s, ids, t, k);
      TriedAt(e, s, ids[k]);
    }
    forall c | c in s.triedTable ensures c in t.triedTable {
      TriedFrom(e, s, c);
      var k := IndexOf(ids, s.triedTable[c]);
      assert SameEntry(s, ids, t, k);
      TriedAt(e, t, k);
    }
    assert s.triedTable.Keys == t.triedTable.Keys;
  }

  lemma SameNumbers(e: Env, s: State, ids: seq<Id>, t: State)
    requires CountOk(e, s, false, {}) && CountOk(e, s, true, {}) && CountOk(e, t, false, {}) && CountOk(e, t, true, {})
    requires Enumerates(ids, s) && t.info.Keys == Range(|ids|) && forall k :: 0 <= k < |ids| ==> SameEntry(s, ids, t, k)
    ensures t.nNew == s.nNew && t.nTried == s.nTried
    ensures forall net :: CountOf(t.counts, net) == CountOf(s.counts, net)
  {
    SameNet(e, s, ids, t, false, 0);
    SameNet(e, s, ids, t, true, 0);
    forall net ensures CountOf(t.counts, net) == CountOf(s.counts, net) {
      SameNet(e, s, ids, t, false, net);
      SameNet(e, s, ids, t, true, net);
      assert CountAt(t, false, net) == CountAt(s, false, net) && CountAt(t, true, net) == CountAt(s, true, net);
    }
  }

  /** Nothing is pruned. */
  lemma {:induction false} PruneNone(e: Env, s: State, walk: seq<Id>)
    requires Ordered(e, s) && forall id :: id in s.info ==> s.info[id].inTried || s.info[id].refCount != 0
    ensures Prune(e, s, walk) == s
    decreases |walk|
  {
    if walk != [] {
      PruneNone(e, s, walk[1..]);
    }
  }

  // ----- The numbers are within the bounds of the tables -----

  function Row(b: nat, m: nat): (r: set<Cell>)
    ensures forall p: nat :: p < m ==> Cell(b, p) in r
  {
    if m == 0 then {} else Row(b, m - 1) + {Cell(b, m - 1)}
  }

  function Grid(n: nat, m: nat): (r: set<Cell>)
    ensures forall b: nat, p: nat :: b < n && p < m ==> Cell(b, p) in r
  {
    if n == 0 then {} else Grid(n - 1, m) + Row(n - 1, m)
  }

  lemma UnionCard<T>(a: set<T>, b: set<T>)
    ensures |a + b| <= |a| + |b|
  {
    assert a + b == a + (b - a);
    SubsetCard(b - a, b);
  }

  lemma {:induction false} RowCard(b: nat, m: nat)
    ensures |Row(b, m)| <= m
  {
    if m > 0 {
      RowCard(b, m - 1);
      UnionCard(Row(b, m - 1), {Cell(b, m - 1)});
    }
  }

  lemma {:induction false} GridCard(n: nat, m: nat)
    ensures |Grid(n, m)| <= n * m
  {
    if n > 0 {
      GridCard(n - 1, m);
      RowCard(n - 1, m);
      UnionCard(Grid(n - 1, m), Row(n - 1, m));
      assert n * m == (n - 1) * m + m;
    }
  }

  /** Entries with cells of their own are no more than the cells. */
  lemma {:induction false} OwnersCard(table: map<Cell, Id>, a: set<Id>)
    requires forall x :: x in a ==> Refs(table, x) != {}
    ensures |a| <= |table.Keys|
    decreases |a|
  {
    if a != {} {
      var x := Pick(a);
      var c := Pick(Refs(table, x));
      var rest := table - {c};
      forall y | y in a - {x} ensures Refs(rest, y) != {} {
        var d := Pick(Refs(table, y));
        assert d in Refs(rest, y);
      }
      OwnersCard(rest, a - {x});
      assert rest.Keys == table.Keys - {c};
    }
  }

  lemma TableBound(table: map<Cell, Id>, a: set<Id>, n: nat, m: nat)
    requires (forall x :: x in a ==> Refs(table, x) != {}) && (forall c :: c in table ==> c.bucket < n && c.pos < m)
    ensures |a| <= n * m
  {
    OwnersCard(table, a);
    forall c | c in table.Keys ensures c in Grid(n, m) {
      assert Cell(c.bucket, c.pos) == c;
    }
    SubsetCard(table.Keys, Grid(n, m));
    GridCard(n, m);
  }

  lemma NumbersFit(e: Env, s: State)
    requires Consistent(e, s, {}, {})
    ensures s.nNew <= e.newBuckets * e.bucketSize && s.nTried <= e.triedBuckets * e.bucketSize
  {
    forall id | id in Members(s, false, {}) ensures Refs(s.newTable, id) != {} {
      RefsAt(e, s, id, {});
    }
    TableBound(s.newTable, Members(s, false, {}), e.newBuckets, e.bucketSize);
    forall id | id in Members(s, true, {}) ensures Refs(s.triedTable, id) != {} {
      TriedAt(e, s, id);
      assert TriedCell(e, s.info[id].addr) in Refs(s.triedTable, id);
    }
    TableBound(s.triedTable, Members(s, true, {}), e.triedBuckets, e.bucketSize);
  }

  /** The rebuilt state is consistent and the same as the written one. */
  lemma RebuiltSame(e: Env, f: File, s: State, ids: seq<Id>, m: nat) returns (u: State)
    requires Consistent(e, s, {}, {}) && AllValid(e, s) && Describes(e, f, s, ids, m)
    ensures u == Rebuilt(e, f, f.checksum) && Consistent(e, u, {}, {}) && SameUpToIds(e, s, ids, u)
  {
    var t := RebuiltOk(e, f, s, ids, m);
    u := Filled(t, Renamed(s, ids[..m]));
    FilledConsistent(e, s, ids, m, t);
    FilledEntries(e, s, ids, m, t);
    SameParts(e, s, ids, m, u);
  }

  lemma FilledConsistent(e: Env, s: State, ids: seq<Id>, m: nat, t: State)
    requires ValidEnv(e) && NewOk(e, s, {}) && AllValid(e, s)
    requires Known(s, ids) && Distinct(ids) && Split(s, ids, m) && Listed(s, ids[..m])
    requires Loaded(Infos(s, ids), |ids|, t) && Consistent(e, t, Range(m), {})
    ensures Consistent(e, Filled(t, Renamed(s, ids[..m])), {}, {})
  {
    var table := Renamed(s, ids[..m]);
    TablePlaceable(e, s, ids, m, t);
    forall k | k in t.info ensures |Refs(table, k)| == 0 <==> t.info[k].inTried {
      LoadedRefs(e, s, ids, m, t, k);
    }
    FilledKeeps(e, t, m, table, Range(m));
  }

  lemma FilledEntries(e: Env, s: State, ids: seq<Id>, m: nat, t: State)
    requires ValidEnv(e) && NewOk(e, s, {}) && Known(s, ids) && Distinct(ids) && Split(s, ids, m) && Listed(s, ids[..m])
    requires Loaded(Infos(s, ids), |ids|, t)
    ensures var u := Filled(t, Renamed(s, ids[..m]));
            u.info.Keys == Range(|ids|) && forall k :: 0 <= k < |ids| ==> SameEntry(s, ids, u, k)
  {
    var u := Filled(t, Renamed(s, ids[..m]));
    forall k | 0 <= k < |ids| ensures SameEntry(s, ids, u, k) {
      EntrySame(e, s, ids, m, t, k);
    }
    assert u.info.Keys == t.info.Keys;
  }

  lemma SameParts(e: Env, s: State, ids: seq<Id>, m: nat, u: State)
    requires Consistent(e, s, {}, {}) && Consistent(e, u, {}, {})
    requires Enumerates(ids, s) && m <= |ids| && Listed(s, ids[..m]) && u.newTable == Renamed(s, ids[..m])
    requires u.info.Keys == Range(|ids|) && forall k :: 0 <= k < |ids| ==> SameEntry(s, ids, u, k)
    ensures SameUpToIds(e, s, ids, u)
  {
    SameNewTable(s, ids, m);
    SameTriedTable(e, s, ids, u);
    SameNumbers(e, s, ids, u);
  }

  // ----- The check that ends the reader -----

  lemma SameSet<T>(a: set<T>, b: set<T>)
    requires forall x :: x in a <==> x in b
    ensures a == b
  {}

  lemma RandomDistinct(s: State)
    requires RandomOk(s)
    ensures Distinct(s.random) && forall id :: id in s.info.Keys <==> id in s.random
  {
    forall i, j | 0 <= i < j < |s.random| ensures s.random[i] != s.random[j] {
      assert s.info[s.random[i]].randomPos == i && s.info[s.random[j]].randomPos == j;
    }
    forall id | id in s.info ensures id in s.random {
      assert s.random[s.info[id].randomPos] == id;
    }
  }

  lemma MembersCard(s: State)
    ensures |s.info| == |Members(s, false, {})| + |Members(s, true, {})|
  {
    var a, b := Members(s, false, {}), Members(s, true, {});
    assert forall id :: id in s.info.Keys <==> id in a + b;
    SameSet(s.info.Keys, a + b);
    assert a * b == {};
    assert |s.info| == |s.info.Keys|;
  }

  /** The random order has as many places as there are entries. */
  lemma RandomSize(s: State)
    requires RandomOk(s)
    ensures |s.random| == |s.info|
  {
    RandomDistinct(s);
    ListLength(s.random, s.info.Keys);
    assert |s.info| == |s.info.Keys|;
  }

  /** Places that have been given to some entries, one each. */
  ghost function PlacesOf(s: State, ids: set<Id>): set<int> {
    set id | id in ids && id in s.info :: s.info[id].randomPos
  }

  lemma {:induction false} PlacesCard(s: State, ids: set<Id>)
    requires ids <= s.info.Keys && forall id :: id in s.info ==> EntryChecked(s, id)
    ensures |PlacesOf(s, ids)| == |ids|
    decreases |ids|
  {
    if ids == {} {
      assert PlacesOf(s, ids) == {};
    } else {
      var id := Pick(ids);
      PlacesCard(s, ids - {id});
      assert EntryChecked(s, id);
      var p := s.info[id].randomPos;
      forall x | x in ids - {id} ensures s.info[x].randomPos != p {
        assert EntryChecked(s, x);
      }
      assert PlacesOf(s, ids) == PlacesOf(s, ids - {id}) + {p};
    }
  }

  /** No place is unused if there are as many places as entries. */
  lemma EveryPlaceUsed(s: State)
    requires (forall id :: id in s.info ==> EntryChecked(s, id)) && |s.random| == |s.info|
    ensures RandomOk(s)
  {
    var all := PlacesOf(s, s.info.Keys);
    PlacesCard(s, s.info.Keys);
    RangeCard(|s.random|);
    forall p | p in all ensures p in Range(|s.random|) {
      var id :| id in s.info && s.info[id].randomPos == p;
      assert EntryChecked(s, id);
    }
    SubsetSame(all, Range(|s.random|));
    forall p | 0 <= p < |s.random| ensures s.random[p] in s.info && s.info[s.random[p]].randomPos == p {
      assert p in all;
      var id :| id in s.info && s.info[id].randomPos == p;
      assert EntryChecked(s, id);
    }
    forall id | id in s.info ensures 0 <= s.info[id].randomPos < |s.random| && s.random[s.info[id].randomPos] == id {
      assert EntryChecked(s, id);
    }
  }

  lemma SubsetSame<T>(a: set<T>, b: set<T>)
    requires a <= b && |a| == |b|
    ensures a == b
  {
    assert b == a + (b - a);
  }

  lemma NetworksCounted(e: Env, s: State)
    requires CountOk(e, s, false, {}) && CountOk(e, s, true, {})
    ensures Networks(e, s) <= s.counts.Keys && CountsChecked(e, s)
  {
    forall net | net in Networks(e, s) ensures net in s.counts.Keys {
      var id :| id in s.info && NetOf(e, s.info[id]) == net;
      assert id in NetMembers(e, s, s.info[id].inTried, {}, net);
      assert CountAt(s, s.info[id].inTried, net) == |NetMembers(e, s, s.info[id].inTried, {}, net)|;
    }
    SubsetCard(Networks(e, s), s.counts.Keys);
    assert |s.counts| == |s.counts.Keys|;
    forall net | net in s.counts
      ensures s.counts[net].nNew == |NetMembers(e, s, false, {}, net)| && s.counts[net].nTried == |NetMembers(e, s, true, {}, net)|
    {
      assert CountAt(s, false, net) == |NetMembers(e, s, false, {}, net)| && CountAt(s, true, net) == |NetMembers(e, s, true, {}, net)|;
    }
  }

  lemma CountersComplete(e: Env, s: State, tried: bool)
    requires CountsChecked(e, s) && Networks(e, s) <= s.counts.Keys && Total(s, tried) == |Members(s, tried, {})|
    ensures CountOk(e, s, tried, {})
  {
    forall net ensures CountAt(s, tried, net) == |NetMembers(e, s, tried, {}, net)| {
      if net !in s.counts {
        forall id ensures id !in NetMembers(e, s, tried, {}, net) {
          if id in s.info { assert NetOf(e, s.info[id]) in Networks(e, s); }
        }
        assert NetMembers(e, s, tried, {}, net) == {};
      }
    }
  }

  lemma EntryPasses(e: Env, s: State, id: Id)
    requires Consistent(e, s, {}, {}) && id in s.info
    ensures EntryChecked(s, id)
  {
    RefsAt(e, s, id, {});
    TimeAt(s, id);
  }

  /** A consistent state passes the check, unless the key is null. */
  lemma ConsistentPasses(e: Env, s: State)
    requires Consistent(e, s, {}, {})
    ensures Unchecked(e, s) && (Checked(e, s) <==> e.key != 0)
  {
    RandomSize(s);
    MembersCard(s);
    NetworksCounted(e, s);
    forall id | id in s.info ensures EntryChecked(s, id) {
      EntryPasses(e, s, id);
    }
  }

  lemma EntriesConsistent(s: State)
    requires forall id :: id in s.info ==> EntryChecked(s, id)
    requires forall a :: a in s.byAddr ==> s.byAddr[a] in s.info && s.info[s.byAddr[a]].addr == a
    ensures AddrOk(s) && TimesOk(s)
  {
    forall id | id in s.info
      ensures s.info[id].addr in s.byAddr && s.byAddr[s.info[id].addr] == id
      ensures s.info[id].lastTry >= 0 && s.info[id].lastSuccess >= 0 && (s.info[id].inTried ==> s.info[id].lastSuccess > 0)
    {
      assert EntryChecked(s, id);
    }
  }

  lemma PassesConsistent(e: Env, s: State)
    requires ValidEnv(e) && Checked(e, s) && Unchecked(e, s)
    ensures Consistent(e, s, {}, {})
  {
    MembersCard(s);
    EveryPlaceUsed(s);
    EntriesConsistent(s);
    CountersComplete(e, s, false);
    CountersComplete(e, s, true);
  }

  /** Full consistency is what the check looks at and what it does not. */
  lemma CheckedExactly(e: Env, s: State)
    requires ValidEnv(e)
    ensures Consistent(e, s, {}, {}) && e.key != 0 <==> Checked(e, s) && Unchecked(e, s)
  {
    if Consistent(e, s, {}, {}) {
      ConsistentPasses(e, s);
    } else if Checked(e, s) && Unchecked(e, s) {
      PassesConsistent(e, s);
    }
  }

  /** Whatever a file holds: a state that the reader accepts is sound under the file's key, and all its
      addresses are valid. */
  lemma AcceptedIsSound(e: Env, f: File, checksum: nat, walk: seq<Id>)
    requires ValidEnv(e) && Unserialize(e, f, checksum, walk).Some?
    ensures var t := Unserialize(e, f, checksum, walk).value; Sound(Keyed(e, f), t) && AllValid(e, t)
  {
    var e' := Keyed(e, f);
    RebuiltOrdered(e', f, checksum);
    PruneOrdered(e', Rebuilt(e', f, checksum), walk);
    AcceptedOrdered(e', Prune(e', Rebuilt(e', f, checksum), walk));
  }

  lemma AcceptedOrdered(e: Env, t: State)
    requires ValidEnv(e) && Ordered(e, t) && Checked(e, t)
    ensures Sound(e, t) && AllValid(e, t)
  {
    CheckedExactly(e, t);
    forall id | id in t.info ensures e.valid(t.info[id].addr.host) {
      assert EntryChecked(t, id);
    }
  }

  /** Reading back the file of any consistent address manager whose addresses are valid succeeds exactly
      if its key is not null, whatever the order in which the maps are walked, and loses no entry: the
      result is sound under the same key, and tables, reference counts and counters are as before, up
      to the renaming of ids. */
  lemma RoundTrip(e: Env, s: State, order: seq<Id>, checksum: nat, walk: seq<Id>, reader: Env)
    requires Consistent(e, s, {}, {}) && Enumerates(order, s) && AllValid(e, s) && e == reader.(key := e.key)
    ensures ValidEnv(reader)
    ensures var r := Unserialize(reader, Serialize(e, s, order, checksum), checksum, walk);
            && (r.Some? <==> e.key != 0)
            && (r.Some? ==> Sound(e, r.value) && SameUpToIds(e, s, FileOrder(s, order), r.value))
  {
    var f, ids, m := Serialize(e, s, order, checksum), FileOrder(s, order), |Chosen(s, order, false)|;
    SerializeDescribes(e, s, order, checksum);
    var u := RebuiltSame(e, f, s, ids, m);
    NumbersFit(e, s);
    RebuiltOrdered(e, f, checksum);
    assert Keyed(reader, f) == e;
    assert forall id :: id in u.info ==> u.info[id].inTried || u.info[id].refCount != 0;
    PruneNone(e, u, walk);
    ConsistentPasses(e, u);
  }

  /** No run from the start reaches a state that fails the check or one of the conditions that the check
      does not look at, and every such state can be written and read back. */
  lemma RunsPass(e: Env, ops: seq<Op>)
    requires ValidEnv(e) && e.key != 0 && (forall h :: e.routable(h) ==> e.valid(h)) && forall op :: op in ops ==> ValidOp(op)
    ensures Sound(e, EMPTY)
    ensures var s := Run(e, EMPTY, ops); Checked(e, s) && Unchecked(e, s) && AllValid(e, s)
  {
    EmptySound(e);
    RunSound(e, EMPTY, ops);
    RunRoutable(e, EMPTY, ops);
    ConsistentPasses(e, Run(e, EMPTY, ops));
  }
}
