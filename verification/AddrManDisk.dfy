/** Writing the address manager to disk and reading it back. The file lists the entries and, for each
    new bucket, which entries it holds; ids, positions, indexes, reference counts and counters are
    rebuilt on reading. */
module AddrManDisk {
  import opened Collections
  import opened AddrManState
  import opened AddrManSpec

  /** What is written of an entry. */
  datatype Record = Record(addr: Service, services: set<nat>, time: int, source: Host, lastSuccess: int, attempts: int)

  /** The records of the new entries come first, then those of the tried entries. */
  datatype File = File(key: nat, nNew: int, nTried: int, records: seq<Record>, buckets: seq<seq<int>>, checksum: nat)

  /** The time of an entry is written as 32 bits. */
  function OnDisk(time: int): int {
    time % 0x1_0000_0000
  }

  function ToRecord(i: Info): Record {
    Record(i.addr, i.services, OnDisk(i.time), i.source, i.lastSuccess, i.attempts)
  }

  // ----- Writing -----

  /** `order` lists the ids as the map of entries is walked. */
  ghost predicate Enumerates(order: seq<Id>, s: State) {
    && (forall i, j :: 0 <= i < j < |order| ==> order[i] != order[j])
    && Known(s, order)
    && (forall id :: id in s.info ==> id in order)
  }

  predicate Known(s: State, ids: seq<Id>) {
    forall i :: 0 <= i < |ids| ==> ids[i] in s.info
  }

  /** The new entries are those with references. */
  predicate Picked(i: Info, tried: bool) {
    if tried then i.inTried else i.refCount != 0
  }

  lemma PickedOk(e: Env, s: State, id: Id, tried: bool)
    requires Consistent(e, s, {}, {}) && id in s.info
    ensures Picked(s.info[id], tried) <==> s.info[id].inTried == tried
  {}

  /** The tried or the new entries, in order. */
  function Chosen(s: State, order: seq<Id>, tried: bool): (r: seq<Id>)
    requires Known(s, order)
    ensures Known(s, r) && forall id :: id in r <==> id in order && id in s.info && Picked(s.info[id], tried)
  {
    if order == [] then []
    else
      var rest := Chosen(s, order[1..], tried);
      if Picked(s.info[order[0]], tried) then [order[0]] + rest else rest
  }

  function Records(s: State, ids: seq<Id>): seq<Record>
    requires Known(s, ids)
  {
    seq(|ids|, k requires 0 <= k < |ids| => ToRecord(s.info[ids[k]]))
  }

  function IndexOf(ids: seq<Id>, id: Id): (k: nat)
    requires id in ids
    ensures k < |ids| && ids[k] == id
  {
    if ids[0] == id then 0 else 1 + IndexOf(ids[1..], id)
  }

  /** Every cell of the new table holds a listed id. */
  ghost predicate Listed(s: State, ids: seq<Id>) {
    forall c :: c in s.newTable ==> s.newTable[c] in ids
  }

  lemma NewAreListed(e: Env, s: State, order: seq<Id>)
    requires Consistent(e, s, {}, {}) && Enumerates(order, s)
    ensures Listed(s, Chosen(s, order, false))
  {
    forall c | c in s.newTable ensures s.newTable[c] in Chosen(s, order, false) {
      var id, r := s.newTable[c], Chosen(s, order, false);
      assert id in s.info && !s.info[id].inTried && id in order;
      PickedOk(e, s, id, false);
      assert id in r;
    }
  }

  /** The new table with ids replaced by their index in the file. */
  ghost function Renamed(s: State, ids: seq<Id>): map<Cell, Id>
    requires Listed(s, ids)
  {
    map c | c in s.newTable :: IndexOf(ids, s.newTable[c])
  }

  /** The entries of a bucket from position p on. */
  function BucketList(table: map<Cell, Id>, bucket: nat, p: nat, size: nat): seq<int>
    requires p <= size
    decreases size - p
  {
    if p == size then []
    else if Cell(bucket, p) in table then [table[Cell(bucket, p)]] + BucketList(table, bucket, p + 1, size)
    else BucketList(table, bucket, p + 1, size)
  }

  function BucketLists(table: map<Cell, Id>, buckets: nat, size: nat): seq<seq<int>> {
    seq(buckets, b requires 0 <= b < buckets => BucketList(table, b, 0, size))
  }

  /** `Serialize`. */
  ghost function Serialize(e: Env, s: State, order: seq<Id>, checksum: nat): File
    requires Consistent(e, s, {}, {}) && Enumerates(order, s)
  {
    var ids := Chosen(s, order, false);
    NewAreListed(e, s, order);
    File(e.key, s.nNew, s.nTried, Records(s, ids + Chosen(s, order, true)),
         BucketLists(Renamed(s, ids), e.newBuckets, e.bucketSize), checksum)
  }

  // ----- Reading -----

  /** Append an entry that has no cell yet. */
  function LoadNew(e: Env, s: State, r: Record): State {
    var t := Create(e, s, r.addr, r.services, r.time, r.source);
    Touch(t, s.idCount, t.info[s.idCount].(lastSuccess := r.lastSuccess, attempts := r.attempts))
  }

  /** Append a tried entry if its cell is free. */
  ghost function LoadTried(e: Env, s: State, r: Record): State
    requires ValidEnv(e)
  {
    var c, id := TriedCell(e, r.addr), s.idCount;
    if e.valid(r.addr.host) && c !in s.triedTable
    then
      s.(idCount := id + 1, byAddr := s.byAddr[r.addr := id], random := s.random + [id],
         info := s.info[id := Info(r.addr, r.services, r.time, r.source, 0, 0, r.lastSuccess, r.attempts, 0, true, |s.random|)],
         triedTable := s.triedTable[c := id],
         nTried := s.nTried + 1, counts := AddCount(s.counts, e.network(r.addr.host), 0, 1))
    else s
  }

  /** The state after the first m records have been loaded as new entries. */
  function LoadAllNew(e: Env, records: seq<Record>, m: nat): State
    requires m <= |records|
  {
    if m == 0 then EMPTY else LoadNew(e, LoadAllNew(e, records, m - 1), records[m - 1])
  }

  /** The state after the first n records, of which those from the m-th on are tried entries. */
  ghost function LoadAllTried(e: Env, records: seq<Record>, m: nat, n: nat): State
    requires ValidEnv(e) && m <= n <= |records|
    decreases n
  {
    if n == m then LoadAllNew(e, records, m) else LoadTried(e, LoadAllTried(e, records, m, n - 1), records[n - 1])
  }

  lemma {:induction false} NewIdsKnown(e: Env, records: seq<Record>, m: nat, id: Id)
    requires m <= |records|
    ensures LoadAllNew(e, records, m).idCount == m && (0 <= id < m ==> id in LoadAllNew(e, records, m).info)
  {
    if m > 0 { NewIdsKnown(e, records, m - 1, id); }
  }

  lemma {:induction false} TriedIdsKnown(e: Env, records: seq<Record>, m: nat, n: nat, id: Id)
    requires ValidEnv(e) && m <= n <= |records| && 0 <= id < m
    ensures id in LoadAllTried(e, records, m, n).info
    decreases n
  {
    if m < n { TriedIdsKnown(e, records, m, n - 1, id); } else { NewIdsKnown(e, records, m, id); }
  }

  /** The entries that the buckets of a file can name. */
  lemma LoadedIds(e: Env, records: seq<Record>, m: nat)
    requires ValidEnv(e) && m <= |records|
    ensures forall id :: 0 <= id < m ==> id in LoadAllTried(e, records, m, |records|).info
  {
    forall id | 0 <= id < m ensures id in LoadAllTried(e, records, m, |records|).info {
      TriedIdsKnown(e, records, m, |records|, id);
    }
  }

  /** Give an entry its reference in a bucket, or failing that in the bucket of its own source. */
  ghost function PlaceEntry(e: Env, s: State, bucket: nat, id: Id, restore: bool): State
    requires ValidEnv(e) && id in s.info
  {
    var i := s.info[id];
    var c, home := Cell(bucket, Position(e, i.addr, true, bucket)), NewCell(e, i.addr, i.source);
    if !e.valid(i.addr.host) || i.refCount >= MAX_REFS then s
    else if restore && c !in s.newTable then AddRef(s, id, c)
    else if home !in s.newTable then AddRef(s, id, home)
    else s
  }

  ghost function PlaceList(e: Env, s: State, bucket: nat, list: seq<int>, nNew: int, restore: bool): (t: State)
    requires ValidEnv(e) && forall id :: 0 <= id < nNew ==> id in s.info
    ensures t.info.Keys == s.info.Keys
    decreases |list|
  {
    if list == [] then s
    else if 0 <= list[0] < nNew then PlaceList(e, PlaceEntry(e, s, bucket, list[0], restore), bucket, list[1..], nNew, restore)
    else PlaceList(e, s, bucket, list[1..], nNew, restore)
  }

  ghost function PlaceAll(e: Env, s: State, buckets: seq<seq<int>>, b: nat, nNew: int, restore: bool): (t: State)
    requires ValidEnv(e) && b <= |buckets| && forall id :: 0 <= id < nNew ==> id in s.info
    ensures t.info.Keys == s.info.Keys
    decreases |buckets| - b
  {
    if b == |buckets| then s
    else PlaceAll(e, PlaceList(e, s, b, buckets[b], nNew, restore), buckets, b + 1, nNew, restore)
  }

  // ----- What loading keeps -----

  lemma LoadNewKeeps(e: Env, s: State, r: Record, limbo: set<Id>)
    requires Consistent(e, s, limbo, {}) && r.addr !in s.byAddr && r.lastSuccess >= 0
    ensures Consistent(e, LoadNew(e, s, r), limbo + {s.idCount}, {})
  {
    var t := Create(e, s, r.addr, r.services, r.time, r.source);
    CreateKeeps(e, s, r.addr, r.services, r.time, r.source, limbo, limbo + {s.idCount});
    TouchKeeps(e, t, s.idCount, t.info[s.idCount].(lastSuccess := r.lastSuccess, attempts := r.attempts), limbo + {s.idCount}, {});
  }

  lemma CountsCancel(counts: map<Network, Count>, net: Network)
    ensures AddCount(AddCount(AddCount(counts, net, 1, 0), net, -1, 0), net, 0, 1) == AddCount(counts, net, 0, 1)
  {}

  /** Loading a tried entry is loading a new one and moving it to its cell. */
  lemma LoadTriedIsMove(e: Env, s: State, r: Record)
    requires ValidEnv(e) && e.valid(r.addr.host) && TriedCell(e, r.addr) !in s.triedTable
    ensures var id := s.idCount;
            LoadTried(e, s, r) == PlaceTried(e, UncountNew(e, LoadNew(e, s, r), id), id, TriedCell(e, r.addr))
  {
    CountsCancel(s.counts, e.network(r.addr.host));
    var id, t := s.idCount, LoadNew(e, s, r);
    assert PlaceTried(e, UncountNew(e, t, id), id, TriedCell(e, r.addr)).info == LoadTried(e, s, r).info;
  }

  lemma LoadTriedKeeps(e: Env, s: State, r: Record, limbo: set<Id>)
    requires Consistent(e, s, limbo, {}) && r.addr !in s.byAddr && r.lastSuccess > 0
    requires e.valid(r.addr.host) && TriedCell(e, r.addr) !in s.triedTable
    ensures Consistent(e, LoadTried(e, s, r), limbo, {})
  {
    var id, t := s.idCount, LoadNew(e, s, r);
    LoadTriedIsMove(e, s, r);
    LoadNewKeeps(e, s, r, limbo);
    UncountKeeps(e, t, id, limbo + {id}, {});
    AddToNone(id);
    PlaceTriedKeeps(e, UncountNew(e, t, id), id, limbo + {id}, {id});
    NotInLimbo(e, s, limbo);
    AddAndTake(limbo, id);
  }

  lemma NotInLimbo(e: Env, s: State, limbo: set<Id>)
    requires Consistent(e, s, limbo, {})
    ensures s.idCount !in limbo
  {}

  // ----- Loading what was written -----

  function Range(n: nat): (r: set<Id>)
    ensures forall i :: i in r <==> 0 <= i < n
  {
    if n == 0 then {} else Range(n - 1) + {n - 1}
  }

  /** An entry as it comes back, before it has references. */
  function Blank(i: Info, pos: int): Info {
    i.(time := OnDisk(i.time), lastTry := 0, lastCountAttempt := 0, refCount := 0, randomPos := pos)
  }

  /** The entries to load, in order: m new ones, then tried ones; all with different addresses, and the
      tried ones with different cells. */
  ghost predicate Loadable(e: Env, infos: seq<Info>, m: nat)
    requires ValidEnv(e)
  {
    && m <= |infos|
    && (forall k :: 0 <= k < |infos| ==> LoadableAt(e, infos, k, m))
    && (forall i, j :: 0 <= i < j < |infos| ==> Apart(e, infos, i, j))
  }

  predicate LoadableAt(e: Env, infos: seq<Info>, k: nat, m: nat)
    requires k < |infos|
  {
    var i := infos[k];
    i.inTried == (m <= k) && i.lastSuccess >= 0 && (i.inTried ==> i.lastSuccess > 0) && e.valid(i.addr.host)
  }

  ghost predicate Apart(e: Env, infos: seq<Info>, i: nat, j: nat)
    requires ValidEnv(e) && i < |infos| && j < |infos|
  {
    && infos[i].addr != infos[j].addr
    && (infos[i].inTried && infos[j].inTried ==> TriedCell(e, infos[i].addr) != TriedCell(e, infos[j].addr))
  }

  predicate LoadedAt(infos: seq<Info>, t: State, k: nat)
    requires k < |infos|
  {
    k in t.info && t.info[k] == Blank(infos[k], k)
  }

  /** The first n entries have been loaded. */
  ghost predicate Loaded(infos: seq<Info>, n: nat, t: State) {
    && n <= |infos| && t.info.Keys == Range(n) && t.idCount == n && |t.random| == n
    && (forall k :: 0 <= k < n ==> LoadedAt(infos, t, k))
    && t.newTable == map[] && t.collisions == []
  }

  lemma LoadNewLoads(e: Env, infos: seq<Info>, n: nat, t: State)
    requires n < |infos| && Loaded(infos, n, t) && !infos[n].inTried
    ensures Loaded(infos, n + 1, LoadNew(e, t, ToRecord(infos[n])))
  {
    var u := LoadNew(e, t, ToRecord(infos[n]));
    assert forall k :: k in u.info.Keys <==> k in Range(n + 1);
    forall k | 0 <= k < n ensures LoadedAt(infos, u, k) {
      assert LoadedAt(infos, t, k);
    }
  }

  lemma LoadTriedLoads(e: Env, infos: seq<Info>, n: nat, t: State)
    requires ValidEnv(e) && n < |infos| && Loaded(infos, n, t) && infos[n].inTried && e.valid(infos[n].addr.host)
    requires TriedCell(e, infos[n].addr) !in t.triedTable
    ensures Loaded(infos, n + 1, LoadTried(e, t, ToRecord(infos[n])))
  {
    var u := LoadTried(e, t, ToRecord(infos[n]));
    assert forall k :: k in u.info.Keys <==> k in Range(n + 1);
    forall k | 0 <= k < n ensures LoadedAt(infos, u, k) {
      assert LoadedAt(infos, t, k);
    }
  }

  predicate RecordsOf(infos: seq<Info>, records: seq<Record>) {
    |records| == |infos| && forall k :: 0 <= k < |records| ==> records[k] == ToRecord(infos[k])
  }

  // ----- Placing what was written -----

  predicate Before(c: Cell, b: nat, p: nat) {
    c.bucket < b || (c.bucket == b && c.pos < p)
  }

  function Restricted(table: map<Cell, Id>, b: nat, p: nat): map<Cell, Id> {
    map c | c in table && Before(c, b, p) :: table[c]
  }

  /** A table that the first m of the loaded entries can be placed in. */
  ghost predicate Placeable(e: Env, s: State, m: nat, table: map<Cell, Id>)
    requires ValidEnv(e)
  {
    && (forall c :: c in table ==> PlaceableAt(e, s, m, table, c))
    && (forall k :: k in s.info ==> |Refs(table, k)| <= MAX_REFS)
  }

  ghost predicate PlaceableAt(e: Env, s: State, m: nat, table: map<Cell, Id>, c: Cell)
    requires ValidEnv(e) && c in table
  {
    0 <= table[c] < m && table[c] in s.info && e.valid(s.info[table[c]].addr.host) && Fits(e, s.info[table[c]].addr, c)
  }

  /** The state with the cells before (b, p) filled from a table. */
  ghost function Stage(s: State, table: map<Cell, Id>, b: nat, p: nat): State {
    s.(newTable := Restricted(table, b, p),
       info := map k | k in s.info :: s.info[k].(refCount := |Refs(Restricted(table, b, p), k)|))
  }

  lemma FewerRefs(table: map<Cell, Id>, b: nat, p: nat)
    requires Cell(b, p) in table
    ensures |Refs(Restricted(table, b, p), table[Cell(b, p)])| < |Refs(table, table[Cell(b, p)])|
  {
    var id, c := table[Cell(b, p)], Cell(b, p);
    assert Refs(Restricted(table, b, p), id) <= Refs(table, id) - {c};
    SubsetCard(Refs(Restricted(table, b, p), id), Refs(table, id) - {c});
  }

  lemma SubsetCard<T>(a: set<T>, b: set<T>)
    requires a <= b
    ensures |a| <= |b|
  {
    assert b == a + (b - a);
  }

  lemma RestrictedNext(table: map<Cell, Id>, b: nat, p: nat)
    ensures Restricted(table, b, p + 1) ==
            if Cell(b, p) in table then Restricted(table, b, p)[Cell(b, p) := table[Cell(b, p)]] else Restricted(table, b, p)
  {
    assert forall c :: Before(c, b, p + 1) <==> Before(c, b, p) || c == Cell(b, p);
  }

  /** Filling the next cell is one more reference. */
  lemma StageHit(s: State, table: map<Cell, Id>, b: nat, p: nat)
    requires Cell(b, p) in table && table[Cell(b, p)] in s.info
    ensures AddRef(Stage(s, table, b, p), table[Cell(b, p)], Cell(b, p)) == Stage(s, table, b, p + 1)
  {
    var c, id := Cell(b, p), table[Cell(b, p)];
    RestrictedNext(table, b, p);
    var t, u := AddRef(Stage(s, table, b, p), id, c), Stage(s, table, b, p + 1);
    forall k | k in s.info ensures t.info[k] == u.info[k] {
      RefsAdded(Restricted(table, b, p), c, id, k);
    }
    assert t.info == u.info;
  }

  lemma PlaceHit(e: Env, s: State, m: nat, table: map<Cell, Id>, b: nat, p: nat)
    requires ValidEnv(e) && Placeable(e, s, m, table) && Cell(b, p) in table
    ensures var id := table[Cell(b, p)];
            && 0 <= id < m && id in s.info
            && PlaceEntry(e, Stage(s, table, b, p), b, id, true) == Stage(s, table, b, p + 1)
  {
    var c := Cell(b, p);
    assert PlaceableAt(e, s, m, table, c);
    FewerRefs(table, b, p);
    StageHit(s, table, b, p);
  }

  lemma StageMiss(s: State, table: map<Cell, Id>, b: nat, p: nat)
    requires Cell(b, p) !in table
    ensures Stage(s, table, b, p) == Stage(s, table, b, p + 1)
  {
    RestrictedNext(table, b, p);
  }

  lemma {:induction false} PlaceBucketOk(e: Env, s: State, m: nat, table: map<Cell, Id>, b: nat, p: nat)
    requires ValidEnv(e) && Placeable(e, s, m, table) && p <= e.bucketSize && forall id :: 0 <= id < m ==> id in s.info
    ensures PlaceList(e, Stage(s, table, b, p), b, BucketList(table, b, p, e.bucketSize), m, true) == Stage(s, table, b, e.bucketSize)
    decreases e.bucketSize - p
  {
    if p < e.bucketSize {
      PlaceBucketOk(e, s, m, table, b, p + 1);
      if Cell(b, p) in table {
        PlaceHit(e, s, m, table, b, p);
      } else {
        StageMiss(s, table, b, p);
      }
    }
  }

  lemma NextBucket(e: Env, s: State, m: nat, table: map<Cell, Id>, b: nat)
    requires ValidEnv(e) && Placeable(e, s, m, table)
    ensures Stage(s, table, b, e.bucketSize) == Stage(s, table, b + 1, 0)
  {
    forall c | c in table ensures Before(c, b + 1, 0) <==> Before(c, b, e.bucketSize) {
      assert PlaceableAt(e, s, m, table, c);
    }
    assert Restricted(table, b + 1, 0) == Restricted(table, b, e.bucketSize);
  }

  lemma {:induction false} PlaceAllOk(e: Env, s: State, m: nat, table: map<Cell, Id>, b: nat)
    requires ValidEnv(e) && Placeable(e, s, m, table) && b <= e.newBuckets && forall id :: 0 <= id < m ==> id in s.info
    ensures PlaceAll(e, Stage(s, table, b, 0), BucketLists(table, e.newBuckets, e.bucketSize), b, m, true) == Stage(s, table, e.newBuckets, 0)
    decreases e.newBuckets - b
  {
    if b < e.newBuckets {
      PlaceBucketOk(e, s, m, table, b, 0);
      NextBucket(e, s, m, table, b);
      PlaceAllOk(e, s, m, table, b + 1);
    }
  }

  lemma AllPlaced(e: Env, s: State, m: nat, table: map<Cell, Id>)
    requires ValidEnv(e) && Placeable(e, s, m, table)
    ensures Restricted(table, e.newBuckets, 0) == table
  {
    forall c | c in table ensures Before(c, e.newBuckets, 0) {
      assert PlaceableAt(e, s, m, table, c);
    }
  }

  // ----- The whole file -----

  /** Entries in the tables have valid addresses. */
  ghost predicate ValidPlaced(e: Env, s: State) {
    forall id :: id in s.info && (s.info[id].inTried || s.info[id].refCount != 0) ==> e.valid(s.info[id].addr.host)
  }

  /** What loading, placing and pruning keep, whatever the file says: the random order, and all that
      `CheckAddrman` does not look at. */
  ghost predicate Ordered(e: Env, s: State) {
    RandomOk(s) && Unchecked(e, s) && ValidPlaced(e, s) && s.collisions == []
  }

  lemma EmptyOrdered(e: Env)
    ensures Ordered(e, EMPTY)
  {}

  /** One more entry, of a network that is counted. */
  lemma NetworkAdded(e: Env, s: State, t: State, id: Id, i: Info)
    requires Networks(e, s) <= s.counts.Keys && t.info == s.info[id := i] && t.counts.Keys == s.counts.Keys + {NetOf(e, i)}
    ensures Networks(e, t) <= t.counts.Keys
  {
    forall net | net in Networks(e, t) ensures net in t.counts.Keys {
      var x :| x in t.info && NetOf(e, t.info[x]) == net;
      if x != id { assert NetOf(e, s.info[x]) in Networks(e, s); }
    }
  }

  lemma LoadNewOrdered(e: Env, s: State, r: Record)
    requires Ordered(e, s)
    ensures Ordered(e, LoadNew(e, s, r))
  {
    var t := LoadNew(e, s, r);
    assert s.idCount !in s.info;
    NetworkAdded(e, s, t, s.idCount, t.info[s.idCount]);
  }

  lemma LoadTriedOrdered(e: Env, s: State, r: Record)
    requires ValidEnv(e) && Ordered(e, s)
    ensures Ordered(e, LoadTried(e, s, r))
  {
    var t := LoadTried(e, s, r);
    assert s.idCount !in s.info;
    if t != s { NetworkAdded(e, s, t, s.idCount, t.info[s.idCount]); }
  }

  lemma {:induction false} LoadAllNewOrdered(e: Env, records: seq<Record>, m: nat)
    requires m <= |records|
    ensures Ordered(e, LoadAllNew(e, records, m))
  {
    if m == 0 {
      EmptyOrdered(e);
    } else {
      LoadAllNewOrdered(e, records, m - 1);
      LoadNewOrdered(e, LoadAllNew(e, records, m - 1), records[m - 1]);
    }
  }

  lemma {:induction false} LoadAllTriedOrdered(e: Env, records: seq<Record>, m: nat, n: nat)
    requires ValidEnv(e) && m <= n <= |records|
    ensures Ordered(e, LoadAllTried(e, records, m, n))
    decreases n
  {
    if n == m {
      LoadAllNewOrdered(e, records, m);
    } else {
      LoadAllTriedOrdered(e, records, m, n - 1);
      LoadTriedOrdered(e, LoadAllTried(e, records, m, n - 1), records[n - 1]);
    }
  }

  lemma FewerNetworks(e: Env, s: State, t: State)
    requires Networks(e, s) <= s.counts.Keys <= t.counts.Keys
    requires forall x :: x in t.info ==> x in s.info && t.info[x].addr == s.info[x].addr
    ensures Networks(e, t) <= t.counts.Keys
  {
    forall net | net in Networks(e, t) ensures net in t.counts.Keys {
      var x :| x in t.info && NetOf(e, t.info[x]) == net;
      assert NetOf(e, s.info[x]) in Networks(e, s);
    }
  }

  lemma AddRefOrdered(e: Env, s: State, id: Id, c: Cell)
    requires Ordered(e, s) && id in s.info && e.valid(s.info[id].addr.host)
    ensures Ordered(e, AddRef(s, id, c))
  {
    var t := AddRef(s, id, c);
    assert t.info.Keys == s.info.Keys;
    KeepsRandom(s, t);
    FewerNetworks(e, s, t);
  }

  lemma PlaceEntryOrdered(e: Env, s: State, bucket: nat, id: Id, restore: bool)
    requires ValidEnv(e) && Ordered(e, s) && id in s.info
    ensures Ordered(e, PlaceEntry(e, s, bucket, id, restore))
  {
    var i := s.info[id];
    if e.valid(i.addr.host) {
      AddRefOrdered(e, s, id, Cell(bucket, Position(e, i.addr, true, bucket)));
      AddRefOrdered(e, s, id, NewCell(e, i.addr, i.source));
    }
  }

  lemma {:induction false} PlaceListOrdered(e: Env, s: State, bucket: nat, list: seq<int>, nNew: int, restore: bool)
    requires ValidEnv(e) && Ordered(e, s) && forall id :: 0 <= id < nNew ==> id in s.info
    ensures Ordered(e, PlaceList(e, s, bucket, list, nNew, restore))
    decreases |list|
  {
    if list != [] {
      if 0 <= list[0] < nNew {
        PlaceEntryOrdered(e, s, bucket, list[0], restore);
        PlaceListOrdered(e, PlaceEntry(e, s, bucket, list[0], restore), bucket, list[1..], nNew, restore);
      } else {
        PlaceListOrdered(e, s, bucket, list[1..], nNew, restore);
      }
    }
  }

  lemma {:induction false} PlaceAllOrdered(e: Env, s: State, buckets: seq<seq<int>>, b: nat, nNew: int, restore: bool)
    requires ValidEnv(e) && Ordered(e, s) && b <= |buckets| && forall id :: 0 <= id < nNew ==> id in s.info
    ensures Ordered(e, PlaceAll(e, s, buckets, b, nNew, restore))
    decreases |buckets| - b
  {
    if b < |buckets| {
      PlaceListOrdered(e, s, b, buckets[b], nNew, restore);
      PlaceAllOrdered(e, PlaceList(e, s, b, buckets[b], nNew, restore), buckets, b + 1, nNew, restore);
    }
  }

  lemma DeleteOrdered(e: Env, s: State, id: Id)
    requires Ordered(e, s) && id in s.info
    ensures Ordered(e, Delete(e, s, id))
  {
    DeleteRandom(e, s, id);
    DeleteOthers(e, s, id);
    DeleteIndexes(e, s, id);
    FewerNetworks(e, s, Delete(e, s, id));
  }

  lemma DeleteRandom(e: Env, s: State, id: Id)
    requires RandomOk(s) && id in s.info
    ensures RandomOk(Delete(e, s, id))
  {
    SwapRandomOk(s, s.info[id].randomPos, |s.random| - 1);
    LandsAtEnd(s, id);
    DropLastRandom(e, MoveToEnd(s, id), id);
  }

  lemma DropLastRandom(e: Env, s: State, id: Id)
    requires RandomOk(s) && id in s.info && EndsWith(s, id)
    ensures RandomOk(DropLast(e, s, id))
  {}

  lemma DeleteIndexes(e: Env, s: State, id: Id)
    requires RandomOk(s) && id in s.info
    ensures var t := Delete(e, s, id); t.byAddr == s.byAddr - {s.info[id].addr} && s.counts.Keys <= t.counts.Keys
  {
    LandsAtEnd(s, id);
  }

  /** Forget the new entries that got no reference; `walk` is the order in which the entries are visited. */
  ghost function Prune(e: Env, s: State, walk: seq<Id>): State
    requires Ordered(e, s)
    decreases |walk|
  {
    if walk == [] then s
    else if walk[0] in s.info && !s.info[walk[0]].inTried && s.info[walk[0]].refCount == 0
    then DeleteOrdered(e, s, walk[0]); Prune(e, Delete(e, s, walk[0]), walk[1..])
    else Prune(e, s, walk[1..])
  }

  /** The entries and tables of a file, before pruning. */
  ghost function Rebuilt(e: Env, f: File, checksum: nat): State
    requires ValidEnv(e) && 0 <= f.nNew <= |f.records|
  {
    var t := LoadAllTried(e, f.records, f.nNew, |f.records|);
    LoadedIds(e, f.records, f.nNew);
    PlaceAll(e, t, f.buckets, 0, f.nNew, |f.buckets| == e.newBuckets && f.checksum == checksum)
  }

  lemma RebuiltOrdered(e: Env, f: File, checksum: nat)
    requires ValidEnv(e) && 0 <= f.nNew <= |f.records|
    ensures Ordered(e, Rebuilt(e, f, checksum))
  {
    LoadAllTriedOrdered(e, f.records, f.nNew, |f.records|);
    LoadedIds(e, f.records, f.nNew);
    PlaceAllOrdered(e, LoadAllTried(e, f.records, f.nNew, |f.records|), f.buckets, 0, f.nNew, |f.buckets| == e.newBuckets && f.checksum == checksum);
  }

  /** The environment of a reader, with the key that the file brings. */
  function Keyed(e: Env, f: File): Env {
    e.(key := f.key)
  }

  /** `Unserialize`: None where it throws. */
  ghost function Unserialize(e: Env, f: File, checksum: nat, walk: seq<Id>): Option<State>
    requires ValidEnv(e)
  {
    if !(0 <= f.nNew <= e.newBuckets * e.bucketSize) || !(0 <= f.nTried <= e.triedBuckets * e.bucketSize)
       || |f.records| != f.nNew + f.nTried then None
    else
      var e' := Keyed(e, f);
      RebuiltOrdered(e', f, checksum);
      var t := Prune(e', Rebuilt(e', f, checksum), walk);
      if Checked(e', t) then Some(t) else None
  }

  lemma {:induction false} PruneOrdered(e: Env, s: State, walk: seq<Id>)
    requires Ordered(e, s)
    ensures Ordered(e, Prune(e, s, walk))
    decreases |walk|
  {
    if walk != [] {
      if walk[0] in s.info && !s.info[walk[0]].inTried && s.info[walk[0]].refCount == 0 {
        DeleteOrdered(e, s, walk[0]);
        PruneOrdered(e, Delete(e, s, walk[0]), walk[1..]);
      } else {
        PruneOrdered(e, s, walk[1..]);
      }
    }
  }
}
