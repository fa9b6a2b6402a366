/** Reading any file of readable records, whether its buckets can be used or not, and whatever its bucket
    lists say: it is accepted, every entry that is named gets a cell unless its last choice is taken, and
    no cell is filled for another reason. */
module AddrManRestore {
  import opened Collections
  import opened AddrManState
  import opened AddrManSpec
  import opened AddrManRuns
  import opened AddrManDisk
  import opened AddrManReading
  import opened AddrManRoundTrip
  import opened AddrManRebucket

  // ----- Placing -----

  /** The entries that are placed: those with an id below m. */
  datatype Room = ForNew(m: nat)

  ghost predicate NewBelow(e: Env, s: State, m: nat) {
    forall x :: 0 <= x < m ==> x in s.info && !s.info[x].inTried && e.valid(s.info[x].addr.host)
  }

  /** A state in which entries can be placed. */
  ghost predicate Ready(e: Env, s: State, room: Room) {
    match room
    case ForNew(m) => ValidEnv(e) && NewBelow(e, s, m) && Consistent(e, s, Homeless(s, m), {})
  }

  /** From s to u references were added, and nothing else has changed. */
  ghost predicate Grown(s: State, u: State) {
    && u == s.(info := u.info, newTable := u.newTable) && u.info.Keys == s.info.Keys
    && (forall x :: x in s.info ==> s.info[x].refCount <= u.info[x].refCount && u.info[x] == s.info[x].(refCount := u.info[x].refCount))
    && (forall c :: c in s.newTable ==> c in u.newTable && u.newTable[c] == s.newTable[c])
  }

  lemma GrownOn(s: State, t: State, u: State)
    requires Grown(s, t) && Grown(t, u)
    ensures Grown(s, u)
  {}

  /** The cell of an entry in a bucket. */
  function CellIn(e: Env, i: Info, bucket: nat): Cell
    requires ValidEnv(e)
  {
    Cell(bucket, Position(e, i.addr, true, bucket))
  }

  /** An entry that was named for a bucket has been served: it has a reference, unless its home is taken;
      and if buckets are restored its cell in this one is taken, unless it has eight references. */
  ghost predicate Served(e: Env, s: State, restore: bool, bucket: nat, x: Id)
    requires ValidEnv(e)
  {
    && x in s.info && (s.info[x].refCount > 0 || HomeCell(e, s.info[x]) in s.newTable)
    && (restore ==> s.info[x].refCount >= 8 || CellIn(e, s.info[x], bucket) in s.newTable)
  }

  lemma ServedOn(e: Env, s: State, u: State, restore: bool, bucket: nat, x: Id)
    requires ValidEnv(e) && Served(e, s, restore, bucket, x) && Grown(s, u)
    ensures Served(e, u, restore, bucket, x)
  {}

  lemma HasRefs(e: Env, s: State, m: nat, x: Id)
    requires Ready(e, s, ForNew(m)) && x in s.info
    ensures s.info[x].refCount >= 0
  {}

  lemma RefAdded(e: Env, s: State, m: nat, x: Id, c: Cell)
    requires Ready(e, s, ForNew(m)) && 0 <= x < m && x in s.info && s.info[x].refCount < MAX_REFS
    requires c !in s.newTable && Fits(e, s.info[x].addr, c)
    ensures Ready(e, AddRef(s, x, c), ForNew(m)) && Grown(s, AddRef(s, x, c))
  {
    HasRefs(e, s, m, x);
    FewerHomeless(s, m, x, c);
    AddRefKeeps(e, s, x, c, Homeless(s, m), {});
  }

  lemma EntryReady(e: Env, s: State, m: nat, bucket: nat, x: Id, restore: bool)
    requires Ready(e, s, ForNew(m)) && 0 <= x < m && x in s.info && (restore ==> bucket < e.newBuckets)
    ensures var u := PlaceEntry(e, s, bucket, x, restore); Ready(e, u, ForNew(m)) && Grown(s, u)
  {
    var i := s.info[x];
    if i.refCount < MAX_REFS {
      if restore && CellIn(e, i, bucket) !in s.newTable {
        RefAdded(e, s, m, x, CellIn(e, i, bucket));
      } else if HomeCell(e, i) !in s.newTable {
        RefAdded(e, s, m, x, HomeCell(e, i));
      }
    }
  }

  lemma EntryServed(e: Env, s: State, bucket: nat, x: Id, restore: bool)
    requires ValidEnv(e) && x in s.info && s.info[x].refCount >= 0 && e.valid(s.info[x].addr.host)
    ensures Served(e, PlaceEntry(e, s, bucket, x, restore), restore, bucket, x)
  {}

  lemma EntryPlaced(e: Env, s: State, m: nat, bucket: nat, x: Id, restore: bool)
    requires Ready(e, s, ForNew(m)) && 0 <= x < m && x in s.info && (restore ==> bucket < e.newBuckets)
    ensures var u := PlaceEntry(e, s, bucket, x, restore); Ready(e, u, ForNew(m)) && Grown(s, u) && Served(e, u, restore, bucket, x)
  {
    EntryReady(e, s, m, bucket, x, restore);
    HasRefs(e, s, m, x);
    EntryServed(e, s, bucket, x, restore);
  }

  /** The lists of the first buckets have been worked off. */
  ghost predicate ServedList(e: Env, u: State, m: nat, restore: bool, bucket: nat, list: seq<int>)
    requires ValidEnv(e)
  {
    forall j :: 0 <= j < |list| && 0 <= list[j] < m ==> Served(e, u, restore, bucket, list[j])
  }

  lemma ServedMore(e: Env, s: State, u: State, m: nat, restore: bool, bucket: nat, list: seq<int>)
    requires ValidEnv(e) && list != [] && Grown(s, u) && (0 <= list[0] < m ==> Served(e, s, restore, bucket, list[0]))
    requires ServedList(e, u, m, restore, bucket, list[1..])
    ensures ServedList(e, u, m, restore, bucket, list)
  {
    forall j | 0 <= j < |list| && 0 <= list[j] < m ensures Served(e, u, restore, bucket, list[j]) {
      if j == 0 { ServedOn(e, s, u, restore, bucket, list[0]); } else { assert list[1..][j - 1] == list[j]; }
    }
  }

  lemma ReadyKnown(e: Env, s: State, m: nat)
    requires Ready(e, s, ForNew(m))
    ensures ValidEnv(e) && forall id :: 0 <= id < m ==> id in s.info
  {}

  lemma {:induction false} ListPlaced(e: Env, s: State, m: nat, bucket: nat, list: seq<int>, restore: bool)
    requires Ready(e, s, ForNew(m)) && (restore ==> bucket < e.newBuckets)
    ensures ValidEnv(e) && forall id :: 0 <= id < m ==> id in s.info
    ensures var u := PlaceList(e, s, bucket, list, m, restore);
            Ready(e, u, ForNew(m)) && Grown(s, u) && ServedList(e, u, m, restore, bucket, list)
    decreases |list|
  {
    ReadyKnown(e, s, m);
    if list != [] {
      var t := s;
      if 0 <= list[0] < m {
        EntryPlaced(e, s, m, bucket, list[0], restore);
        t := PlaceEntry(e, s, bucket, list[0], restore);
      }
      ListPlaced(e, t, m, bucket, list[1..], restore);
      var u := PlaceList(e, t, bucket, list[1..], m, restore);
      GrownOn(s, t, u);
      ServedMore(e, t, u, m, restore, bucket, list);
    }
  }

  lemma ListServedOn(e: Env, s: State, u: State, m: nat, restore: bool, bucket: nat, list: seq<int>)
    requires ValidEnv(e) && Grown(s, u) && ServedList(e, s, m, restore, bucket, list)
    ensures ServedList(e, u, m, restore, bucket, list)
  {
    forall j | 0 <= j < |list| && 0 <= list[j] < m ensures Served(e, u, restore, bucket, list[j]) {
      ServedOn(e, s, u, restore, bucket, list[j]);
    }
  }

  lemma {:induction false} AllReady(e: Env, s: State, m: nat, buckets: seq<seq<int>>, b: nat, restore: bool)
    requires Ready(e, s, ForNew(m)) && b <= |buckets| && (restore ==> |buckets| == e.newBuckets)
    ensures ValidEnv(e) && forall id :: 0 <= id < m ==> id in s.info
    ensures var u := PlaceAll(e, s, buckets, b, m, restore); Ready(e, u, ForNew(m)) && Grown(s, u)
    decreases |buckets| - b
  {
    ReadyKnown(e, s, m);
    if b < |buckets| {
      ListPlaced(e, s, m, b, buckets[b], restore);
      var t := PlaceList(e, s, b, buckets[b], m, restore);
      AllReady(e, t, m, buckets, b + 1, restore);
      GrownOn(s, t, PlaceAll(e, t, buckets, b + 1, m, restore));
    }
  }

  lemma {:induction false} AllServed(e: Env, s: State, m: nat, buckets: seq<seq<int>>, b: nat, restore: bool, a: nat)
    requires Ready(e, s, ForNew(m)) && b <= a < |buckets| && (restore ==> |buckets| == e.newBuckets)
    ensures ValidEnv(e) && forall id :: 0 <= id < m ==> id in s.info
    ensures ServedList(e, PlaceAll(e, s, buckets, b, m, restore), m, restore, a, buckets[a])
    decreases |buckets| - b
  {
    ReadyKnown(e, s, m);
    ListPlaced(e, s, m, b, buckets[b], restore);
    var t := PlaceList(e, s, b, buckets[b], m, restore);
    if a == b {
      AllReady(e, t, m, buckets, b + 1, restore);
      ListServedOn(e, t, PlaceAll(e, t, buckets, b + 1, m, restore), m, restore, a, buckets[a]);
    } else {
      AllServed(e, t, m, buckets, b + 1, restore, a);
    }
  }

  // ----- Why a cell is filled -----

  predicate NamedIn(buckets: seq<seq<int>>, b: nat, x: Id) {
    b < |buckets| && x in buckets[b]
  }

  /** A filled cell is one that the file names for its entry, or the home of an entry that it names. */
  ghost predicate Asked(e: Env, s: State, buckets: seq<seq<int>>, restore: bool, c: Cell)
    requires ValidEnv(e) && c in s.newTable
  {
    var x := s.newTable[c];
    x in s.info && ((restore && NamedIn(buckets, c.bucket, x)) || (c == HomeCell(e, s.info[x]) && exists b :: NamedIn(buckets, b, x)))
  }

  ghost predicate AllAsked(e: Env, s: State, buckets: seq<seq<int>>, restore: bool)
    requires ValidEnv(e)
  {
    forall c :: c in s.newTable ==> Asked(e, s, buckets, restore, c)
  }

  lemma EntryAsked(e: Env, s: State, buckets: seq<seq<int>>, bucket: nat, x: Id, restore: bool)
    requires ValidEnv(e) && AllAsked(e, s, buckets, restore) && x in s.info && NamedIn(buckets, bucket, x)
    ensures AllAsked(e, PlaceEntry(e, s, bucket, x, restore), buckets, restore)
  {
    var u := PlaceEntry(e, s, bucket, x, restore);
    forall c | c in u.newTable ensures Asked(e, u, buckets, restore, c) {
      if c in s.newTable { assert Asked(e, s, buckets, restore, c); }
    }
  }

  lemma {:induction false} ListAsked(e: Env, s: State, buckets: seq<seq<int>>, bucket: nat, list: seq<int>, m: nat, restore: bool)
    requires ValidEnv(e) && AllAsked(e, s, buckets, restore) && forall id :: 0 <= id < m ==> id in s.info
    requires bucket < |buckets| && forall j :: 0 <= j < |list| ==> list[j] in buckets[bucket]
    ensures AllAsked(e, PlaceList(e, s, bucket, list, m, restore), buckets, restore)
    decreases |list|
  {
    if list != [] {
      var t := s;
      if 0 <= list[0] < m {
        EntryAsked(e, s, buckets, bucket, list[0], restore);
        t := PlaceEntry(e, s, bucket, list[0], restore);
      }
      ListAsked(e, t, buckets, bucket, list[1..], m, restore);
    }
  }

  lemma {:induction false} PlacedAsked(e: Env, s: State, buckets: seq<seq<int>>, b: nat, m: nat, restore: bool)
    requires ValidEnv(e) && AllAsked(e, s, buckets, restore) && b <= |buckets| && forall id :: 0 <= id < m ==> id in s.info
    ensures AllAsked(e, PlaceAll(e, s, buckets, b, m, restore), buckets, restore)
    decreases |buckets| - b
  {
    if b < |buckets| {
      ListAsked(e, s, buckets, b, buckets[b], m, restore);
      PlacedAsked(e, PlaceList(e, s, b, buckets[b], m, restore), buckets, b + 1, m, restore);
    }
  }

  // ----- The whole file -----

  /** The j-th name in a bucket of the file, after reading. */
  ghost predicate NameHonoured(e: Env, f: File, u: State, restore: bool, b: nat, k: nat)
    requires ValidEnv(e) && k < |f.records|
  {
    var a := f.records[k].addr;
    && (a in u.byAddr || RecordHome(e, f.records, k) in u.newTable)
    && (restore ==>
          || Cell(b, Position(e, a, true, b)) in u.newTable
          || (a in u.byAddr && u.byAddr[a] in u.info && u.info[u.byAddr[a]].refCount == 8))
  }

  /** The new records after reading. */
  ghost predicate NamesHonoured(e: Env, f: File, u: State, restore: bool)
    requires ValidEnv(e) && 0 <= f.nNew <= |f.records|
  {
    && (forall b, j :: 0 <= b < |f.buckets| && 0 <= j < |f.buckets[b]| && 0 <= f.buckets[b][j] < f.nNew ==>
          NameHonoured(e, f, u, restore, b, f.buckets[b][j]))
    && (forall k :: 0 <= k < f.nNew && f.records[k].addr in u.byAddr ==> exists b :: NamedIn(f.buckets, b, k))
    && AllAsked(e, u, f.buckets, restore)
  }

  lemma LoadedReady(e: Env, records: seq<Record>, m: nat, t: State)
    requires ValidEnv(e) && ReadTo(e, records, m, TriedRead(|records|), t)
    ensures Ready(e, t, ForNew(m)) && Unplaced(e, t, m)
  {
    LoadedUnplaced(e, records, m, t);
    AllHomeless(e, t, m);
  }

  /** Loading and placing. */
  lemma RebuiltReady(e: Env, f: File, checksum: nat) returns (t: State, s: State)
    requires ValidEnv(e) && 0 <= f.nNew && Readable(e, f.records, f.nNew)
    ensures s == Rebuilt(e, f, checksum) && ReadTo(e, f.records, f.nNew, TriedRead(|f.records|), t)
    ensures Ready(e, s, ForNew(f.nNew)) && Grown(t, s)
    ensures var restore := |f.buckets| == e.newBuckets && f.checksum == checksum;
            && AllAsked(e, s, f.buckets, restore)
            && forall b :: 0 <= b < |f.buckets| ==> ServedList(e, s, f.nNew, restore, b, f.buckets[b])
  {
    var m, restore := f.nNew, |f.buckets| == e.newBuckets && f.checksum == checksum;
    t := LoadAllTried(e, f.records, m, |f.records|);
    LoadAllTriedRead(e, f.records, m, |f.records|);
    LoadedReady(e, f.records, m, t);
    LoadedIds(e, f.records, m);
    AllReady(e, t, m, f.buckets, 0, restore);
    forall b | 0 <= b < |f.buckets| ensures ServedList(e, PlaceAll(e, t, f.buckets, 0, m, restore), m, restore, b, f.buckets[b]) {
      AllServed(e, t, m, f.buckets, 0, restore, b);
    }
    PlacedAsked(e, t, f.buckets, 0, m, restore);
    s := PlaceAll(e, t, f.buckets, 0, m, restore);
  }

  lemma ReadyPruned(e: Env, s: State, m: nat, walk: seq<Id>)
    requires Ready(e, s, ForNew(m)) && Ordered(e, s) && Range(m) <= Visits(walk)
    ensures Consistent(e, Prune(e, s, walk), {}, {}) && OnlyLost(s, Prune(e, s, walk), Homeless(s, m))
  {
    HomelessVisited(s, m, walk);
    PruneAll(e, s, Homeless(s, m), walk);
  }

  lemma AskedOn(e: Env, s: State, u: State, gone: set<Id>, buckets: seq<seq<int>>, restore: bool)
    requires ValidEnv(e) && AllAsked(e, s, buckets, restore) && OnlyLost(s, u, gone)
    requires forall c :: c in u.newTable ==> u.newTable[c] in u.info
    ensures AllAsked(e, u, buckets, restore)
  {
    forall c | c in u.newTable ensures Asked(e, u, buckets, restore, c) {
      assert Asked(e, s, buckets, restore, c);
    }
  }

  lemma RecordEntry(e: Env, f: File, t: State, s: State, k: nat)
    requires ValidEnv(e) && 0 <= f.nNew && ReadTo(e, f.records, f.nNew, TriedRead(|f.records|), t) && Grown(t, s) && k < |f.records|
    ensures AddrOk(t) && ReadAt(e, f.records, f.nNew, t, k) && s.info.Keys == t.info.Keys
    ensures forall x :: x in t.info ==> s.info[x].addr == t.info[x].addr
    ensures k < f.nNew ==> k in s.info && s.info[k].addr == f.records[k].addr && HomeCell(e, s.info[k]) == RecordHome(e, f.records, k)
  {}

  lemma NameSurvives(e: Env, f: File, t: State, s: State, u: State, restore: bool, b: nat, k: nat)
    requires ValidEnv(e) && 0 <= f.nNew && ReadTo(e, f.records, f.nNew, TriedRead(|f.records|), t) && Grown(t, s)
    requires OnlyLost(s, u, Homeless(s, f.nNew)) && AddrOk(u) && k < f.nNew <= |f.records|
    requires Served(e, s, restore, b, k) && 0 <= s.info[k].refCount <= 8
    ensures NameHonoured(e, f, u, restore, b, k)
  {
    RecordEntry(e, f, t, s, k);
    KnownAfter(t, s, u, Homeless(s, f.nNew), f.records[k].addr);
  }

  lemma KnownIsNamed(e: Env, f: File, t: State, s: State, u: State, restore: bool, k: nat)
    requires ValidEnv(e) && 0 <= f.nNew && ReadTo(e, f.records, f.nNew, TriedRead(|f.records|), t) && Grown(t, s)
    requires OnlyLost(s, u, Homeless(s, f.nNew)) && AddrOk(u) && k < f.nNew <= |f.records| && f.records[k].addr in u.byAddr
    requires AllAsked(e, s, f.buckets, restore) && k in s.info && s.info[k].refCount == |Refs(s.newTable, k)|
    ensures exists b :: NamedIn(f.buckets, b, k)
  {
    RecordEntry(e, f, t, s, k);
    KnownAfter(t, s, u, Homeless(s, f.nNew), f.records[k].addr);
    assert k !in Homeless(s, f.nNew) && k in Range(f.nNew);
    var c :| c in Refs(s.newTable, k);
    assert Asked(e, s, f.buckets, restore, c);
  }

  lemma TriedSurvives(e: Env, f: File, t: State, s: State, u: State, k: nat)
    requires ValidEnv(e) && 0 <= f.nNew && ReadTo(e, f.records, f.nNew, TriedRead(|f.records|), t) && Grown(t, s)
    requires OnlyLost(s, u, Homeless(s, f.nNew)) && AddrOk(u) && TriedOk(e, u) && f.nNew <= k < |f.records|
    requires NewBelow(e, s, f.nNew) && forall x :: x in s.info && s.info[x].inTried ==> s.info[x].refCount == 0
    ensures TriedKept(e, f.records, f.nNew, u, k)
  {
    var a := f.records[k].addr;
    RecordEntry(e, f, t, s, k);
    KnownAfter(t, s, u, Homeless(s, f.nNew), a);
    if a in t.byAddr {
      var x := t.byAddr[a];
      assert x in s.info && s.info[x].inTried && x !in Homeless(s, f.nNew);
      TriedAt(e, u, x);
    }
  }

  /** What the reference counts are. */
  ghost predicate RefsBounded(s: State) {
    && (forall x :: x in s.info ==> 0 <= s.info[x].refCount == |Refs(s.newTable, x)| <= 8)
    && (forall x :: x in s.info && s.info[x].inTried ==> s.info[x].refCount == 0)
  }

  lemma ReadyRefs(e: Env, s: State, m: nat)
    requires Ready(e, s, ForNew(m))
    ensures NewBelow(e, s, m) && RefsBounded(s)
  {}

  ghost predicate TriedAllKept(e: Env, f: File, u: State)
    requires ValidEnv(e) && 0 <= f.nNew
  {
    forall k :: f.nNew <= k < |f.records| ==> TriedKept(e, f.records, f.nNew, u, k)
  }

  lemma AllSurvive(e: Env, f: File, t: State, s: State, u: State, restore: bool)
    requires ValidEnv(e) && 0 <= f.nNew <= |f.records| && ReadTo(e, f.records, f.nNew, TriedRead(|f.records|), t) && Grown(t, s)
    requires OnlyLost(s, u, Homeless(s, f.nNew)) && AddrOk(u) && TriedOk(e, u) && NewBelow(e, s, f.nNew) && RefsBounded(s)
    requires AllAsked(e, s, f.buckets, restore) && AllAsked(e, u, f.buckets, restore)
    requires forall b :: 0 <= b < |f.buckets| ==> ServedList(e, s, f.nNew, restore, b, f.buckets[b])
    ensures NamesHonoured(e, f, u, restore) && TriedAllKept(e, f, u)
  {
    var m := f.nNew;
    forall b, j | 0 <= b < |f.buckets| && 0 <= j < |f.buckets[b]| && 0 <= f.buckets[b][j] < m
      ensures NameHonoured(e, f, u, restore, b, f.buckets[b][j])
    {
      assert ServedList(e, s, m, restore, b, f.buckets[b]);
      NameSurvives(e, f, t, s, u, restore, b, f.buckets[b][j]);
    }
    forall k | 0 <= k < m && f.records[k].addr in u.byAddr ensures exists b :: NamedIn(f.buckets, b, k) {
      KnownIsNamed(e, f, t, s, u, restore, k);
    }
    forall k | m <= k < |f.records| ensures TriedKept(e, f.records, m, u, k) {
      TriedSurvives(e, f, t, s, u, k);
    }
  }

  lemma RestoredState(e: Env, f: File, checksum: nat, walk: seq<Id>) returns (u: State)
    requires ValidEnv(e) && 0 <= f.nNew && Readable(e, f.records, f.nNew) && Range(f.nNew) <= Visits(walk)
    ensures Ordered(e, Rebuilt(e, f, checksum)) && u == Prune(e, Rebuilt(e, f, checksum), walk) && Consistent(e, u, {}, {})
    ensures NamesHonoured(e, f, u, |f.buckets| == e.newBuckets && f.checksum == checksum) && TriedAllKept(e, f, u)
  {
    var m, restore := f.nNew, |f.buckets| == e.newBuckets && f.checksum == checksum;
    RebuiltOrdered(e, f, checksum);
    var t, s := RebuiltReady(e, f, checksum);
    u := Prune(e, s, walk);
    ReadyPruned(e, s, m, walk);
    ReadyRefs(e, s, m);
    CellsKnown(e, u);
    AskedOn(e, s, u, Homeless(s, m), f.buckets, restore);
    AllSurvive(e, f, t, s, u, restore);
  }

  lemma CellsKnown(e: Env, u: State)
    requires Consistent(e, u, {}, {})
    ensures ValidEnv(e) && AddrOk(u) && TriedOk(e, u) && forall c :: c in u.newTable ==> u.newTable[c] in u.info
  {}

  /** Every file of readable records within the bounds is accepted exactly if its key is not null, and the
      result is sound. A new record that a bucket list names is kept unless its home cell is taken. If the
      buckets can be used its cell in that bucket is taken, by it or an earlier one, unless it has eight
      references. A new record that no list names is not kept, every filled cell is one that was asked
      for, and of tried records with one cell the first is kept. */
  lemma Restored(e: Env, f: File, checksum: nat, walk: seq<Id>)
    requires ValidEnv(e) && 0 <= f.nNew <= e.newBuckets * e.bucketSize && 0 <= f.nTried <= e.triedBuckets * e.bucketSize
    requires |f.records| == f.nNew + f.nTried && Readable(e, f.records, f.nNew) && Range(f.nNew) <= Visits(walk)
    ensures var r, restore := Unserialize(e, f, checksum, walk), |f.buckets| == e.newBuckets && f.checksum == checksum;
            && (r.Some? <==> f.key != 0)
            && (r.Some? ==>
                  && Sound(Keyed(e, f), r.value)
                  && NamesHonoured(Keyed(e, f), f, r.value, restore) && TriedAllKept(Keyed(e, f), f, r.value))
  {
    var e' := Keyed(e, f);
    KeyedReadable(e, f);
    var u := RestoredState(e', f, checksum, walk);
    ConsistentPasses(e', u);
    assert u.collisions == [] by {
      PruneOrdered(e', Rebuilt(e', f, checksum), walk);
    }
  }
}
