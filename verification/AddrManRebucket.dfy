/** Reading a file whose buckets cannot be used: it was written with another number of buckets or another
    mapping of networks, so that every entry has to find a cell anew. Which entries are kept, and where. */
module AddrManRebucket {
  import opened Collections
  import opened AddrManState
  import opened AddrManSpec
  import opened AddrManRuns
  import opened AddrManDisk
  import opened AddrManReading
  import opened AddrManRoundTrip

  // ----- Placing the new entries -----

  /** The ids of new entries that a list names. */
  function Named(list: seq<int>, m: nat): (r: seq<Id>)
    ensures forall k :: 0 <= k < |r| ==> 0 <= r[k] < m
  {
    if list == [] then [] else if 0 <= list[0] < m then [list[0]] + Named(list[1..], m) else Named(list[1..], m)
  }

  /** The ids that the buckets from the b-th on name, in order. */
  function AllNamed(buckets: seq<seq<int>>, b: nat, m: nat): (r: seq<Id>)
    requires b <= |buckets|
    ensures forall k :: 0 <= k < |r| ==> 0 <= r[k] < m
    decreases |buckets| - b
  {
    if b == |buckets| then [] else Named(buckets[b], m) + AllNamed(buckets, b + 1, m)
  }

  /** The loaded entries: the first m are new, and no entry has a reference. */
  ghost predicate Unplaced(e: Env, t: State, m: nat) {
    && t.newTable == map[]
    && (forall x :: 0 <= x < m ==> x in t.info && !t.info[x].inTried && e.valid(t.info[x].addr.host))
    && (forall x :: x in t.info ==> t.info[x].refCount == 0)
  }

  /** The cell for the entry's own source. */
  function Home(e: Env, t: State, x: Id): Cell
    requires ValidEnv(e) && x in t.info
  {
    HomeCell(e, t.info[x])
  }

  /** The new table when each of the ids has tried for its home: the first one for a cell has it. */
  ghost function HomeTable(e: Env, t: State, ids: seq<Id>): (r: map<Cell, Id>)
    requires ValidEnv(e) && forall k :: 0 <= k < |ids| ==> ids[k] in t.info
  {
    if ids == [] then map[]
    else
      var n := |ids| - 1;
      var before, c := HomeTable(e, t, ids[..n]), Home(e, t, ids[n]);
      if c in before then before else before[c := ids[n]]
  }

  ghost predicate HasHome(e: Env, t: State, table: map<Cell, Id>, x: Id)
    requires ValidEnv(e) && x in t.info
  {
    Home(e, t, x) in table && table[Home(e, t, x)] == x
  }

  /** The ids that have been placed. */
  datatype Placing = Placed(ids: seq<Id>)

  /** The entries are as loaded, except that those with a home have one reference. */
  ghost predicate HomedIn(e: Env, t: State, m: nat, placing: Placing, s: State)
    requires ValidEnv(e)
  {
    match placing
    case Placed(ids) =>
      && (forall k :: 0 <= k < |ids| ==> 0 <= ids[k] < m) && Unplaced(e, t, m)
      && s == t.(info := s.info, newTable := HomeTable(e, t, ids)) && s.info.Keys == t.info.Keys
      && (forall x :: x in t.info ==> s.info[x] == t.info[x].(refCount := if HasHome(e, t, s.newTable, x) then 1 else 0))
  }

  /** The new entries without a reference. */
  ghost function Homeless(s: State, m: nat): set<Id> {
    set x | x in Range(m) && x in s.info && s.info[x].refCount == 0
  }

  lemma HomeTableSnoc(e: Env, t: State, ids: seq<Id>, x: Id)
    requires ValidEnv(e) && (forall k :: 0 <= k < |ids| ==> ids[k] in t.info) && x in t.info
    ensures var before, c := HomeTable(e, t, ids), Home(e, t, x);
            HomeTable(e, t, ids + [x]) == if c in before then before else before[c := x]
  {
    assert (ids + [x])[..|ids|] == ids;
  }

  lemma StillHomed(e: Env, t: State, m: nat, ids: seq<Id>, s: State, x: Id)
    requires ValidEnv(e) && HomedIn(e, t, m, Placed(ids), s) && 0 <= x < m && Home(e, t, x) in s.newTable
    ensures HomedIn(e, t, m, Placed(ids + [x]), s)
  {
    HomeTableSnoc(e, t, ids, x);
  }

  lemma NewlyHomed(e: Env, t: State, m: nat, ids: seq<Id>, s: State, x: Id)
    requires ValidEnv(e) && HomedIn(e, t, m, Placed(ids), s) && 0 <= x < m && x in t.info && Home(e, t, x) !in s.newTable
    ensures x in s.info && s.info[x].refCount == 0
    ensures HomedIn(e, t, m, Placed(ids + [x]), AddRef(s, x, Home(e, t, x)))
  {
    HomeTableSnoc(e, t, ids, x);
  }

  lemma FewerHomeless(s: State, m: nat, x: Id, c: Cell)
    requires 0 <= x < m && x in s.info && s.info[x].refCount >= 0
    ensures Homeless(AddRef(s, x, c), m) == Homeless(s, m) - {x}
  {
    SameSet(Homeless(AddRef(s, x, c), m), Homeless(s, m) - {x});
  }

  /** What holds when the ids have been placed. */
  ghost predicate HomedTo(e: Env, t: State, m: nat, placing: Placing, s: State)
    requires ValidEnv(e)
  {
    match placing
    case Placed(ids) => HomedIn(e, t, m, placing, s) && Consistent(e, s, Homeless(s, m), {})
  }

  lemma PlaceOne(e: Env, t: State, m: nat, ids: seq<Id>, s: State, x: Id, more: seq<Id>, u: State)
    requires ValidEnv(e) && HomedTo(e, t, m, Placed(ids), s) && 0 <= x < m && more == ids + [x]
    requires x in s.info && u == PlaceEntry(e, s, 0, x, false)
    ensures HomedTo(e, t, m, Placed(more), u)
  {
    var c := Home(e, t, x);
    if c in s.newTable {
      StillHomed(e, t, m, ids, s, x);
    } else {
      NewlyHomed(e, t, m, ids, s, x);
      FewerHomeless(s, m, x, c);
      AddRefKeeps(e, s, x, c, Homeless(s, m), {});
    }
  }

  predicate AllKnown(s: State, ids: seq<Id>) {
    forall k :: 0 <= k < |ids| ==> ids[k] in s.info
  }

  /** Placing entries one after the other. */
  ghost function PlaceIds(e: Env, s: State, ids: seq<Id>): (u: State)
    requires ValidEnv(e) && AllKnown(s, ids)
    ensures u.info.Keys == s.info.Keys
  {
    if ids == [] then s
    else
      var n := |ids| - 1;
      PlaceEntry(e, PlaceIds(e, s, ids[..n]), 0, ids[n], false)
  }

  lemma PlaceLast(e: Env, s: State, ids: seq<Id>, x: Id)
    requires ValidEnv(e) && AllKnown(s, ids) && x in s.info
    ensures AllKnown(s, ids + [x]) && PlaceIds(e, s, ids + [x]) == PlaceEntry(e, PlaceIds(e, s, ids), 0, x, false)
  {
    assert (ids + [x])[..|ids|] == ids;
  }

  lemma {:induction false} PlaceIdsConcat(e: Env, s: State, a: seq<Id>, b: seq<Id>)
    requires ValidEnv(e) && AllKnown(s, a) && AllKnown(s, b)
    ensures PlaceIds(e, s, a + b) == PlaceIds(e, PlaceIds(e, s, a), b)
    decreases |b|
  {
    if b == [] {
      assert a + b == a;
    } else {
      var front, x := b[..|b| - 1], b[|b| - 1];
      assert b == front + [x] && a + b == a + front + [x];
      PlaceIdsConcat(e, s, a, front);
      PlaceLast(e, s, a + front, x);
      PlaceLast(e, PlaceIds(e, s, a), front, x);
    }
  }

  lemma BucketAside(e: Env, s: State, bucket: nat, x: Id)
    requires ValidEnv(e) && x in s.info
    ensures PlaceEntry(e, s, bucket, x, false) == PlaceIds(e, s, [x])
  {
    assert [x][..0] == [];
  }

  lemma {:induction false} PlaceListIs(e: Env, s: State, bucket: nat, list: seq<int>, m: nat)
    requires ValidEnv(e) && forall id :: 0 <= id < m ==> id in s.info
    ensures PlaceList(e, s, bucket, list, m, false) == PlaceIds(e, s, Named(list, m))
    decreases |list|
  {
    if list != [] {
      var x, rest := list[0], list[1..];
      if 0 <= x < m {
        BucketAside(e, s, bucket, x);
        PlaceListIs(e, PlaceIds(e, s, [x]), bucket, rest, m);
        PlaceIdsConcat(e, s, [x], Named(rest, m));
      } else {
        PlaceListIs(e, s, bucket, rest, m);
      }
    }
  }

  lemma {:induction false} PlaceAllIs(e: Env, s: State, buckets: seq<seq<int>>, b: nat, m: nat)
    requires ValidEnv(e) && b <= |buckets| && forall id :: 0 <= id < m ==> id in s.info
    ensures PlaceAll(e, s, buckets, b, m, false) == PlaceIds(e, s, AllNamed(buckets, b, m))
    decreases |buckets| - b
  {
    if b < |buckets| {
      var ids := Named(buckets[b], m);
      PlaceListIs(e, s, b, buckets[b], m);
      PlaceAllIs(e, PlaceIds(e, s, ids), buckets, b + 1, m);
      PlaceIdsConcat(e, s, ids, AllNamed(buckets, b + 1, m));
    }
  }

  lemma NextIdHomed(e: Env, t: State, m: nat, ids: seq<Id>, n: nat)
    requires ValidEnv(e) && AllKnown(t, ids) && |ids| == n + 1 && 0 <= ids[n] < m
    requires HomedTo(e, t, m, Placed(ids[..n]), PlaceIds(e, t, ids[..n]))
    ensures HomedTo(e, t, m, Placed(ids), PlaceIds(e, t, ids))
  {
    PlaceOne(e, t, m, ids[..n], PlaceIds(e, t, ids[..n]), ids[n], ids, PlaceIds(e, t, ids));
  }

  lemma {:induction false} PlaceIdsHomed(e: Env, t: State, m: nat, ids: seq<Id>)
    requires ValidEnv(e) && HomedTo(e, t, m, Placed([]), t) && AllKnown(t, ids) && forall k :: 0 <= k < |ids| ==> 0 <= ids[k] < m
    ensures HomedTo(e, t, m, Placed(ids), PlaceIds(e, t, ids))
    decreases |ids|
  {
    if ids != [] {
      var n := |ids| - 1;
      PlaceIdsHomed(e, t, m, ids[..n]);
      NextIdHomed(e, t, m, ids, n);
    }
  }

  lemma LoadedUnplaced(e: Env, records: seq<Record>, m: nat, t: State)
    requires ValidEnv(e) && ReadTo(e, records, m, TriedRead(|records|), t)
    ensures Unplaced(e, t, m)
  {
    forall x | 0 <= x < m ensures x in t.info && !t.info[x].inTried && e.valid(t.info[x].addr.host) {
      assert ReadAt(e, records, m, t, x) && ReadableAt(e, records, m, x);
    }
    forall x | x in t.info ensures t.info[x].refCount == 0 {
      assert Refs(t.newTable, x) == {};
    }
  }

  lemma AllHomeless(e: Env, t: State, m: nat)
    requires Unplaced(e, t, m)
    ensures Homeless(t, m) == Range(m)
  {
    SameSet(Homeless(t, m), Range(m));
  }

  lemma StartPlacing(e: Env, records: seq<Record>, m: nat, t: State)
    requires ValidEnv(e) && ReadTo(e, records, m, TriedRead(|records|), t)
    ensures HomedTo(e, t, m, Placed([]), t)
  {
    LoadedUnplaced(e, records, m, t);
    AllHomeless(e, t, m);
  }

  // ----- Forgetting those without a cell -----

  /** Some entries are gone, and nothing else but the random order has changed. */
  ghost predicate OnlyLost(s: State, u: State, gone: set<Id>) {
    && u.newTable == s.newTable && u.triedTable == s.triedTable && u.collisions == s.collisions
    && (forall x :: x in u.info ==> x in s.info && x !in gone && Kept(s.info[x], u.info[x]))
    && (forall x :: x in s.info && x !in gone ==> x in u.info)
  }

  lemma WithoutOne(s: State, t: State, u: State, x: Id, gone: set<Id>)
    requires OnlyLost(s, t, {x}) && OnlyLost(t, u, gone - {x}) && x in gone
    ensures OnlyLost(s, u, gone)
  {}

  lemma DeleteOne(e: Env, s: State, x: Id, limbo: set<Id>)
    requires Consistent(e, s, limbo, {}) && x in limbo
    ensures x in s.info && Consistent(e, Delete(e, s, x), limbo - {x}, {}) && OnlyLost(s, Delete(e, s, x), {x})
  {
    DeleteKeeps(e, s, x, limbo, {});
    DeleteOthers(e, s, x);
  }

  lemma InLimbo(e: Env, s: State, limbo: set<Id>, x: Id)
    requires Consistent(e, s, limbo, {})
    ensures x in limbo <==> x in s.info && !s.info[x].inTried && s.info[x].refCount == 0
  {}

  /** The ids that a walk over the entries visits. */
  function Visits(walk: seq<Id>): set<Id> {
    if walk == [] then {} else {walk[0]} + Visits(walk[1..])
  }

  lemma WithoutNone(s: State, limbo: set<Id>)
    requires limbo <= {}
    ensures limbo == {} && OnlyLost(s, s, limbo)
  {}

  lemma {:induction false} PruneAll(e: Env, s: State, limbo: set<Id>, walk: seq<Id>)
    requires Consistent(e, s, limbo, {}) && Ordered(e, s) && limbo <= Visits(walk)
    ensures Consistent(e, Prune(e, s, walk), {}, {}) && OnlyLost(s, Prune(e, s, walk), limbo)
    decreases |walk|
  {
    if walk == [] {
      WithoutNone(s, limbo);
    } else {
      var x := walk[0];
      InLimbo(e, s, limbo, x);
      if x in limbo {
        DeleteOne(e, s, x, limbo);
        DeleteOrdered(e, s, x);
        PruneAll(e, Delete(e, s, x), limbo - {x}, walk[1..]);
        WithoutOne(s, Delete(e, s, x), Prune(e, s, walk), x, limbo);
      } else {
        PruneAll(e, s, limbo, walk[1..]);
      }
    }
  }

  // ----- The whole file -----

  /** The cell for the k-th record's own source. */
  function RecordHome(e: Env, records: seq<Record>, k: nat): Cell
    requires ValidEnv(e) && k < |records|
  {
    NewCell(e, records[k].addr, records[k].source)
  }

  /** The p-th id is the first in the list that wants its cell. */
  ghost predicate FirstAt(e: Env, records: seq<Record>, ids: seq<Id>, p: nat)
    requires ValidEnv(e) && p < |ids| && forall i :: 0 <= i < |ids| ==> 0 <= ids[i] < |records|
  {
    forall q :: 0 <= q < p ==> RecordHome(e, records, ids[q]) != RecordHome(e, records, ids[p])
  }

  /** The k-th record is named before every other one with its cell. */
  ghost predicate FirstNamed(e: Env, records: seq<Record>, ids: seq<Id>, k: nat)
    requires ValidEnv(e) && k < |records| && forall i :: 0 <= i < |ids| ==> 0 <= ids[i] < |records|
  {
    exists p: nat :: p < |ids| && ids[p] == k && FirstAt(e, records, ids, p)
  }

  /** The loaded entries have the homes of their records. */
  ghost predicate SameHomes(e: Env, records: seq<Record>, t: State, m: nat)
    requires ValidEnv(e)
  {
    m <= |records| && forall k :: 0 <= k < m ==> k in t.info && Home(e, t, k) == RecordHome(e, records, k)
  }

  lemma {:induction false} TableHas(e: Env, records: seq<Record>, t: State, m: nat, ids: seq<Id>, c: Cell)
    requires ValidEnv(e) && SameHomes(e, records, t, m) && forall k :: 0 <= k < |ids| ==> 0 <= ids[k] < m
    ensures c in HomeTable(e, t, ids) <==> exists q :: 0 <= q < |ids| && RecordHome(e, records, ids[q]) == c
    decreases |ids|
  {
    if ids != [] { TableHas(e, records, t, m, ids[..|ids| - 1], c); }
  }

  lemma {:induction false} TableFirst(e: Env, records: seq<Record>, t: State, m: nat, ids: seq<Id>, k: nat)
    requires ValidEnv(e) && SameHomes(e, records, t, m) && k < m && forall i :: 0 <= i < |ids| ==> 0 <= ids[i] < m
    ensures HasHome(e, t, HomeTable(e, t, ids), k) <==> FirstNamed(e, records, ids, k)
    decreases |ids|
  {
    if ids != [] {
      var before, x := ids[..|ids| - 1], ids[|ids| - 1];
      TableFirst(e, records, t, m, before, k);
      TableHas(e, records, t, m, before, RecordHome(e, records, x));
      FirstNamedLast(e, records, ids, k);
    }
  }

  lemma FirstBefore(e: Env, records: seq<Record>, ids: seq<Id>, n: nat, p: nat)
    requires ValidEnv(e) && p < n <= |ids| && forall i :: 0 <= i < |ids| ==> 0 <= ids[i] < |records|
    ensures FirstAt(e, records, ids, p) <==> FirstAt(e, records, ids[..n], p)
  {
    assert forall q :: 0 <= q <= p ==> ids[..n][q] == ids[q];
  }

  /** Naming one more id adds it exactly if no id before it wants its cell. */
  lemma FirstNamedLast(e: Env, records: seq<Record>, ids: seq<Id>, k: nat)
    requires ValidEnv(e) && ids != [] && k < |records| && forall i :: 0 <= i < |ids| ==> 0 <= ids[i] < |records|
    ensures var n := |ids| - 1;
            FirstNamed(e, records, ids, k) <==> FirstNamed(e, records, ids[..n], k) || (ids[n] == k && FirstAt(e, records, ids, n))
  {
    var n := |ids| - 1;
    if p: nat :| p < n && ids[..n][p] == k && FirstAt(e, records, ids[..n], p) {
      FirstBefore(e, records, ids, n, p);
    }
    if p: nat :| p < |ids| && ids[p] == k && FirstAt(e, records, ids, p) {
      if p < n {
        FirstBefore(e, records, ids, n, p);
        assert ids[..n][p] == k;
      }
    }
  }

  lemma {:induction false} TableOnly(e: Env, t: State, ids: seq<Id>, c: Cell)
    requires ValidEnv(e) && (forall k :: 0 <= k < |ids| ==> ids[k] in t.info) && c in HomeTable(e, t, ids)
    ensures HomeTable(e, t, ids)[c] in ids
  {
    var n := |ids| - 1;
    if c in HomeTable(e, t, ids[..n]) { TableOnly(e, t, ids[..n], c); }
  }

  /** A new record is kept exactly if it is named first for its cell; then it has this cell only. */
  ghost predicate NewKept(e: Env, records: seq<Record>, ids: seq<Id>, u: State, k: nat)
    requires ValidEnv(e) && k < |records| && forall i :: 0 <= i < |ids| ==> 0 <= ids[i] < |records|
  {
    var a, c := records[k].addr, RecordHome(e, records, k);
    && (a in u.byAddr <==> FirstNamed(e, records, ids, k))
    && (a in u.byAddr ==>
          && u.byAddr[a] in u.info && Kept(EntryOf(records[k], 1, false), u.info[u.byAddr[a]])
          && c in u.newTable && u.newTable[c] == u.byAddr[a])
  }

  /** A tried record is kept exactly if it is the first for its cell; then it has this cell. */
  ghost predicate TriedKept(e: Env, records: seq<Record>, m: nat, u: State, k: nat)
    requires ValidEnv(e) && k < |records|
  {
    var a, c := records[k].addr, TriedCell(e, records[k].addr);
    && (a in u.byAddr <==> FirstTried(e, records, m, k))
    && (a in u.byAddr ==>
          && u.byAddr[a] in u.info && Kept(EntryOf(records[k], 0, true), u.info[u.byAddr[a]])
          && c in u.triedTable && u.triedTable[c] == u.byAddr[a])
  }

  lemma LoadedHomes(e: Env, records: seq<Record>, m: nat, t: State)
    requires ValidEnv(e) && ReadTo(e, records, m, TriedRead(|records|), t)
    ensures SameHomes(e, records, t, m)
  {
    forall k | 0 <= k < m ensures k in t.info && Home(e, t, k) == RecordHome(e, records, k) {
      assert ReadAt(e, records, m, t, k);
    }
  }

  /** Whether an address is known after pruning depends on its entry only. */
  lemma KnownAfter(t: State, s: State, u: State, gone: set<Id>, a: Service)
    requires AddrOk(t) && AddrOk(u) && s.info.Keys == t.info.Keys && OnlyLost(s, u, gone)
    requires forall x :: x in t.info ==> s.info[x].addr == t.info[x].addr
    ensures a in u.byAddr <==> a in t.byAddr && t.byAddr[a] !in gone
    ensures a in u.byAddr ==> u.byAddr[a] == t.byAddr[a]
  {
    if a in u.byAddr {
      var x := u.byAddr[a];
      assert x in u.info && x in s.info && x in t.info;
      AddrAt(t, x);
    }
    if a in t.byAddr && t.byAddr[a] !in gone {
      var x := t.byAddr[a];
      assert x in t.info && x in s.info && x in u.info;
      AddrAt(u, x);
    }
  }

  lemma HomedFacts(e: Env, t: State, m: nat, ids: seq<Id>, s: State, x: Id)
    requires ValidEnv(e) && HomedIn(e, t, m, Placed(ids), s) && x in t.info
    ensures s.info.Keys == t.info.Keys && s.info[x] == t.info[x].(refCount := if HasHome(e, t, HomeTable(e, t, ids), x) then 1 else 0)
    ensures s.newTable == HomeTable(e, t, ids) && s.triedTable == t.triedTable && s.info[x].addr == t.info[x].addr
    ensures x in Homeless(s, m) <==> 0 <= x < m && !HasHome(e, t, HomeTable(e, t, ids), x)
  {
    assert x in Range(m) <==> 0 <= x < m;
  }

  lemma SurvivesNew(e: Env, records: seq<Record>, m: nat, t: State, ids: seq<Id>, s: State, u: State, k: nat)
    requires ValidEnv(e) && ReadTo(e, records, m, TriedRead(|records|), t) && HomedIn(e, t, m, Placed(ids), s)
    requires OnlyLost(s, u, Homeless(s, m)) && AddrOk(u) && k < m <= |records| && forall i :: 0 <= i < |ids| ==> 0 <= ids[i] < m
    ensures NewKept(e, records, ids, u, k)
  {
    LoadedHomes(e, records, m, t);
    TableFirst(e, records, t, m, ids, k);
    assert ReadAt(e, records, m, t, k);
    HomedFacts(e, t, m, ids, s, k);
    AllAddrs(e, t, m, ids, s);
    KnownAfter(t, s, u, Homeless(s, m), records[k].addr);
  }

  lemma AllAddrs(e: Env, t: State, m: nat, ids: seq<Id>, s: State)
    requires ValidEnv(e) && HomedIn(e, t, m, Placed(ids), s)
    ensures s.info.Keys == t.info.Keys && forall x :: x in t.info ==> s.info[x].addr == t.info[x].addr
  {}

  lemma SurvivesTried(e: Env, records: seq<Record>, m: nat, t: State, ids: seq<Id>, s: State, u: State, k: nat)
    requires ValidEnv(e) && ReadTo(e, records, m, TriedRead(|records|), t) && HomedIn(e, t, m, Placed(ids), s)
    requires OnlyLost(s, u, Homeless(s, m)) && AddrOk(u) && TriedOk(e, u) && m <= k < |records|
    ensures TriedKept(e, records, m, u, k)
  {
    assert ReadAt(e, records, m, t, k);
    AllAddrs(e, t, m, ids, s);
    KnownAfter(t, s, u, Homeless(s, m), records[k].addr);
    if records[k].addr in t.byAddr {
      var x := t.byAddr[records[k].addr];
      TriedNotHomeless(e, t, m, ids, s, x);
      if records[k].addr in u.byAddr { TriedAt(e, u, x); }
    }
  }

  lemma TriedNotHomeless(e: Env, t: State, m: nat, ids: seq<Id>, s: State, x: Id)
    requires ValidEnv(e) && HomedIn(e, t, m, Placed(ids), s) && x in t.info && t.info[x].inTried
    ensures x !in Homeless(s, m) && x in s.info && s.info[x] == t.info[x]
  {
    if HasHome(e, t, HomeTable(e, t, ids), x) { TableOnly(e, t, ids, Home(e, t, x)); }
    HomedFacts(e, t, m, ids, s, x);
  }

  /** Loading and placing a file whose buckets cannot be used. */
  lemma RebuiltHomed(e: Env, f: File, checksum: nat) returns (t: State, s: State)
    requires ValidEnv(e) && 0 <= f.nNew && Readable(e, f.records, f.nNew) && !(|f.buckets| == e.newBuckets && f.checksum == checksum)
    ensures s == Rebuilt(e, f, checksum) && ReadTo(e, f.records, f.nNew, TriedRead(|f.records|), t)
    ensures HomedTo(e, t, f.nNew, Placed(AllNamed(f.buckets, 0, f.nNew)), s)
  {
    var m, ids := f.nNew, AllNamed(f.buckets, 0, f.nNew);
    t := LoadAllTried(e, f.records, m, |f.records|);
    LoadAllTriedRead(e, f.records, m, |f.records|);
    StartPlacing(e, f.records, m, t);
    LoadedIds(e, f.records, m);
    PlaceIdsHomed(e, t, m, ids);
    PlaceAllIs(e, t, f.buckets, 0, m);
    s := PlaceIds(e, t, ids);
  }

  lemma HomelessVisited(s: State, m: nat, walk: seq<Id>)
    requires Range(m) <= Visits(walk)
    ensures Homeless(s, m) <= Visits(walk)
  {}

  lemma PrunedHomed(e: Env, t: State, m: nat, ids: seq<Id>, s: State, walk: seq<Id>)
    requires ValidEnv(e) && HomedTo(e, t, m, Placed(ids), s) && Ordered(e, s) && Range(m) <= Visits(walk)
    ensures Consistent(e, Prune(e, s, walk), {}, {}) && OnlyLost(s, Prune(e, s, walk), Homeless(s, m)) && HomedIn(e, t, m, Placed(ids), s)
  {
    HomelessVisited(s, m, walk);
    PruneAll(e, s, Homeless(s, m), walk);
  }

  ghost predicate AllKept(e: Env, f: File, u: State)
    requires ValidEnv(e) && 0 <= f.nNew <= |f.records|
  {
    && (forall k :: 0 <= k < f.nNew ==> NewKept(e, f.records, AllNamed(f.buckets, 0, f.nNew), u, k))
    && (forall k :: f.nNew <= k < |f.records| ==> TriedKept(e, f.records, f.nNew, u, k))
  }

  lemma RebucketedState(e: Env, f: File, checksum: nat, walk: seq<Id>) returns (u: State)
    requires ValidEnv(e) && 0 <= f.nNew && Readable(e, f.records, f.nNew) && !(|f.buckets| == e.newBuckets && f.checksum == checksum)
    requires Range(f.nNew) <= Visits(walk)
    ensures Ordered(e, Rebuilt(e, f, checksum)) && u == Prune(e, Rebuilt(e, f, checksum), walk)
    ensures Consistent(e, u, {}, {}) && AllKept(e, f, u)
  {
    var m, ids := f.nNew, AllNamed(f.buckets, 0, f.nNew);
    RebuiltOrdered(e, f, checksum);
    var t, s := RebuiltHomed(e, f, checksum);
    u := Prune(e, s, walk);
    PrunedHomed(e, t, m, ids, s, walk);
    forall k | 0 <= k < m ensures NewKept(e, f.records, ids, u, k) {
      SurvivesNew(e, f.records, m, t, ids, s, u, k);
    }
    forall k | m <= k < |f.records| ensures TriedKept(e, f.records, m, u, k) {
      SurvivesTried(e, f.records, m, t, ids, s, u, k);
    }
  }

  /** A file whose buckets cannot be used is accepted whenever its records are readable and its key is not
      null. Of the new entries with one home cell the one that is named first is kept, in this cell only,
      and of the tried entries with one cell the first in the file. */
  lemma Rebucketed(e: Env, f: File, checksum: nat, walk: seq<Id>)
    requires ValidEnv(e) && 0 <= f.nNew <= e.newBuckets * e.bucketSize && 0 <= f.nTried <= e.triedBuckets * e.bucketSize
    requires |f.records| == f.nNew + f.nTried && Readable(e, f.records, f.nNew) && Range(f.nNew) <= Visits(walk)
    requires !(|f.buckets| == e.newBuckets && f.checksum == checksum)
    ensures var r := Unserialize(e, f, checksum, walk);
            && (r.Some? <==> f.key != 0)
            && (r.Some? ==> Sound(Keyed(e, f), r.value) && AllKept(Keyed(e, f), f, r.value))
  {
    var e' := Keyed(e, f);
    KeyedReadable(e, f);
    var u := RebucketedState(e', f, checksum, walk);
    ConsistentPasses(e', u);
    assert u.collisions == [] by {
      PruneOrdered(e', Rebuilt(e', f, checksum), walk);
    }
  }

  lemma KeyedReadable(e: Env, f: File)
    requires ValidEnv(e) && 0 <= f.nNew && Readable(e, f.records, f.nNew)
    ensures Readable(Keyed(e, f), f.records, f.nNew)
  {
    forall k | 0 <= k < |f.records| ensures ReadableAt(Keyed(e, f), f.records, f.nNew, k) {
      assert ReadableAt(e, f.records, f.nNew, k);
    }
  }

  /** The reader refuses numbers that no table can hold, and records that are not as many as announced. */
  lemma AcceptedNumbers(e: Env, f: File, checksum: nat, walk: seq<Id>)
    requires ValidEnv(e) && Unserialize(e, f, checksum, walk).Some?
    ensures 0 <= f.nNew <= e.newBuckets * e.bucketSize && 0 <= f.nTried <= e.triedBuckets * e.bucketSize
    ensures |f.records| == f.nNew + f.nTried && f.key != 0
  {}

  // ----- A file of one's own under another mapping of networks -----

  lemma WrittenAt(e: Env, s: State, ids: seq<Id>, m: nat, reader: Env, k: nat)
    requires Consistent(e, s, {}, {}) && Known(s, ids) && Split(s, ids, m) && AllValid(reader, s) && k < |ids|
    ensures ReadableAt(reader, Records(s, ids), m, k)
  {
    TimeAt(s, ids[k]);
    ValidAt(reader, s, ids[k]);
  }

  lemma WrittenDiffer(e: Env, s: State, ids: seq<Id>, j: nat, k: nat)
    requires Consistent(e, s, {}, {}) && Known(s, ids) && Distinct(ids) && j < k < |ids|
    ensures Differ(Records(s, ids), j, k)
  {
    AddrAt(s, ids[j]);
    AddrAt(s, ids[k]);
  }

  lemma WrittenReadable(e: Env, s: State, ids: seq<Id>, m: nat, reader: Env)
    requires Consistent(e, s, {}, {}) && Known(s, ids) && Distinct(ids) && Split(s, ids, m) && AllValid(reader, s)
    ensures Readable(reader, Records(s, ids), m)
  {
    forall k | 0 <= k < |ids| ensures ReadableAt(reader, Records(s, ids), m, k) {
      WrittenAt(e, s, ids, m, reader, k);
    }
    forall j, k | 0 <= j < k < |ids| ensures Differ(Records(s, ids), j, k) {
      WrittenDiffer(e, s, ids, j, k);
    }
  }

  lemma {:induction false} BucketHas(table: map<Cell, Id>, c: Cell, p: nat, size: nat)
    requires c in table && p <= c.pos < size
    ensures table[c] in BucketList(table, c.bucket, p, size)
    decreases size - p
  {
    if p < c.pos { BucketHas(table, c, p + 1, size); } else { assert Cell(c.bucket, p) == c; }
  }

  lemma {:induction false} NamedHas(list: seq<int>, m: nat, x: Id)
    requires x in list && 0 <= x < m
    ensures x in Named(list, m)
    decreases |list|
  {
    if list[0] != x {
      assert list == [list[0]] + list[1..];
      NamedHas(list[1..], m, x);
    }
  }

  lemma InEither(a: seq<Id>, b: seq<Id>, x: Id)
    requires x in a || x in b
    ensures x in a + b
  {}

  lemma {:induction false} AllNamedHas(buckets: seq<seq<int>>, b: nat, m: nat, a: nat, x: Id)
    requires b <= a < |buckets| && x in buckets[a] && 0 <= x < m
    ensures x in AllNamed(buckets, b, m)
    decreases |buckets| - b
  {
    var first, rest := Named(buckets[b], m), AllNamed(buckets, b + 1, m);
    if b == a {
      NamedHas(buckets[b], m, x);
    } else {
      AllNamedHas(buckets, b + 1, m, a, x);
    }
    InEither(first, rest, x);
  }

  /** Every new entry is named by some bucket of the file. */
  lemma WrittenNamed(e: Env, s: State, ids: seq<Id>, m: nat, k: nat)
    requires Consistent(e, s, {}, {}) && Known(s, ids) && Distinct(ids) && Split(s, ids, m) && Listed(s, ids[..m]) && k < m
    ensures k in AllNamed(BucketLists(Renamed(s, ids[..m]), e.newBuckets, e.bucketSize), 0, m)
  {
    var id, table := ids[k], Renamed(s, ids[..m]);
    var c := SomeCell(e, s, id);
    assert table[c] == k by {
      assert ids[..m][table[c]] == id == ids[..m][k];
    }
    BucketHas(table, c, 0, e.bucketSize);
    AllNamedHas(BucketLists(table, e.newBuckets, e.bucketSize), 0, m, c.bucket, k);
  }

  lemma SomeCell(e: Env, s: State, id: Id) returns (c: Cell)
    requires Consistent(e, s, {}, {}) && id in s.info && !s.info[id].inTried
    ensures c in s.newTable && s.newTable[c] == id && c.bucket < e.newBuckets && c.pos < e.bucketSize
  {
    RefsAt(e, s, id, {});
    c :| c in Refs(s.newTable, id);
  }

  /** A record that shares its home with no other new one is named first for it. */
  lemma {:induction false} LoneFirst(e: Env, records: seq<Record>, m: nat, ids: seq<Id>, k: nat)
    requires ValidEnv(e) && k < m <= |records| && k in ids && (forall i :: 0 <= i < |ids| ==> 0 <= ids[i] < m)
    requires forall j :: 0 <= j < m && j != k ==> RecordHome(e, records, j) != RecordHome(e, records, k)
    ensures FirstNamed(e, records, ids, k)
    decreases |ids|
  {
    var n := |ids| - 1;
    FirstNamedLast(e, records, ids, k);
    if k in ids[..n] {
      LoneFirst(e, records, m, ids[..n], k);
    } else {
      assert forall q :: 0 <= q < n ==> ids[q] in ids[..n];
    }
  }

  /** Every new entry whose home cell no other new entry has is still known. */
  ghost predicate LoneKnown(e: Env, f: File, u: State)
    requires ValidEnv(e) && 0 <= f.nNew <= |f.records|
  {
    forall k :: 0 <= k < f.nNew && LoneAt(e, f, k) ==> f.records[k].addr in u.byAddr
  }

  ghost predicate LoneAt(e: Env, f: File, k: nat)
    requires ValidEnv(e) && k < f.nNew <= |f.records|
  {
    forall j :: 0 <= j < f.nNew && j != k ==> RecordHome(e, f.records, j) != RecordHome(e, f.records, k)
  }

  /** The file of any consistent address manager, read with another number of buckets or another mapping
      of networks into tables that are large enough: it is accepted exactly if its key is not null. One
      entry is kept for every cell that some entry wants, so an entry that shares its cell with none is
      never lost. */
  lemma ReadElsewhere(e: Env, s: State, order: seq<Id>, checksum: nat, reader: Env, checksum': nat, walk: seq<Id>)
    requires Consistent(e, s, {}, {}) && Enumerates(order, s) && ValidEnv(reader) && AllValid(reader, s)
    requires s.nNew <= reader.newBuckets * reader.bucketSize && s.nTried <= reader.triedBuckets * reader.bucketSize
    requires !(e.newBuckets == reader.newBuckets && checksum == checksum') && Range(|Chosen(s, order, false)|) <= Visits(walk)
    ensures var f := Serialize(e, s, order, checksum);
            var r := Unserialize(reader, f, checksum', walk);
            && (r.Some? <==> e.key != 0)
            && (r.Some? ==> Sound(Keyed(reader, f), r.value) && AllKept(Keyed(reader, f), f, r.value) && LoneKnown(Keyed(reader, f), f, r.value))
  {
    var f, ids, m := Serialize(e, s, order, checksum), FileOrder(s, order), |Chosen(s, order, false)|;
    SerializeDescribes(e, s, order, checksum);
    WrittenReadable(e, s, ids, m, reader);
    Rebucketed(reader, f, checksum', walk);
    if e.key != 0 {
      LoneSurvive(e, s, ids, m, Keyed(reader, f), f, Unserialize(reader, f, checksum', walk).value);
    }
  }

  lemma LoneSurvive(e: Env, s: State, ids: seq<Id>, m: nat, reader: Env, f: File, u: State)
    requires Consistent(e, s, {}, {}) && Describes(e, f, s, ids, m) && ValidEnv(reader) && AllKept(reader, f, u)
    ensures LoneKnown(reader, f, u)
  {
    forall k | 0 <= k < f.nNew && LoneAt(reader, f, k) ensures f.records[k].addr in u.byAddr {
      WrittenNamed(e, s, ids, m, k);
      LoneFirst(reader, f.records, m, AllNamed(f.buckets, 0, m), k);
      assert NewKept(reader, f.records, AllNamed(f.buckets, 0, f.nNew), u, k);
    }
  }
}
