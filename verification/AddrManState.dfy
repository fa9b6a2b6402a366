/** The address manager's state: entries by id, two indexes, the bucket tables for "new" and "tried"
    entries, and counters that must agree with them. This module holds the elementary changes that
    every operation is made of and shows what each of them keeps. */
module AddrManState {
  import opened Collections

  type Id = int

  type Host = nat

  type Network = nat

  datatype Service = Service(host: Host, port: nat)

  /** A cell of a table: bucket and position. */
  datatype Cell = Cell(bucket: nat, pos: nat)

  datatype Info = Info(
    addr: Service, services: set<nat>, time: int, source: Host, lastTry: int, lastCountAttempt: int,
    lastSuccess: int, attempts: int, refCount: int, inTried: bool, randomPos: int)

  datatype Count = Count(nNew: int, nTried: int)

  /** Table sizes, the secret key, the hashes that choose cells under a key, and the facts about hosts
      that other components decide. */
  datatype Env = Env(
    newBuckets: nat, triedBuckets: nat, bucketSize: nat, key: nat,
    triedBucket: (nat, Service) -> nat, newBucket: (nat, Service, Host) -> nat, position: (nat, Service, bool, nat) -> nat,
    network: Host -> Network, routable: Host -> bool, valid: Host -> bool)

  /** The hashes stay within the tables. */
  ghost predicate ValidEnv(e: Env) {
    && (forall key, a :: e.triedBucket(key, a) < e.triedBuckets)
    && (forall key, a, source :: e.newBucket(key, a, source) < e.newBuckets)
    && (forall key, a, isNew, bucket :: e.position(key, a, isNew, bucket) < e.bucketSize)
  }

  function TriedBucket(e: Env, a: Service): (b: nat)
    requires ValidEnv(e)
    ensures b < e.triedBuckets
  {
    e.triedBucket(e.key, a)
  }

  function NewBucket(e: Env, a: Service, source: Host): (b: nat)
    requires ValidEnv(e)
    ensures b < e.newBuckets
  {
    e.newBucket(e.key, a, source)
  }

  function Position(e: Env, a: Service, isNew: bool, bucket: nat): (p: nat)
    requires ValidEnv(e)
    ensures p < e.bucketSize
  {
    e.position(e.key, a, isNew, bucket)
  }

  function TriedCell(e: Env, a: Service): Cell
    requires ValidEnv(e)
  {
    Cell(TriedBucket(e, a), Position(e, a, false, TriedBucket(e, a)))
  }

  function NewCell(e: Env, a: Service, source: Host): Cell
    requires ValidEnv(e)
  {
    Cell(NewBucket(e, a, source), Position(e, a, true, NewBucket(e, a, source)))
  }

  datatype State = State(
    info: map<Id, Info>, byAddr: map<Service, Id>, random: seq<Id>,
    newTable: map<Cell, Id>, triedTable: map<Cell, Id>,
    nNew: int, nTried: int, counts: map<Network, Count>,
    idCount: int, lastGood: int, collisions: seq<Id>)

  const EMPTY := State(map[], map[], [], map[], map[], 0, 0, map[], 0, 1, [])

  // ----- The invariant -----
  // `limbo` holds the ids that an operation is moving: they have no cell at the moment.
  // `skipped` holds those of them that the counters leave out.

  ghost predicate AddrOk(s: State) {
    && (forall id :: id in s.info ==> s.info[id].addr in s.byAddr && s.byAddr[s.info[id].addr] == id)
    && (forall a :: a in s.byAddr ==> s.byAddr[a] in s.info && s.info[s.byAddr[a]].addr == a)
  }

  ghost predicate RandomOk(s: State) {
    && (forall id :: id in s.info ==>
          0 <= s.info[id].randomPos < |s.random| && s.random[s.info[id].randomPos] == id)
    && (forall i :: 0 <= i < |s.random| ==> s.random[i] in s.info && s.info[s.random[i]].randomPos == i)
  }

  ghost predicate TriedOk(e: Env, s: State)
    requires ValidEnv(e)
  {
    && (forall c :: c in s.triedTable ==>
          s.triedTable[c] in s.info && s.info[s.triedTable[c]].inTried && c == TriedCell(e, s.info[s.triedTable[c]].addr))
    && (forall id :: id in s.info && s.info[id].inTried ==>
          TriedCell(e, s.info[id].addr) in s.triedTable && s.triedTable[TriedCell(e, s.info[id].addr)] == id)
  }

  /** The cells of the new table that hold an id. */
  ghost function Refs(table: map<Cell, Id>, id: Id): set<Cell> {
    set c | c in table && table[c] == id
  }

  const MAX_REFS: int := 8

  ghost predicate NewOk(e: Env, s: State, limbo: set<Id>)
    requires ValidEnv(e)
  {
    && (forall c :: c in s.newTable ==>
          && s.newTable[c] in s.info && !s.info[s.newTable[c]].inTried
          && c.bucket < e.newBuckets && c.pos == Position(e, s.info[s.newTable[c]].addr, true, c.bucket))
    && (forall id :: id in s.info ==> s.info[id].refCount == |Refs(s.newTable, id)| <= MAX_REFS)
    && (forall id :: id in s.info ==> (s.info[id].refCount == 0 <==> s.info[id].inTried || id in limbo))
    && (forall id :: id in limbo ==> id in s.info && !s.info[id].inTried)
  }

  function NetOf(e: Env, i: Info): Network { e.network(i.addr.host) }

  /** The entry is tried or new, as asked, and not left out. */
  predicate Counted(s: State, tried: bool, skipped: set<Id>, id: Id) {
    id in s.info && s.info[id].inTried == tried && id !in skipped
  }

  ghost function Members(s: State, tried: bool, skipped: set<Id>): set<Id> {
    set id | id in s.info && Counted(s, tried, skipped, id)
  }

  ghost function NetMembers(e: Env, s: State, tried: bool, skipped: set<Id>, net: Network): set<Id> {
    set id | id in s.info && CountedIn(e, s, tried, skipped, net, id)
  }

  predicate CountedIn(e: Env, s: State, tried: bool, skipped: set<Id>, net: Network, id: Id) {
    Counted(s, tried, skipped, id) && NetOf(e, s.info[id]) == net
  }

  function CountOf(counts: map<Network, Count>, net: Network): Count {
    if net in counts then counts[net] else Count(0, 0)
  }

  function CountAt(s: State, tried: bool, net: Network): int {
    if tried then CountOf(s.counts, net).nTried else CountOf(s.counts, net).nNew
  }

  function Total(s: State, tried: bool): int {
    if tried then s.nTried else s.nNew
  }

  /** The counters of one table are the true counts. */
  ghost predicate CountOk(e: Env, s: State, tried: bool, skipped: set<Id>) {
    && Total(s, tried) == |Members(s, tried, skipped)|
    && forall net :: CountAt(s, tried, net) == |NetMembers(e, s, tried, skipped, net)|
  }

  ghost predicate IdsOk(s: State) {
    s.idCount >= 0 && forall id :: id in s.info ==> 0 <= id < s.idCount
  }

  ghost predicate TimesOk(s: State) {
    forall id :: id in s.info ==>
      s.info[id].lastTry >= 0 && s.info[id].lastSuccess >= 0 && (s.info[id].inTried ==> s.info[id].lastSuccess > 0)
  }

  ghost predicate AllOk(e: Env, s: State, limbo: set<Id>, skipped: set<Id>) {
    && ValidEnv(e) && skipped <= limbo
    && AddrOk(s) && RandomOk(s) && TriedOk(e, s) && NewOk(e, s, limbo)
    && CountOk(e, s, false, skipped) && CountOk(e, s, true, {}) && IdsOk(s) && TimesOk(s)
  }

  /** Either no operation is under way, or one that is moving some ids. */
  datatype Phase = Idle | Moving(limbo: set<Id>, skipped: set<Id>)

  ghost predicate ConsistentIn(e: Env, s: State, phase: Phase) {
    match phase
    case Idle => AllOk(e, s, {}, {})
    case Moving(limbo, skipped) => AllOk(e, s, limbo, skipped)
  }

  ghost predicate Consistent(e: Env, s: State, limbo: set<Id>, skipped: set<Id>) {
    ConsistentIn(e, s, Moving(limbo, skipped))
  }

  // ----- What `CheckAddrman` looks at -----

  /** Its demands on a single entry. */
  ghost predicate EntryChecked(s: State, id: Id)
    requires id in s.info
  {
    var i := s.info[id];
    && (if i.inTried then i.lastSuccess != 0 && i.refCount == 0 else 0 < i.refCount <= MAX_REFS)
    && i.addr in s.byAddr && s.byAddr[i.addr] == id
    && 0 <= i.randomPos < |s.random| && s.random[i.randomPos] == id
    && i.lastTry >= 0 && i.lastSuccess >= 0
  }

  /** The networks that have an entry. */
  ghost function Networks(e: Env, s: State): set<Network> {
    set id | id in s.info :: NetOf(e, s.info[id])
  }

  /** Its demands on the counters: those that exist are right, and there are enough of them. */
  ghost predicate CountsChecked(e: Env, s: State) {
    && |Networks(e, s)| <= |s.counts|
    && forall net :: net in s.counts ==>
         s.counts[net].nNew == |NetMembers(e, s, false, {}, net)| && s.counts[net].nTried == |NetMembers(e, s, true, {}, net)|
  }

  /** All its demands. */
  ghost predicate Checked(e: Env, s: State)
    requires ValidEnv(e)
  {
    && |s.random| == s.nTried + s.nNew
    && (forall id :: id in s.info ==> EntryChecked(s, id))
    && s.nTried == |Members(s, true, {})| && s.nNew == |Members(s, false, {})|
    && TriedOk(e, s) && NewOk(e, s, {}) && e.key != 0 && CountsChecked(e, s)
  }

  /** What it does not look at: ids below the next one, an index without stale addresses, and a
      counter for every network that has an entry. */
  ghost predicate Unchecked(e: Env, s: State) {
    && IdsOk(s)
    && (forall a :: a in s.byAddr ==> s.byAddr[a] in s.info && s.info[s.byAddr[a]].addr == a)
    && Networks(e, s) <= s.counts.Keys
  }

  lemma AddToNone(id: Id)
    ensures {} + {id} == {id} && {id} - {id} == {}
  {}

  lemma AddAndTake(limbo: set<Id>, id: Id)
    requires id !in limbo
    ensures limbo + {id} - {id} == limbo
  {}

  lemma TakeOnly(limbo: set<Id>, id: Id)
    requires limbo <= {id}
    ensures limbo - {id} == {} && (limbo == {} || limbo == {id})
  {
    assert id in limbo ==> limbo == {id};
    assert id !in limbo ==> limbo == {};
  }

  // ----- Elementary changes -----

  function AddCount(counts: map<Network, Count>, net: Network, dNew: int, dTried: int): map<Network, Count> {
    counts[net := Count(CountOf(counts, net).nNew + dNew, CountOf(counts, net).nTried + dTried)]
  }

  /** Replace an entry by one that differs in times, services and attempts only. */
  function Touch(s: State, id: Id, i: Info): State {
    s.(info := s.info[id := i])
  }

  predicate SameShape(i: Info, j: Info) {
    i.addr == j.addr && i.source == j.source && i.refCount == j.refCount && i.inTried == j.inTried && i.randomPos == j.randomPos
  }

  /** Take an entry out of every cell of the new table. */
  function DropNew(s: State, id: Id): State
    requires id in s.info
  {
    s.(info := s.info[id := s.info[id].(refCount := 0)],
       newTable := map c | c in s.newTable && s.newTable[c] != id :: s.newTable[c])
  }

  function UncountNew(e: Env, s: State, id: Id): State
    requires id in s.info
  {
    s.(nNew := s.nNew - 1, counts := AddCount(s.counts, NetOf(e, s.info[id]), -1, 0))
  }

  /** Take an entry out of its tried cell. */
  function TakeTried(e: Env, s: State, c: Cell): State
    requires c in s.triedTable && s.triedTable[c] in s.info
  {
    var id := s.triedTable[c];
    s.(info := s.info[id := s.info[id].(inTried := false)], triedTable := s.triedTable - {c},
       nTried := s.nTried - 1, counts := AddCount(s.counts, NetOf(e, s.info[id]), 0, -1))
  }

  /** Put an entry that has no cell into one cell of the new table. */
  function PlaceNew(e: Env, s: State, id: Id, c: Cell): State
    requires id in s.info
  {
    s.(info := s.info[id := s.info[id].(refCount := 1)], newTable := s.newTable[c := id],
       nNew := s.nNew + 1, counts := AddCount(s.counts, NetOf(e, s.info[id]), 1, 0))
  }

  /** Put an entry that has no cell into its tried cell. */
  function PlaceTried(e: Env, s: State, id: Id, c: Cell): State
    requires id in s.info
  {
    s.(info := s.info[id := s.info[id].(inTried := true)], triedTable := s.triedTable[c := id],
       nTried := s.nTried + 1, counts := AddCount(s.counts, NetOf(e, s.info[id]), 0, 1))
  }

  /** Give an entry one more cell of the new table. */
  function AddRef(s: State, id: Id, c: Cell): State
    requires id in s.info
  {
    s.(info := s.info[id := s.info[id].(refCount := s.info[id].refCount + 1)], newTable := s.newTable[c := id])
  }

  /** Take one cell of the new table away from its entry. */
  function DropRef(s: State, c: Cell): State
    requires c in s.newTable && s.newTable[c] in s.info
  {
    var id := s.newTable[c];
    s.(info := s.info[id := s.info[id].(refCount := s.info[id].refCount - 1)], newTable := s.newTable - {c})
  }

  // ----- What the changes keep -----

  /** Ids, addresses and the random order are as before. */
  ghost predicate SameEntries(s: State, t: State) {
    && t.byAddr == s.byAddr && t.random == s.random && t.idCount == s.idCount && t.info.Keys == s.info.Keys
    && forall id :: id in s.info ==> t.info[id].addr == s.info[id].addr && t.info[id].randomPos == s.info[id].randomPos
  }

  lemma KeepsEntries(s: State, t: State)
    requires SameEntries(s, t) && AddrOk(s) && RandomOk(s) && IdsOk(s)
    ensures AddrOk(t) && RandomOk(t) && IdsOk(t)
  {
    assert forall id :: id in t.info <==> id in s.info;
  }

  /** One entry changes in nothing that the indexes and times look at. */
  lemma OneChanged(s: State, t: State, id: Id)
    requires AddrOk(s) && RandomOk(s) && IdsOk(s) && TimesOk(s) && id in s.info && id in t.info
    requires t.byAddr == s.byAddr && t.random == s.random && t.idCount == s.idCount && t.info == s.info[id := t.info[id]]
    requires t.info[id].addr == s.info[id].addr && t.info[id].randomPos == s.info[id].randomPos
    requires t.info[id].lastTry == s.info[id].lastTry && t.info[id].lastSuccess == s.info[id].lastSuccess
    requires t.info[id].inTried ==> s.info[id].inTried
    ensures AddrOk(t) && RandomOk(t) && IdsOk(t) && TimesOk(t)
  {
    assert t.info.Keys == s.info.Keys;
    KeepsEntries(s, t);
  }

  /** The same entries are counted in a table, apart from id. */
  ghost predicate SameOthers(s: State, skipped: set<Id>, t: State, skipped': set<Id>, tried: bool, id: Id) {
    forall x :: x != id ==>
      && (Counted(t, tried, skipped', x) <==> Counted(s, tried, skipped, x))
      && (Counted(s, tried, skipped, x) ==> t.info[x].addr == s.info[x].addr)
  }

  ghost predicate SameFor(s: State, skipped: set<Id>, t: State, skipped': set<Id>, tried: bool, id: Id) {
    && (Counted(t, tried, skipped', id) <==> Counted(s, tried, skipped, id))
    && (Counted(s, tried, skipped, id) ==> t.info[id].addr == s.info[id].addr)
  }

  lemma CountKept(e: Env, s: State, skipped: set<Id>, t: State, skipped': set<Id>, tried: bool, id: Id)
    requires CountOk(e, s, tried, skipped)
    requires SameOthers(s, skipped, t, skipped', tried, id) && SameFor(s, skipped, t, skipped', tried, id)
    requires Total(t, tried) == Total(s, tried) && forall net :: CountAt(t, tried, net) == CountAt(s, tried, net)
    ensures CountOk(e, t, tried, skipped')
  {
    assert Members(t, tried, skipped') == Members(s, tried, skipped);
    forall net ensures CountAt(t, tried, net) == |NetMembers(e, t, tried, skipped', net)| {
      assert NetMembers(e, t, tried, skipped', net) == NetMembers(e, s, tried, skipped, net);
      assert CountAt(t, tried, net) == CountAt(s, tried, net);
    }
  }

  lemma NetGains(e: Env, s: State, skipped: set<Id>, t: State, skipped': set<Id>, tried: bool, id: Id, net: Network)
    requires SameOthers(s, skipped, t, skipped', tried, id)
    requires !Counted(s, tried, skipped, id) && Counted(t, tried, skipped', id)
    ensures |NetMembers(e, t, tried, skipped', net)|
         == |NetMembers(e, s, tried, skipped, net)| + (if net == NetOf(e, t.info[id]) then 1 else 0)
  {
    var n, m := NetMembers(e, s, tried, skipped, net), NetMembers(e, t, tried, skipped', net);
    forall x | x != id ensures x in m <==> x in n {
      assert CountedIn(e, t, tried, skipped', net, x) <==> CountedIn(e, s, tried, skipped, net, x);
    }
    assert id !in n && (id in m <==> net == NetOf(e, t.info[id]));
    OneMore(n, m, id);
  }

  lemma CountLess(e: Env, s: State, skipped: set<Id>, t: State, skipped': set<Id>, tried: bool, id: Id)
    requires CountOk(e, s, tried, skipped) && SameOthers(s, skipped, t, skipped', tried, id)
    requires Counted(s, tried, skipped, id) && !Counted(t, tried, skipped', id)
    requires Total(t, tried) == Total(s, tried) - 1
    requires forall net :: CountAt(t, tried, net) == CountAt(s, tried, net) - (if net == NetOf(e, s.info[id]) then 1 else 0)
    ensures CountOk(e, t, tried, skipped')
  {
    assert Members(t, tried, skipped') == Members(s, tried, skipped) - {id};
    forall net ensures CountAt(t, tried, net) == |NetMembers(e, t, tried, skipped', net)| {
      assert CountAt(t, tried, net) == CountAt(s, tried, net) - (if net == NetOf(e, s.info[id]) then 1 else 0);
      NetGains(e, t, skipped', s, skipped, tried, id, net);
    }
  }

  lemma CountMore(e: Env, s: State, skipped: set<Id>, t: State, skipped': set<Id>, tried: bool, id: Id)
    requires CountOk(e, s, tried, skipped) && SameOthers(s, skipped, t, skipped', tried, id)
    requires !Counted(s, tried, skipped, id) && Counted(t, tried, skipped', id)
    requires Total(t, tried) == Total(s, tried) + 1
    requires forall net :: CountAt(t, tried, net) == CountAt(s, tried, net) + (if net == NetOf(e, t.info[id]) then 1 else 0)
    ensures CountOk(e, t, tried, skipped')
  {
    assert Members(t, tried, skipped') == Members(s, tried, skipped) + {id};
    forall net ensures CountAt(t, tried, net) == |NetMembers(e, t, tried, skipped', net)| {
      assert CountAt(t, tried, net) == CountAt(s, tried, net) + (if net == NetOf(e, t.info[id]) then 1 else 0);
      NetGains(e, s, skipped, t, skipped', tried, id, net);
    }
  }

  /** Changing an entry in other respects than its address and table keeps the counts. */
  lemma EntryCounts(e: Env, s: State, t: State, id: Id, skipped: set<Id>)
    requires id in s.info && id in t.info && t.info == s.info[id := t.info[id]]
    requires t.info[id].addr == s.info[id].addr && t.info[id].inTried == s.info[id].inTried
    requires t.nNew == s.nNew && t.nTried == s.nTried && t.counts == s.counts
    requires CountOk(e, s, false, skipped) && CountOk(e, s, true, {})
    ensures CountOk(e, t, false, skipped) && CountOk(e, t, true, {})
  {
    CountKept(e, s, skipped, t, skipped, false, id);
    CountKept(e, s, {}, t, {}, true, id);
  }

  /** Touching an entry keeps everything if times stay sensible. */
  lemma TouchKeeps(e: Env, s: State, id: Id, i: Info, limbo: set<Id>, skipped: set<Id>)
    requires Consistent(e, s, limbo, skipped) && id in s.info && SameShape(s.info[id], i)
    requires i.lastTry >= 0 && i.lastSuccess >= 0 && (i.inTried ==> i.lastSuccess > 0)
    ensures Consistent(e, Touch(s, id, i), limbo, skipped)
  {
    var t := Touch(s, id, i);
    assert t.info.Keys == s.info.Keys;
    KeepsEntries(s, t);
    EntryCounts(e, s, t, id, skipped);
    TouchTables(e, s, id, i, limbo);
  }

  lemma TouchTables(e: Env, s: State, id: Id, i: Info, limbo: set<Id>)
    requires ValidEnv(e) && TriedOk(e, s) && NewOk(e, s, limbo) && id in s.info && SameShape(s.info[id], i)
    ensures TriedOk(e, Touch(s, id, i)) && NewOk(e, Touch(s, id, i), limbo)
  {
    var t := Touch(s, id, i);
    assert forall x :: x in t.info ==> x in s.info && SameShape(s.info[x], t.info[x]);
  }

  // Dropping all cells of an entry.

  lemma DropNewKeeps(e: Env, s: State, id: Id, limbo: set<Id>, skipped: set<Id>)
    requires Consistent(e, s, limbo, skipped) && id in s.info && !s.info[id].inTried
    ensures Consistent(e, DropNew(s, id), limbo + {id}, skipped)
  {
    var t := DropNew(s, id);
    assert t.info.Keys == s.info.Keys;
    KeepsEntries(s, t);
    EntryCounts(e, s, t, id, skipped);
    DropNewTable(e, s, id, limbo);
    DropNewTried(e, s, id);
  }

  lemma DropNewTried(e: Env, s: State, id: Id)
    requires ValidEnv(e) && TriedOk(e, s) && id in s.info && !s.info[id].inTried
    ensures TriedOk(e, DropNew(s, id))
  {
    var t := DropNew(s, id);
    assert forall x :: x in t.info ==> x in s.info && s.info[x].addr == t.info[x].addr && s.info[x].inTried == t.info[x].inTried;
  }

  lemma DropNewTable(e: Env, s: State, id: Id, limbo: set<Id>)
    requires ValidEnv(e) && NewOk(e, s, limbo) && id in s.info && !s.info[id].inTried
    ensures NewOk(e, DropNew(s, id), limbo + {id})
  {
    var t := DropNew(s, id);
    forall x | x in t.info ensures t.info[x].refCount == |Refs(t.newTable, x)| <= MAX_REFS {
      if x == id {
        assert Refs(t.newTable, x) == {};
      } else {
        assert Refs(t.newTable, x) == Refs(s.newTable, x);
      }
    }
  }

  lemma UncountKeeps(e: Env, s: State, id: Id, limbo: set<Id>, skipped: set<Id>)
    requires Consistent(e, s, limbo, skipped) && id in limbo - skipped
    ensures Consistent(e, UncountNew(e, s, id), limbo, skipped + {id})
  {
    var t := UncountNew(e, s, id);
    KeepsEntries(s, t);
    UncountCounts(e, s, id, skipped);
  }

  lemma UncountCounts(e: Env, s: State, id: Id, skipped: set<Id>)
    requires id in s.info && !s.info[id].inTried && id !in skipped
    requires CountOk(e, s, false, skipped) && CountOk(e, s, true, {})
    ensures CountOk(e, UncountNew(e, s, id), false, skipped + {id}) && CountOk(e, UncountNew(e, s, id), true, {})
  {
    var t := UncountNew(e, s, id);
    CountLess(e, s, skipped, t, skipped + {id}, false, id);
    CountKept(e, s, {}, t, {}, true, id);
  }

  lemma TakeTriedKeeps(e: Env, s: State, c: Cell, limbo: set<Id>, skipped: set<Id>)
    requires Consistent(e, s, limbo, skipped) && c in s.triedTable
    ensures Consistent(e, TakeTried(e, s, c), limbo + {s.triedTable[c]}, skipped + {s.triedTable[c]})
  {
    OneChanged(s, TakeTried(e, s, c), s.triedTable[c]);
    TakeTriedCounts(e, s, c, skipped);
    TakeTriedTables(e, s, c, limbo);
  }

  lemma TakeTriedCounts(e: Env, s: State, c: Cell, skipped: set<Id>)
    requires c in s.triedTable && s.triedTable[c] in s.info && s.info[s.triedTable[c]].inTried
    requires CountOk(e, s, false, skipped) && CountOk(e, s, true, {})
    ensures CountOk(e, TakeTried(e, s, c), false, skipped + {s.triedTable[c]}) && CountOk(e, TakeTried(e, s, c), true, {})
  {
    var t, id := TakeTried(e, s, c), s.triedTable[c];
    CountKept(e, s, skipped, t, skipped + {id}, false, id);
    CountLess(e, s, {}, t, {}, true, id);
  }

  lemma TakeTriedTables(e: Env, s: State, c: Cell, limbo: set<Id>)
    requires ValidEnv(e) && TriedOk(e, s) && NewOk(e, s, limbo) && c in s.triedTable
    ensures TriedOk(e, TakeTried(e, s, c)) && NewOk(e, TakeTried(e, s, c), limbo + {s.triedTable[c]})
  {
    var t, id := TakeTried(e, s, c), s.triedTable[c];
    forall x | x in t.info
      ensures x in s.info && t.info[x].addr == s.info[x].addr && t.info[x].refCount == s.info[x].refCount
      ensures x != id ==> t.info[x].inTried == s.info[x].inTried
    {}
  }

  lemma PlaceTriedKeeps(e: Env, s: State, id: Id, limbo: set<Id>, skipped: set<Id>)
    requires Consistent(e, s, limbo, skipped) && id in limbo && id in skipped && s.info[id].lastSuccess > 0
    requires TriedCell(e, s.info[id].addr) !in s.triedTable
    ensures Consistent(e, PlaceTried(e, s, id, TriedCell(e, s.info[id].addr)), limbo - {id}, skipped - {id})
  {
    var t := PlaceTried(e, s, id, TriedCell(e, s.info[id].addr));
    assert t.info.Keys == s.info.Keys;
    KeepsEntries(s, t);
    PlaceTriedCounts(e, s, id, TriedCell(e, s.info[id].addr), skipped);
    PlaceTriedTables(e, s, id, limbo);
  }

  lemma PlaceTriedCounts(e: Env, s: State, id: Id, c: Cell, skipped: set<Id>)
    requires id in s.info && !s.info[id].inTried && id in skipped
    requires CountOk(e, s, false, skipped) && CountOk(e, s, true, {})
    ensures CountOk(e, PlaceTried(e, s, id, c), false, skipped - {id}) && CountOk(e, PlaceTried(e, s, id, c), true, {})
  {
    var t := PlaceTried(e, s, id, c);
    CountKept(e, s, skipped, t, skipped - {id}, false, id);
    CountMore(e, s, {}, t, {}, true, id);
  }

  lemma PlaceTriedTables(e: Env, s: State, id: Id, limbo: set<Id>)
    requires ValidEnv(e) && TriedOk(e, s) && NewOk(e, s, limbo) && id in limbo
    requires TriedCell(e, s.info[id].addr) !in s.triedTable
    ensures var t := PlaceTried(e, s, id, TriedCell(e, s.info[id].addr)); TriedOk(e, t) && NewOk(e, t, limbo - {id})
  {
    var t := PlaceTried(e, s, id, TriedCell(e, s.info[id].addr));
    forall x | x in t.info
      ensures x in s.info && t.info[x].addr == s.info[x].addr && t.info[x].refCount == s.info[x].refCount
      ensures x != id ==> t.info[x].inTried == s.info[x].inTried
    {}
    NoCells(e, s, id, limbo);
  }

  lemma NoCells(e: Env, s: State, id: Id, limbo: set<Id>)
    requires ValidEnv(e) && NewOk(e, s, limbo) && id in limbo
    ensures Refs(s.newTable, id) == {} && forall d :: d in s.newTable ==> s.newTable[d] != id
  {
    assert |Refs(s.newTable, id)| == 0;
    forall d | d in s.newTable ensures s.newTable[d] != id {
      assert d !in Refs(s.newTable, id);
    }
  }

  // Giving and taking single cells of the new table.

  /** The cell may hold the entry in the new table. */
  predicate Fits(e: Env, a: Service, c: Cell)
    requires ValidEnv(e)
  {
    c.bucket < e.newBuckets && c.pos == Position(e, a, true, c.bucket)
  }

  lemma RefsAdded(table: map<Cell, Id>, c: Cell, id: Id, x: Id)
    requires c !in table
    ensures |Refs(table[c := id], x)| == |Refs(table, x)| + (if x == id then 1 else 0)
  {
    if x == id {
      assert Refs(table[c := id], x) == Refs(table, x) + {c};
    } else {
      assert Refs(table[c := id], x) == Refs(table, x);
    }
  }

  lemma RefsRemoved(table: map<Cell, Id>, c: Cell, x: Id)
    requires c in table
    ensures |Refs(table - {c}, x)| == |Refs(table, x)| - (if x == table[c] then 1 else 0)
  {
    assert Refs(table - {c}, x) == Refs(table, x) - {c};
  }

  lemma AddRefKeeps(e: Env, s: State, id: Id, c: Cell, limbo: set<Id>, skipped: set<Id>)
    requires Consistent(e, s, limbo, skipped) && id in s.info && !s.info[id].inTried && id !in skipped
    requires c !in s.newTable && Fits(e, s.info[id].addr, c) && s.info[id].refCount < MAX_REFS
    ensures Consistent(e, AddRef(s, id, c), limbo - {id}, skipped)
  {
    OneChanged(s, AddRef(s, id, c), id);
    EntryCounts(e, s, AddRef(s, id, c), id, skipped);
    AddRefTables(e, s, id, c, limbo);
  }

  lemma AddRefTables(e: Env, s: State, id: Id, c: Cell, limbo: set<Id>)
    requires ValidEnv(e) && TriedOk(e, s) && NewOk(e, s, limbo) && id in s.info && !s.info[id].inTried
    requires c !in s.newTable && Fits(e, s.info[id].addr, c) && s.info[id].refCount < MAX_REFS
    ensures TriedOk(e, AddRef(s, id, c)) && NewOk(e, AddRef(s, id, c), limbo - {id})
  {
    var t := AddRef(s, id, c);
    forall x | x in t.info
      ensures x in s.info && t.info[x].addr == s.info[x].addr && t.info[x].inTried == s.info[x].inTried
      ensures t.info[x].refCount == |Refs(t.newTable, x)| <= MAX_REFS
    {
      RefsAdded(s.newTable, c, id, x);
    }
  }

  lemma DropRefKeeps(e: Env, s: State, c: Cell, limbo: set<Id>, skipped: set<Id>)
    requires Consistent(e, s, limbo, skipped) && c in s.newTable
    ensures var id := s.newTable[c];
            Consistent(e, DropRef(s, c), if s.info[id].refCount == 1 then limbo + {id} else limbo, skipped)
  {
    OneChanged(s, DropRef(s, c), s.newTable[c]);
    EntryCounts(e, s, DropRef(s, c), s.newTable[c], skipped);
    DropRefTables(e, s, c, limbo);
  }

  lemma DropRefTables(e: Env, s: State, c: Cell, limbo: set<Id>)
    requires ValidEnv(e) && TriedOk(e, s) && NewOk(e, s, limbo) && c in s.newTable
    ensures TriedOk(e, DropRef(s, c))
    ensures var id := s.newTable[c]; NewOk(e, DropRef(s, c), if s.info[id].refCount == 1 then limbo + {id} else limbo)
  {
    var t, id := DropRef(s, c), s.newTable[c];
    forall x | x in t.info
      ensures x in s.info && t.info[x].addr == s.info[x].addr && t.info[x].inTried == s.info[x].inTried
      ensures t.info[x].refCount == |Refs(t.newTable, x)| <= MAX_REFS
    {
      RefsRemoved(s.newTable, c, x);
    }
    assert c in Refs(s.newTable, id);
  }

  /** An entry without cells that the counters skip enters the new table. */
  lemma PlaceNewKeeps(e: Env, s: State, id: Id, c: Cell, limbo: set<Id>, skipped: set<Id>)
    requires Consistent(e, s, limbo, skipped) && id in limbo && id in skipped
    requires c !in s.newTable && Fits(e, s.info[id].addr, c)
    ensures Consistent(e, PlaceNew(e, s, id, c), limbo - {id}, skipped - {id})
  {
    OneChanged(s, PlaceNew(e, s, id, c), id);
    PlaceNewCounts(e, s, id, c, skipped);
    PlaceNewTables(e, s, id, c, limbo);
  }

  lemma PlaceNewTables(e: Env, s: State, id: Id, c: Cell, limbo: set<Id>)
    requires ValidEnv(e) && TriedOk(e, s) && NewOk(e, s, limbo) && id in limbo && c !in s.newTable && Fits(e, s.info[id].addr, c)
    ensures TriedOk(e, PlaceNew(e, s, id, c)) && NewOk(e, PlaceNew(e, s, id, c), limbo - {id})
  {
    var r, t := AddRef(s, id, c), PlaceNew(e, s, id, c);
    AddRefTables(e, s, id, c, limbo);
    assert s.info[id].refCount == 0 && t.info == r.info && t.newTable == r.newTable && t.triedTable == r.triedTable;
    SameTables(e, r, t, limbo - {id});
  }

  lemma PlaceNewCounts(e: Env, s: State, id: Id, c: Cell, skipped: set<Id>)
    requires id in s.info && !s.info[id].inTried && id in skipped
    requires CountOk(e, s, false, skipped) && CountOk(e, s, true, {})
    ensures CountOk(e, PlaceNew(e, s, id, c), false, skipped - {id}) && CountOk(e, PlaceNew(e, s, id, c), true, {})
  {
    var t := PlaceNew(e, s, id, c);
    CountMore(e, s, skipped, t, skipped - {id}, false, id);
    CountKept(e, s, {}, t, {}, true, id);
  }

  lemma SameTables(e: Env, s: State, t: State, limbo: set<Id>)
    requires ValidEnv(e) && TriedOk(e, s) && NewOk(e, s, limbo)
    requires t.info == s.info && t.newTable == s.newTable && t.triedTable == s.triedTable
    ensures TriedOk(e, t) && NewOk(e, t, limbo)
  {}

  // ----- Creating and deleting entries -----

  function Fresh(s: State, addr: Service, services: set<nat>, time: int, source: Host): Info {
    Info(addr, services, time, source, 0, 0, 0, 0, 0, false, |s.random|)
  }

  /** `Create`: the entry gets the next id and counts as new, but has no cell yet. */
  function Create(e: Env, s: State, addr: Service, services: set<nat>, time: int, source: Host): State {
    var id, i := s.idCount, Fresh(s, addr, services, time, source);
    s.(idCount := id + 1, info := s.info[id := i], byAddr := s.byAddr[addr := id], random := s.random + [id],
       nNew := s.nNew + 1, counts := AddCount(s.counts, NetOf(e, i), 1, 0))
  }

  lemma CreateKeeps(e: Env, s: State, addr: Service, services: set<nat>, time: int, source: Host, limbo: set<Id>, limbo': set<Id>)
    requires Consistent(e, s, limbo, {}) && addr !in s.byAddr && limbo' == limbo + {s.idCount}
    ensures Consistent(e, Create(e, s, addr, services, time, source), limbo', {})
  {
    CreateEntries(e, s, addr, services, time, source);
    CreateTables(e, s, addr, services, time, source, limbo);
    CreateCounts(e, s, addr, services, time, source, {});
  }

  lemma CreateEntries(e: Env, s: State, addr: Service, services: set<nat>, time: int, source: Host)
    requires AddrOk(s) && RandomOk(s) && IdsOk(s) && addr !in s.byAddr
    ensures var t := Create(e, s, addr, services, time, source); AddrOk(t) && RandomOk(t) && IdsOk(t)
  {
    assert s.idCount !in s.info;
  }

  lemma CreateTables(e: Env, s: State, addr: Service, services: set<nat>, time: int, source: Host, limbo: set<Id>)
    requires ValidEnv(e) && TriedOk(e, s) && NewOk(e, s, limbo) && IdsOk(s)
    ensures var t := Create(e, s, addr, services, time, source); TriedOk(e, t) && NewOk(e, t, limbo + {s.idCount})
  {
    var t, id := Create(e, s, addr, services, time, source), s.idCount;
    assert id !in s.info;
    assert Refs(t.newTable, id) == {};
    forall x | x in t.info && x != id ensures x in s.info && t.info[x] == s.info[x] {}
  }

  lemma CreateCounts(e: Env, s: State, addr: Service, services: set<nat>, time: int, source: Host, skipped: set<Id>)
    requires IdsOk(s) && s.idCount !in skipped && CountOk(e, s, false, skipped) && CountOk(e, s, true, {})
    ensures var t := Create(e, s, addr, services, time, source); CountOk(e, t, false, skipped) && CountOk(e, t, true, {})
  {
    var t, id := Create(e, s, addr, services, time, source), s.idCount;
    CountMore(e, s, skipped, t, skipped, false, id);
    CountKept(e, s, {}, t, {}, true, id);
  }

  /** `SwapRandom`: exchange two positions of the random order. */
  function SwapRandom(s: State, i: nat, j: nat): State
    requires i < |s.random| && j < |s.random| && s.random[i] in s.info && s.random[j] in s.info
  {
    if i == j then s
    else
      var a, b := s.random[i], s.random[j];
      var info := s.info[a := s.info[a].(randomPos := j)];
      s.(info := info[b := info[b].(randomPos := i)], random := s.random[i := b][j := a])
  }

  lemma SwapRandomOk(s: State, i: nat, j: nat)
    requires RandomOk(s) && i < |s.random| && j < |s.random|
    ensures RandomOk(SwapRandom(s, i, j))
  {
    assert s.random[i] in s.info && s.random[j] in s.info;
  }

  /** Addresses, tables and times of the entries are as before. */
  ghost predicate OnlyMoved(s: State, t: State) {
    && t.info.Keys == s.info.Keys
    && (forall x :: x in s.info ==> SamePlaces(s.info[x], t.info[x]))
    && t.byAddr == s.byAddr && t.idCount == s.idCount && t.newTable == s.newTable && t.triedTable == s.triedTable
    && t.nNew == s.nNew && t.nTried == s.nTried && t.counts == s.counts
  }

  predicate SamePlaces(i: Info, j: Info) {
    && j.addr == i.addr && j.refCount == i.refCount && j.inTried == i.inTried
    && j.lastTry == i.lastTry && j.lastSuccess == i.lastSuccess
  }

  lemma SwapMoves(s: State, i: nat, j: nat)
    requires RandomOk(s) && i < |s.random| && j < |s.random|
    ensures RandomOk(SwapRandom(s, i, j)) && OnlyMoved(s, SwapRandom(s, i, j))
  {
    var t := SwapRandom(s, i, j);
    SwapRandomOk(s, i, j);
    assert t.info.Keys == s.info.Keys;
  }

  /** Swapping changes nothing but positions. */
  lemma SwapKeeps(e: Env, s: State, i: nat, j: nat, limbo: set<Id>, skipped: set<Id>)
    requires Consistent(e, s, limbo, skipped) && i < |s.random| && j < |s.random|
    ensures Consistent(e, SwapRandom(s, i, j), limbo, skipped)
  {
    var t := SwapRandom(s, i, j);
    SwapMoves(s, i, j);
    MovedEntries(s, t);
    MovedTried(e, s, t);
    MovedNew(e, s, t, limbo);
    MovedCounts(e, s, t, skipped);
  }

  lemma MovedEntries(s: State, t: State)
    requires OnlyMoved(s, t) && AddrOk(s) && IdsOk(s) && TimesOk(s)
    ensures AddrOk(t) && IdsOk(t) && TimesOk(t)
  {
    forall x | x in t.info ensures x in s.info && SamePlaces(s.info[x], t.info[x]) {}
  }

  lemma MovedTried(e: Env, s: State, t: State)
    requires ValidEnv(e) && TriedOk(e, s) && OnlyMoved(s, t)
    ensures TriedOk(e, t)
  {
    forall x | x in t.info ensures x in s.info && SamePlaces(s.info[x], t.info[x]) {}
  }

  lemma MovedNew(e: Env, s: State, t: State, limbo: set<Id>)
    requires ValidEnv(e) && NewOk(e, s, limbo) && OnlyMoved(s, t)
    ensures NewOk(e, t, limbo)
  {
    forall x | x in t.info ensures x in s.info && SamePlaces(s.info[x], t.info[x]) {}
  }

  lemma MovedCounts(e: Env, s: State, t: State, skipped: set<Id>)
    requires OnlyMoved(s, t) && CountOk(e, s, false, skipped) && CountOk(e, s, true, {})
    ensures CountOk(e, t, false, skipped) && CountOk(e, t, true, {})
  {
    forall x | x in t.info ensures x in s.info && SamePlaces(s.info[x], t.info[x]) {}
    CountKept(e, s, skipped, t, skipped, false, -1);
    CountKept(e, s, {}, t, {}, true, -1);
  }

  /** Forget the entry at the end of the random order. */
  function DropLast(e: Env, s: State, id: Id): State
    requires id in s.info && s.random != []
  {
    s.(info := s.info - {id}, byAddr := s.byAddr - {s.info[id].addr}, random := s.random[..|s.random| - 1],
       nNew := s.nNew - 1, counts := AddCount(s.counts, NetOf(e, s.info[id]), -1, 0))
  }

  lemma DropLastKeeps(e: Env, s: State, id: Id, limbo: set<Id>, skipped: set<Id>)
    requires Consistent(e, s, limbo, skipped) && id in limbo && id !in skipped
    requires s.random != [] && s.random[|s.random| - 1] == id
    ensures Consistent(e, DropLast(e, s, id), limbo - {id}, skipped)
  {
    DropLastEntries(e, s, id);
    DropLastTables(e, s, id, limbo);
    DropLastCounts(e, s, id, skipped);
  }

  lemma DropLastEntries(e: Env, s: State, id: Id)
    requires AddrOk(s) && RandomOk(s) && IdsOk(s) && id in s.info && s.random != [] && s.random[|s.random| - 1] == id
    ensures var t := DropLast(e, s, id); AddrOk(t) && RandomOk(t) && IdsOk(t)
  {}

  lemma DropLastTables(e: Env, s: State, id: Id, limbo: set<Id>)
    requires ValidEnv(e) && TriedOk(e, s) && NewOk(e, s, limbo) && id in limbo && s.random != []
    ensures var t := DropLast(e, s, id); TriedOk(e, t) && NewOk(e, t, limbo - {id})
  {
    var t := DropLast(e, s, id);
    assert Refs(s.newTable, id) == {};
    assert forall d :: d in s.newTable && s.newTable[d] == id ==> d in Refs(s.newTable, id);
  }

  lemma DropLastCounts(e: Env, s: State, id: Id, skipped: set<Id>)
    requires id in s.info && !s.info[id].inTried && id !in skipped && s.random != []
    requires CountOk(e, s, false, skipped) && CountOk(e, s, true, {})
    ensures var t := DropLast(e, s, id); CountOk(e, t, false, skipped) && CountOk(e, t, true, {})
  {
    var t := DropLast(e, s, id);
    CountLess(e, s, skipped, t, skipped, false, id);
    CountKept(e, s, {}, t, {}, true, id);
  }
}
