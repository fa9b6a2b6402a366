/** Loading the records of a file, whatever they are: which entries there are after it, and that the
    consistency conditions hold but for the new entries, which have no cell yet. */
module AddrManReading {
  import opened Collections
  import opened AddrManState
  import opened AddrManSpec
  import opened AddrManDisk

  lemma AddrAt(s: State, id: Id)
    requires AddrOk(s) && id in s.info
    ensures s.info[id].addr in s.byAddr && s.byAddr[s.info[id].addr] == id
  {}

  lemma TriedAt(e: Env, s: State, id: Id)
    requires ValidEnv(e) && TriedOk(e, s) && id in s.info && s.info[id].inTried
    ensures var c := TriedCell(e, s.info[id].addr); c in s.triedTable && s.triedTable[c] == id
  {}

  lemma TriedFrom(e: Env, s: State, c: Cell)
    requires ValidEnv(e) && TriedOk(e, s) && c in s.triedTable
    ensures var id := s.triedTable[c]; id in s.info && s.info[id].inTried && TriedCell(e, s.info[id].addr) == c
  {}

  /** Records that a reader can use: m new ones and then tried ones, with valid and different addresses. */
  ghost predicate Readable(e: Env, records: seq<Record>, m: nat) {
    && m <= |records|
    && (forall k :: 0 <= k < |records| ==> ReadableAt(e, records, m, k))
    && (forall j, k :: 0 <= j < k < |records| ==> Differ(records, j, k))
  }

  predicate Differ(records: seq<Record>, j: nat, k: nat)
    requires j < |records| && k < |records|
  {
    records[j].addr != records[k].addr
  }

  predicate ReadableAt(e: Env, records: seq<Record>, m: nat, k: nat)
    requires k < |records|
  {
    e.valid(records[k].addr.host) && records[k].lastSuccess >= 0 && (m <= k ==> records[k].lastSuccess > 0)
  }

  /** The entry that a record stands for. */
  function EntryOf(r: Record, refs: int, tried: bool): Info {
    Info(r.addr, r.services, r.time, r.source, 0, 0, r.lastSuccess, r.attempts, refs, tried, 0)
  }

  /** No tried record before the k-th has its cell. */
  ghost predicate FirstTried(e: Env, records: seq<Record>, m: nat, k: nat)
    requires ValidEnv(e) && k < |records|
  {
    forall j :: m <= j < k ==> TriedCell(e, records[j].addr) != TriedCell(e, records[k].addr)
  }

  /** The k-th of the first n records has been read: the new ones have their index as id, and of tried
      ones with the same cell the first is there. */
  ghost predicate ReadAt(e: Env, records: seq<Record>, m: nat, t: State, k: nat)
    requires ValidEnv(e) && k < |records|
  {
    var a := records[k].addr;
    && (a in t.byAddr <==> k < m || FirstTried(e, records, m, k))
    && (a in t.byAddr ==> t.byAddr[a] in t.info && Kept(EntryOf(records[k], 0, m <= k), t.info[t.byAddr[a]]))
    && (k < m ==> a in t.byAddr && t.byAddr[a] == k)
  }

  ghost predicate FromFile(records: seq<Record>, n: nat, a: Service) {
    exists k :: 0 <= k < n <= |records| && records[k].addr == a
  }

  ghost predicate ReadUpTo(e: Env, records: seq<Record>, m: nat, n: nat, t: State)
    requires ValidEnv(e) && n <= |records|
  {
    && t.newTable == map[] && t.collisions == [] && (n <= m ==> t.idCount == n)
    && (forall k :: 0 <= k < n ==> ReadAt(e, records, m, t, k))
    && (forall a :: a in t.byAddr ==> FromFile(records, n, a))
  }

  /** How far the reader has come: in the new records, or in the tried ones after them. */
  datatype Progress = NewRead(n: nat) | TriedRead(n: nat)

  ghost predicate ReadIn(e: Env, records: seq<Record>, m: nat, progress: Progress, t: State)
    requires ValidEnv(e)
  {
    match progress
    case NewRead(n) => n <= m && n <= |records| && ReadUpTo(e, records, m, n, t)
    case TriedRead(n) => m <= n <= |records| && ReadUpTo(e, records, m, n, t)
  }

  /** What holds when the first n records have been read. */
  ghost predicate ReadTo(e: Env, records: seq<Record>, m: nat, progress: Progress, t: State)
    requires ValidEnv(e)
  {
    match progress
    case NewRead(n) => Readable(e, records, m) && ReadIn(e, records, m, progress, t) && Consistent(e, t, Range(n), {})
    case TriedRead(n) => Readable(e, records, m) && ReadIn(e, records, m, progress, t) && Consistent(e, t, Range(m), {})
  }

  lemma NotYetRead(e: Env, records: seq<Record>, m: nat, progress: Progress, t: State)
    requires ValidEnv(e) && ReadTo(e, records, m, progress, t) && progress.n < |records|
    ensures records[progress.n].addr !in t.byAddr && ReadableAt(e, records, m, progress.n)
  {
    var n := progress.n;
    forall k | 0 <= k < n ensures records[k].addr != records[n].addr {
      assert Differ(records, k, n);
    }
    assert !FromFile(records, n, records[n].addr);
  }

  lemma NewEntryRead(e: Env, records: seq<Record>, m: nat, n: nat, t: State)
    requires ValidEnv(e) && Readable(e, records, m) && n < m && ReadIn(e, records, m, NewRead(n), t) && AddrOk(t) && IdsOk(t)
    requires records[n].addr !in t.byAddr
    ensures ReadIn(e, records, m, NewRead(n + 1), LoadNew(e, t, records[n]))
  {
    var u := LoadNew(e, t, records[n]);
    forall k | 0 <= k < n ensures ReadAt(e, records, m, u, k) {
      assert ReadAt(e, records, m, t, k) && Differ(records, k, n);
    }
    forall a | a in u.byAddr ensures FromFile(records, n + 1, a) {
      if a != records[n].addr { assert FromFile(records, n, a); }
    }
  }

  lemma NextNewRead(e: Env, records: seq<Record>, m: nat, n: nat, t: State) returns (u: State)
    requires ValidEnv(e) && ReadTo(e, records, m, NewRead(n), t) && n < m <= |records|
    ensures u == LoadNew(e, t, records[n]) && ReadTo(e, records, m, NewRead(n + 1), u)
  {
    u := LoadNew(e, t, records[n]);
    NotYetRead(e, records, m, NewRead(n), t);
    LoadNewKeeps(e, t, records[n], Range(n));
    NewEntryRead(e, records, m, n, t);
  }

  /** Of the tried records with the cell of the j-th, one is the first. */
  lemma {:induction false} SomeFirst(e: Env, records: seq<Record>, m: nat, j: nat) returns (i: nat)
    requires ValidEnv(e) && m <= j < |records|
    ensures m <= i <= j && FirstTried(e, records, m, i) && TriedCell(e, records[i].addr) == TriedCell(e, records[j].addr)
    decreases j
  {
    if FirstTried(e, records, m, j) {
      i := j;
    } else {
      var k: nat :| m <= k < j && TriedCell(e, records[k].addr) == TriedCell(e, records[j].addr);
      i := SomeFirst(e, records, m, k);
    }
  }

  /** The cell of the next tried record is free exactly if it is the first for it. */
  lemma FreeIfFirst(e: Env, records: seq<Record>, m: nat, n: nat, t: State)
    requires ValidEnv(e) && ReadTo(e, records, m, TriedRead(n), t) && n < |records|
    ensures TriedCell(e, records[n].addr) !in t.triedTable <==> FirstTried(e, records, m, n)
  {
    var c := TriedCell(e, records[n].addr);
    if c in t.triedTable {
      var x := t.triedTable[c];
      TriedFrom(e, t, c);
      AddrAt(t, x);
      assert FromFile(records, n, t.info[x].addr);
      var k :| 0 <= k < n && records[k].addr == t.info[x].addr;
      assert ReadAt(e, records, m, t, k);
    }
    if j: nat :| m <= j < n && TriedCell(e, records[j].addr) == c {
      CellTaken(e, records, m, n, t, j);
    }
  }

  lemma CellTaken(e: Env, records: seq<Record>, m: nat, n: nat, t: State, j: nat)
    requires ValidEnv(e) && ReadTo(e, records, m, TriedRead(n), t) && m <= j < n <= |records|
    ensures TriedCell(e, records[j].addr) in t.triedTable
  {
    var i := SomeFirst(e, records, m, j);
    assert ReadAt(e, records, m, t, i);
    TriedAt(e, t, t.byAddr[records[i].addr]);
  }

  lemma TriedEntryRead(e: Env, records: seq<Record>, m: nat, n: nat, t: State)
    requires ValidEnv(e) && Readable(e, records, m) && n < |records| && ReadIn(e, records, m, TriedRead(n), t) && AddrOk(t) && IdsOk(t)
    requires records[n].addr !in t.byAddr && (TriedCell(e, records[n].addr) !in t.triedTable <==> FirstTried(e, records, m, n))
    ensures ReadIn(e, records, m, TriedRead(n + 1), LoadTried(e, t, records[n]))
  {
    var u := LoadTried(e, t, records[n]);
    assert ReadableAt(e, records, m, n);
    assert ReadAt(e, records, m, u, n);
    forall k | 0 <= k < n ensures ReadAt(e, records, m, u, k) {
      assert ReadAt(e, records, m, t, k) && Differ(records, k, n);
    }
    forall a | a in u.byAddr ensures FromFile(records, n + 1, a) {
      if a != records[n].addr { assert FromFile(records, n, a); }
    }
  }

  lemma NextTriedRead(e: Env, records: seq<Record>, m: nat, n: nat, t: State) returns (u: State)
    requires ValidEnv(e) && ReadTo(e, records, m, TriedRead(n), t) && n < |records|
    ensures u == LoadTried(e, t, records[n]) && ReadTo(e, records, m, TriedRead(n + 1), u)
  {
    u := LoadTried(e, t, records[n]);
    NotYetRead(e, records, m, TriedRead(n), t);
    FreeIfFirst(e, records, m, n, t);
    TriedEntryRead(e, records, m, n, t);
    if TriedCell(e, records[n].addr) !in t.triedTable {
      LoadTriedKeeps(e, t, records[n], Range(m));
    }
  }

  lemma StartReading(e: Env, records: seq<Record>, m: nat)
    requires ValidEnv(e) && Readable(e, records, m)
    ensures ReadTo(e, records, m, NewRead(0), EMPTY)
  {
    EmptyConsistent(e);
    assert Range(0) == {};
  }

  lemma {:induction false} LoadAllNewRead(e: Env, records: seq<Record>, m: nat, n: nat)
    requires ValidEnv(e) && Readable(e, records, m) && n <= m
    ensures ReadTo(e, records, m, NewRead(n), LoadAllNew(e, records, n))
    decreases n
  {
    if n == 0 {
      StartReading(e, records, m);
    } else {
      LoadAllNewRead(e, records, m, n - 1);
      var u := NextNewRead(e, records, m, n - 1, LoadAllNew(e, records, n - 1));
    }
  }

  lemma GoOnToTried(e: Env, records: seq<Record>, m: nat, t: State)
    requires ValidEnv(e) && ReadTo(e, records, m, NewRead(m), t)
    ensures ReadTo(e, records, m, TriedRead(m), t)
  {}

  lemma OneMoreTried(e: Env, records: seq<Record>, m: nat, n: nat)
    requires ValidEnv(e) && m < n <= |records| && ReadTo(e, records, m, TriedRead(n - 1), LoadAllTried(e, records, m, n - 1))
    ensures ReadTo(e, records, m, TriedRead(n), LoadAllTried(e, records, m, n))
  {
    var u := NextTriedRead(e, records, m, n - 1, LoadAllTried(e, records, m, n - 1));
  }

  /** The state after any number of records, whatever cells the tried ones share. */
  lemma {:induction false} LoadAllTriedRead(e: Env, records: seq<Record>, m: nat, n: nat)
    requires ValidEnv(e) && Readable(e, records, m) && m <= n <= |records|
    ensures ReadTo(e, records, m, TriedRead(n), LoadAllTried(e, records, m, n))
    decreases n
  {
    if n == m {
      LoadAllNewRead(e, records, m, m);
      GoOnToTried(e, records, m, LoadAllNew(e, records, m));
    } else {
      LoadAllTriedRead(e, records, m, n - 1);
      OneMoreTried(e, records, m, n);
    }
  }
}
