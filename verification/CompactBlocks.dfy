/** Rebuilding a block from its compact form: prefilled transactions, short transaction ids, and
    whatever the memory pool and an extra list of transactions hold (section "HeaderAndShortIDs" of
    BIP 152). */
module CompactBlocks {
  import opened Collections

  datatype Tx = Tx(wtxid: nat, isNull: bool)

  /** The index is the distance from the previous prefilled transaction. */
  datatype Prefilled = Prefilled(index: nat, tx: Tx)

  /** The header is 0 if it is null; `key` is the keyed hash that gives short ids. */
  datatype CompactBlock = CompactBlock(header: nat, shortIds: seq<nat>, prefilled: seq<Prefilled>, key: nat -> nat)

  datatype ReadStatus = Ok | Invalid | Failed | CheckBlockFailed

  /** The verdict of the block check. */
  datatype Verdict = Good | Mutated | Bad

  const MAX_INDEX: int := 65535
  const MAX_TX_COUNT: nat := 100000

  // ----- Prefilled transactions -----

  /** The block position of the i-th prefilled transaction. */
  function Slot(p: seq<Prefilled>, i: nat): int
    requires i < |p|
  {
    (if i == 0 then -1 else Slot(p, i - 1)) + p[i].index + 1
  }

  predicate SlotAccepted(c: CompactBlock, i: nat)
    requires i < |c.prefilled|
  {
    !c.prefilled[i].tx.isNull && Slot(c.prefilled, i) <= MAX_INDEX && Slot(c.prefilled, i) <= |c.shortIds| + i
  }

  predicate Accepted(c: CompactBlock) {
    forall i :: 0 <= i < |c.prefilled| ==> SlotAccepted(c, i)
  }

  function Total(c: CompactBlock): nat {
    |c.shortIds| + |c.prefilled|
  }

  /** Positions increase, so prefilled transactions never share one. */
  lemma {:induction false} SlotsIncrease(p: seq<Prefilled>, i: nat, j: nat)
    requires i < j < |p|
    ensures 0 <= Slot(p, i) < Slot(p, j)
  {
    if i + 1 < j {
      SlotsIncrease(p, i, j - 1);
    } else {
      SlotNonNegative(p, i);
    }
  }

  lemma {:induction false} SlotNonNegative(p: seq<Prefilled>, i: nat)
    requires i < |p|
    ensures Slot(p, i) >= i
  {
    if i > 0 {
      SlotNonNegative(p, i - 1);
    }
  }

  function Empty(n: nat): seq<Option<Tx>> {
    seq(n, _ => None)
  }

  /** The block after the first i prefilled transactions have been placed. */
  function Placed(c: CompactBlock, i: nat): (r: seq<Option<Tx>>)
    requires Accepted(c) && i <= |c.prefilled|
    ensures |r| == Total(c)
  {
    if i == 0 then Empty(Total(c))
    else
      SlotInBounds(c, i - 1);
      Placed(c, i - 1)[Slot(c.prefilled, i - 1) := Some(c.prefilled[i - 1].tx)]
  }

  lemma SlotInBounds(c: CompactBlock, i: nat)
    requires i < |c.prefilled| && SlotAccepted(c, i)
    ensures 0 <= Slot(c.prefilled, i) < Total(c)
  {
    SlotNonNegative(c.prefilled, i);
  }

  /** A placed transaction stays where it was put, and nothing else is placed. */
  lemma {:induction false} PlacedAt(c: CompactBlock, n: nat, i: nat)
    requires Accepted(c) && i < n <= |c.prefilled|
    ensures 0 <= Slot(c.prefilled, i) < Total(c) && Placed(c, n)[Slot(c.prefilled, i)] == Some(c.prefilled[i].tx)
  {
    SlotInBounds(c, i);
    SlotInBounds(c, n - 1);
    if i < n - 1 {
      PlacedAt(c, n - 1, i);
      SlotsIncrease(c.prefilled, i, n - 1);
    }
  }

  lemma {:induction false} PlacedOnly(c: CompactBlock, n: nat, j: nat) returns (i: nat)
    requires Accepted(c) && n <= |c.prefilled| && j < Total(c) && Placed(c, n)[j].Some?
    ensures i < n && Slot(c.prefilled, i) == j
  {
    SlotInBounds(c, n - 1);
    if Slot(c.prefilled, n - 1) == j {
      i := n - 1;
    } else {
      i := PlacedOnly(c, n - 1, j);
    }
  }

  // ----- Open slots -----

  /** The positions before j without a transaction, in order. */
  function Open(a: seq<Option<Tx>>, j: nat): (r: seq<nat>)
    requires j <= |a|
    ensures |r| <= j && forall k :: 0 <= k < |r| ==> r[k] < j && a[r[k]].None?
  {
    if j == 0 then [] else if a[j - 1].None? then Open(a, j - 1) + [j - 1] else Open(a, j - 1)
  }

  lemma {:induction false} OpenSorted(a: seq<Option<Tx>>, j: nat, x: nat, y: nat)
    requires j <= |a| && x < y < |Open(a, j)|
    ensures Open(a, j)[x] < Open(a, j)[y]
  {
    if y < |Open(a, j - 1)| {
      OpenSorted(a, j - 1, x, y);
    }
  }

  lemma {:induction false} OpenHas(a: seq<Option<Tx>>, j: nat, k: nat)
    requires k < j <= |a| && a[k].None?
    ensures k in Open(a, j)
  {
    if k < j - 1 {
      OpenHas(a, j - 1, k);
    }
  }

  /** Filling an open position leaves one open position less. */
  lemma {:induction false} OpenFilled(a: seq<Option<Tx>>, j: nat, k: nat, tx: Tx)
    requires j <= |a| && k < |a| && a[k].None?
    ensures |Open(a[k := Some(tx)], j)| == |Open(a, j)| - (if k < j then 1 else 0)
  {
    if j > 0 {
      OpenFilled(a, j - 1, k, tx);
    }
  }

  lemma {:induction false} OpenEmpty(n: nat, j: nat)
    requires j <= n
    ensures |Open(Empty(n), j)| == j
  {
    if j > 0 {
      OpenEmpty(n, j - 1);
    }
  }

  /** As many positions stay open as there are short ids. */
  lemma {:induction false} OpenCount(c: CompactBlock, n: nat)
    requires Accepted(c) && n <= |c.prefilled|
    ensures |Open(Placed(c, n), Total(c))| == Total(c) - n
  {
    if n == 0 {
      OpenEmpty(Total(c), Total(c));
    } else {
      OpenCount(c, n - 1);
      var k := Slot(c.prefilled, n - 1);
      SlotInBounds(c, n - 1);
      if Placed(c, n - 1)[k].Some? {
        var i := PlacedOnly(c, n - 1, k);
        SlotsIncrease(c.prefilled, i, n - 1);
      }
      OpenFilled(Placed(c, n - 1), Total(c), k, c.prefilled[n - 1].tx);
    }
  }

  /** The positions that the first n prefilled transactions skip. */
  function Skipped(p: seq<Prefilled>, n: nat): nat
    requires n <= |p|
  {
    if n == 0 then 0 else Skipped(p, n - 1) + p[n - 1].index
  }

  lemma {:induction false} SlotIs(p: seq<Prefilled>, i: nat)
    requires i < |p|
    ensures Slot(p, i) == Skipped(p, i + 1) + i
  {
    if i > 0 { SlotIs(p, i - 1); }
  }

  lemma {:induction false} SkippedGrows(p: seq<Prefilled>, i: nat, n: nat)
    requires i <= n <= |p|
    ensures Skipped(p, i) <= Skipped(p, n)
  {
    if i < n { SkippedGrows(p, i, n - 1); }
  }

  /** The prefilled transactions are accepted exactly if none is null, they skip no more positions than
      there are short ids, and the last position fits 16 bits. */
  lemma AcceptedExactly(c: CompactBlock)
    ensures Accepted(c) <==>
              var p := c.prefilled;
              && (forall i :: 0 <= i < |p| ==> !p[i].tx.isNull)
              && Skipped(p, |p|) <= |c.shortIds| && Skipped(p, |p|) + |p| <= 65536
  {
    var p := c.prefilled;
    forall i | 0 <= i < |p|
      ensures SlotAccepted(c, i) <==> !p[i].tx.isNull && Slot(p, i) <= MAX_INDEX && Slot(p, i) - i <= |c.shortIds|
      ensures Slot(p, i) - i <= Skipped(p, |p|)
    {
      SlotIs(p, i);
      SkippedGrows(p, i + 1, |p|);
    }
    if p != [] { SlotIs(p, |p| - 1); }
    if Accepted(c) && p != [] { assert SlotAccepted(c, |p| - 1); }
  }

  /** Before the position of a prefilled transaction there are as many open positions as have been
      skipped: the short ids and the prefilled transactions interleave as the indexes say. */
  lemma {:induction false} OpenBefore(c: CompactBlock, n: nat, i: nat)
    requires Accepted(c) && i <= n <= |c.prefilled| && i < |c.prefilled|
    ensures 0 <= Slot(c.prefilled, i) < Total(c) && |Open(Placed(c, n), Slot(c.prefilled, i))| == Skipped(c.prefilled, i + 1)
  {
    SlotIs(c.prefilled, i);
    SlotInBounds(c, i);
    OpenUpTo(c, n, i);
  }

  lemma {:induction false} OpenUpTo(c: CompactBlock, n: nat, i: nat)
    requires Accepted(c) && n <= |c.prefilled| && i < |c.prefilled|
    ensures 0 <= Slot(c.prefilled, i) < Total(c)
    ensures |Open(Placed(c, n), Slot(c.prefilled, i))| == Slot(c.prefilled, i) - (if n < i then n else i)
  {
    SlotInBounds(c, i);
    if n == 0 {
      OpenEmpty(Total(c), Slot(c.prefilled, i));
    } else {
      var k := Slot(c.prefilled, n - 1);
      OpenUpTo(c, n - 1, i);
      SlotInBounds(c, n - 1);
      if Placed(c, n - 1)[k].Some? {
        var j := PlacedOnly(c, n - 1, k);
        SlotsIncrease(c.prefilled, j, n - 1);
      }
      OpenFilled(Placed(c, n - 1), Slot(c.prefilled, i), k, c.prefilled[n - 1].tx);
      if n - 1 < i {
        SlotsIncrease(c.prefilled, n - 1, i);
      } else if i < n - 1 {
        SlotsIncrease(c.prefilled, i, n - 1);
      }
    }
  }

  // ----- The map of short ids -----

  /** The map after the first n short ids; a repeated one overwrites the entry before. */
  function ShortMap(ids: seq<nat>, open: seq<nat>, n: nat): map<nat, nat>
    requires n <= |ids| == |open|
  {
    if n == 0 then map[] else ShortMap(ids, open, n - 1)[ids[n - 1] := open[n - 1]]
  }

  lemma {:induction false} ShortMapKeys(ids: seq<nat>, open: seq<nat>, n: nat, id: nat)
    requires n <= |ids| == |open|
    ensures id in ShortMap(ids, open, n) <==> exists i :: 0 <= i < n && ids[i] == id
  {
    if n > 0 {
      ShortMapKeys(ids, open, n - 1, id);
    }
  }

  /** The map has as many entries as there are short ids exactly if no short id occurs twice. */
  lemma {:induction false} ShortMapSize(ids: seq<nat>, open: seq<nat>, n: nat)
    requires n <= |ids| == |open|
    ensures |ShortMap(ids, open, n)| <= n
    ensures |ShortMap(ids, open, n)| == n <==> Distinct(ids[..n])
  {
    if n > 0 {
      var m := ShortMap(ids, open, n - 1);
      ShortMapSize(ids, open, n - 1);
      ShortMapKeys(ids, open, n - 1, ids[n - 1]);
      UpdateSize(m, ids[n - 1], open[n - 1]);
      DistinctSnoc(ids, n);
    }
  }

  lemma UpdateSize(m: map<nat, nat>, id: nat, slot: nat)
    ensures |m[id := slot]| == |m| + (if id in m then 0 else 1)
  {
    assert m[id := slot].Keys == m.Keys + {id};
    assert |m| == |m.Keys| && |m[id := slot]| == |m[id := slot].Keys|;
    if id in m {
      assert m.Keys + {id} == m.Keys;
    }
  }

  lemma DistinctSnoc(ids: seq<nat>, n: nat)
    requires 0 < n <= |ids|
    ensures Distinct(ids[..n]) <==> Distinct(ids[..n - 1]) && !exists i :: 0 <= i < n - 1 && ids[i] == ids[n - 1]
  {
    assert forall i :: 0 <= i < n - 1 ==> ids[..n - 1][i] == ids[..n][i];
  }

  /** With different short ids, the i-th one leads to the i-th open position. */
  lemma {:induction false} ShortMapAt(ids: seq<nat>, open: seq<nat>, n: nat, i: nat)
    requires i < n <= |ids| == |open| && Distinct(ids)
    ensures ids[i] in ShortMap(ids, open, n) && ShortMap(ids, open, n)[ids[i]] == open[i]
  {
    if i < n - 1 {
      ShortMapAt(ids, open, n - 1, i);
    }
  }

  // ----- Looking for candidates -----

  datatype Scan = Scan(avail: seq<Option<Tx>>, have: seq<bool>, count: int)

  /** The map leads into the block, different ids to different positions. */
  ghost predicate MapOk(m: map<nat, nat>, n: nat) {
    && (forall id :: id in m ==> m[id] < n)
    && (forall a, b :: a in m && b in m && a != b ==> m[a] != m[b])
  }

  ghost predicate Sized(m: map<nat, nat>, s: Scan) {
    |s.avail| == |s.have| && MapOk(m, |s.avail|)
  }

  /** One iteration over the memory pool. */
  ghost function PoolStep(m: map<nat, nat>, key: nat -> nat, s: Scan, tx: Tx): (t: Scan)
    requires Sized(m, s)
    ensures Sized(m, t) && |t.avail| == |s.avail|
  {
    var id := key(tx.wtxid);
    if id !in m then s
    else
      var j := m[id];
      if !s.have[j] then Scan(s.avail[j := Some(tx)], s.have[j := true], s.count + 1)
      else if s.avail[j].Some? then Scan(s.avail[j := None], s.have, s.count - 1)
      else s
  }

  /** One iteration over the extra transactions: the same transaction again is no clash. */
  ghost function ExtraStep(m: map<nat, nat>, key: nat -> nat, s: Scan, tx: Tx): (t: Scan)
    requires Sized(m, s)
    ensures Sized(m, t) && |t.avail| == |s.avail|
  {
    var id := key(tx.wtxid);
    if id in m && s.have[m[id]] && s.avail[m[id]].Some? && s.avail[m[id]].value.wtxid == tx.wtxid then s
    else PoolStep(m, key, s, tx)
  }

  ghost function PoolScan(m: map<nat, nat>, key: nat -> nat, s: Scan, list: seq<Tx>): (r: Scan)
    requires Sized(m, s)
    ensures Sized(m, r) && |r.avail| == |s.avail|
    decreases |list|
  {
    if list == [] then s
    else
      var t := PoolStep(m, key, s, list[0]);
      if t.count == |m| then t else PoolScan(m, key, t, list[1..])
  }

  ghost function ExtraScan(m: map<nat, nat>, key: nat -> nat, s: Scan, list: seq<Option<Tx>>): (r: Scan)
    requires Sized(m, s)
    ensures Sized(m, r) && |r.avail| == |s.avail|
    decreases |list|
  {
    if list == [] then s
    else if list[0].None? then ExtraScan(m, key, s, list[1..])
    else
      var t := ExtraStep(m, key, s, list[0].value);
      if t.count == |m| then t else ExtraScan(m, key, t, list[1..])
  }

  /** The short ids whose positions are filled. */
  ghost function Filled(m: map<nat, nat>, avail: seq<Option<Tx>>): set<nat>
    requires MapOk(m, |avail|)
  {
    set id | id in m && avail[m[id]].Some?
  }

  /** Other positions are as at the start; a filled position holds a candidate with the right short id;
      the count has grown by the number of filled positions. */
  ghost predicate ScanOk(m: map<nat, nat>, key: nat -> nat, base: seq<Option<Tx>>, s: Scan, seen: set<Tx>, start: int) {
    && Sized(m, s) && |base| == |s.avail|
    && (forall j :: 0 <= j < |base| && j !in m.Values ==> s.avail[j] == base[j])
    && (forall id :: id in m ==> SlotOk(m, key, s, seen, id))
    && s.count == start + |Filled(m, s.avail)|
  }

  /** Writing the position of one short id changes the set of filled ones in this id only. */
  lemma FilledWrite(m: map<nat, nat>, avail: seq<Option<Tx>>, id: nat, v: Option<Tx>)
    requires MapOk(m, |avail|) && id in m && v.Some? != avail[m[id]].Some?
    ensures |Filled(m, avail[m[id] := v])| == |Filled(m, avail)| + (if v.Some? then 1 else -1)
  {
    var before, after := Filled(m, avail), Filled(m, avail[m[id] := v]);
    forall x | x in m && x != id ensures avail[m[id] := v][m[x]] == avail[m[x]] {
      assert m[x] != m[id];
    }
    if v.Some? {
      OneMore(before, after, id);
    } else {
      OneMore(after, before, id);
    }
  }

  ghost predicate SlotOk(m: map<nat, nat>, key: nat -> nat, s: Scan, seen: set<Tx>, id: nat)
    requires Sized(m, s) && id in m
  {
    s.avail[m[id]].Some? ==>
      s.have[m[id]] && key(s.avail[m[id]].value.wtxid) == id && s.avail[m[id]].value in seen
  }

  lemma PoolStepOk(m: map<nat, nat>, key: nat -> nat, base: seq<Option<Tx>>, s: Scan, tx: Tx, seen: set<Tx>, start: int)
    requires ScanOk(m, key, base, s, seen, start) && tx in seen
    ensures ScanOk(m, key, base, PoolStep(m, key, s, tx), seen, start)
  {
    var id, t := key(tx.wtxid), PoolStep(m, key, s, tx);
    if id in m && t != s {
      assert m[id] in m.Values;
      assert SlotOk(m, key, s, seen, id);
      FilledWrite(m, s.avail, id, t.avail[m[id]]);
      forall x | x in m ensures SlotOk(m, key, t, seen, x) {
        assert SlotOk(m, key, s, seen, x);
      }
    }
  }

  lemma {:induction false} PoolScanOk(m: map<nat, nat>, key: nat -> nat, base: seq<Option<Tx>>, s: Scan, list: seq<Tx>, seen: set<Tx>, start: int)
    requires ScanOk(m, key, base, s, seen, start) && forall tx :: tx in list ==> tx in seen
    ensures ScanOk(m, key, base, PoolScan(m, key, s, list), seen, start)
    decreases |list|
  {
    if list != [] {
      var t := PoolStep(m, key, s, list[0]);
      PoolStepOk(m, key, base, s, list[0], seen, start);
      if t.count != |m| {
        PoolScanOk(m, key, base, t, list[1..], seen, start);
      }
    }
  }

  lemma {:induction false} ExtraScanOk(m: map<nat, nat>, key: nat -> nat, base: seq<Option<Tx>>, s: Scan, list: seq<Option<Tx>>, seen: set<Tx>, start: int)
    requires ScanOk(m, key, base, s, seen, start) && forall tx :: Some(tx) in list ==> tx in seen
    ensures ScanOk(m, key, base, ExtraScan(m, key, s, list), seen, start)
    decreases |list|
  {
    if list != [] {
      if list[0].None? {
        ExtraScanOk(m, key, base, s, list[1..], seen, start);
      } else {
        assert Some(list[0].value) == list[0];
        var t := ExtraStep(m, key, s, list[0].value);
        PoolStepOk(m, key, base, s, list[0].value, seen, start);
        if t.count != |m| {
          ExtraScanOk(m, key, base, t, list[1..], seen, start);
        }
      }
    }
  }

  // ----- Completeness of the search -----

  /** While the pool is walked: if all candidates with this short id are one transaction, then it is
      in its position as soon as it was met. */
  ghost predicate Met(m: map<nat, nat>, s: Scan, id: nat, v: Tx)
    requires Sized(m, s) && id in m
  {
    s.have[m[id]] ==> s.avail[m[id]] == Some(v)
  }

  lemma {:induction false} PoolFinds(m: map<nat, nat>, key: nat -> nat, base: seq<Option<Tx>>, s: Scan, list: seq<Tx>, seen: set<Tx>, id: nat, v: Tx)
    requires ScanOk(m, key, base, s, seen, 0) && (forall tx :: tx in list ==> tx in seen) && Distinct(list) && id in m && key(v.wtxid) == id
    requires forall tx :: tx in seen && key(tx.wtxid) == id ==> tx == v
    requires Met(m, s, id, v) && (s.have[m[id]] ==> v !in list)
    ensures var r := PoolScan(m, key, s, list);
            Met(m, r, id, v) && (v in list || s.have[m[id]] ==> r.avail[m[id]] == Some(v))
    decreases |list|
  {
    if list != [] {
      var t := PoolStep(m, key, s, list[0]);
      PoolStepOk(m, key, base, s, list[0], seen, 0);
      PoolMeets(m, key, s, list[0], seen, id, v);
      if t.count == |m| {
        AllFilled(m, key, base, t, seen, id, v);
      } else {
        assert list == [list[0]] + list[1..];
        assert list[0] !in list[1..];
        PoolFinds(m, key, base, t, list[1..], seen, id, v);
      }
    }
  }

  lemma PoolMeets(m: map<nat, nat>, key: nat -> nat, s: Scan, tx: Tx, seen: set<Tx>, id: nat, v: Tx)
    requires Sized(m, s) && id in m && key(v.wtxid) == id && tx in seen
    requires forall x :: x in seen && key(x.wtxid) == id ==> x == v
    requires Met(m, s, id, v) && (s.have[m[id]] ==> tx != v)
    ensures var t := PoolStep(m, key, s, tx);
            Met(m, t, id, v) && (t.have[m[id]] <==> s.have[m[id]] || tx == v)
  {
    var x := key(tx.wtxid);
    if x in m && x != id {
      assert m[x] != m[id];
    }
  }

  /** The search stops early only when every position is filled. */
  lemma AllFilled(m: map<nat, nat>, key: nat -> nat, base: seq<Option<Tx>>, s: Scan, seen: set<Tx>, id: nat, v: Tx)
    requires ScanOk(m, key, base, s, seen, 0) && s.count == |m| && id in m
    requires forall tx :: tx in seen && key(tx.wtxid) == id ==> tx == v
    ensures s.avail[m[id]] == Some(v)
  {
    var f := Filled(m, s.avail);
    if id !in f {
      Smaller(f, m.Keys, id);
    }
    assert SlotOk(m, key, s, seen, id);
  }

  lemma Smaller<T>(a: set<T>, b: set<T>, x: T)
    requires a <= b && x in b && x !in a
    ensures |a| < |b|
  {
    assert b == a + (b - a) && x in b - a;
  }

  lemma {:induction false} ExtraFinds(m: map<nat, nat>, key: nat -> nat, base: seq<Option<Tx>>, s: Scan, list: seq<Option<Tx>>, seen: set<Tx>, id: nat, v: Tx)
    requires ScanOk(m, key, base, s, seen, 0) && (forall tx :: Some(tx) in list ==> tx in seen) && id in m && key(v.wtxid) == id
    requires forall tx :: tx in seen && key(tx.wtxid) == id ==> tx == v
    requires Met(m, s, id, v)
    ensures var r := ExtraScan(m, key, s, list);
            Met(m, r, id, v) && (Some(v) in list || s.have[m[id]] ==> r.avail[m[id]] == Some(v))
    decreases |list|
  {
    if list != [] {
      assert list == [list[0]] + list[1..];
      if list[0].None? {
        ExtraFinds(m, key, base, s, list[1..], seen, id, v);
      } else {
        var tx := list[0].value;
        assert Some(tx) in list;
        var t := ExtraStep(m, key, s, tx);
        PoolStepOk(m, key, base, s, tx, seen, 0);
        ExtraMeets(m, key, s, tx, seen, id, v);
        if t.count == |m| {
          AllFilled(m, key, base, t, seen, id, v);
        } else {
          ExtraFinds(m, key, base, t, list[1..], seen, id, v);
        }
      }
    }
  }

  lemma ExtraMeets(m: map<nat, nat>, key: nat -> nat, s: Scan, tx: Tx, seen: set<Tx>, id: nat, v: Tx)
    requires Sized(m, s) && id in m && key(v.wtxid) == id && tx in seen && Met(m, s, id, v)
    requires forall x :: x in seen && key(x.wtxid) == id ==> x == v
    ensures var t := ExtraStep(m, key, s, tx);
            Met(m, t, id, v) && (t.have[m[id]] <==> s.have[m[id]] || tx == v)
  {
    if !(s.have[m[id]] && tx == v) {
      PoolMeets(m, key, s, tx, seen, id, v);
    }
  }

  // ----- What the search leaves in a position, exactly -----

  /** The candidates with a short id, in order. */
  function Hits(key: nat -> nat, list: seq<Tx>, id: nat): seq<Tx> {
    if list == [] then []
    else
      var n := |list| - 1;
      if key(list[n].wtxid) == id then Hits(key, list[..n], id) + [list[n]] else Hits(key, list[..n], id)
  }

  /** The transactions of the extra list that are there. */
  function Present(list: seq<Option<Tx>>): seq<Tx> {
    if list == [] then []
    else
      var n := |list| - 1;
      if list[n].Some? then Present(list[..n]) + [list[n].value] else Present(list[..n])
  }

  /** All of them are one transaction. */
  predicate OneTx(txs: seq<Tx>) {
    forall i :: 0 <= i < |txs| ==> txs[i].wtxid == txs[0].wtxid
  }

  /** What a position holds after candidates for it were met in the pool and in the extra list: the first
      of them, if at most one was in the pool and all are one transaction, and nothing otherwise. */
  function Outcome(pooled: seq<Tx>, extras: seq<Tx>): Option<Tx> {
    var all := pooled + extras;
    if all != [] && |pooled| <= 1 && OneTx(all) then Some(all[0]) else None
  }

  /** The short ids for which the candidates met so far fill a position. */
  ghost function FilledIds(m: map<nat, nat>, key: nat -> nat, pooled: seq<Tx>, extras: seq<Tx>): set<nat> {
    set id | id in m && Outcome(Hits(key, pooled, id), Hits(key, extras, id)).Some?
  }

  ghost predicate SlotAt(m: map<nat, nat>, key: nat -> nat, s: Scan, pooled: seq<Tx>, extras: seq<Tx>, id: nat)
    requires Sized(m, s) && id in m
  {
    var h, x := Hits(key, pooled, id), Hits(key, extras, id);
    (s.have[m[id]] <==> h + x != []) && s.avail[m[id]] == Outcome(h, x)
  }

  /** The state after these candidates were met. */
  ghost predicate At(m: map<nat, nat>, key: nat -> nat, s: Scan, start: int, pooled: seq<Tx>, extras: seq<Tx>) {
    Sized(m, s) && s.count == start + |Filled(m, s.avail)| && forall id :: id in m ==> SlotAt(m, key, s, pooled, extras, id)
  }

  lemma FilledAt(m: map<nat, nat>, key: nat -> nat, s: Scan, start: int, pooled: seq<Tx>, extras: seq<Tx>)
    requires At(m, key, s, start, pooled, extras)
    ensures Filled(m, s.avail) == FilledIds(m, key, pooled, extras)
  {
    forall id | id in m ensures id in Filled(m, s.avail) <==> id in FilledIds(m, key, pooled, extras) {
      assert SlotAt(m, key, s, pooled, extras, id);
    }
  }

  lemma HitsSnoc(key: nat -> nat, list: seq<Tx>, tx: Tx, id: nat)
    ensures Hits(key, list + [tx], id) == if key(tx.wtxid) == id then Hits(key, list, id) + [tx] else Hits(key, list, id)
  {
    assert (list + [tx])[..|list|] == list;
  }

  /** A step leaves the positions of other short ids alone, and counts a change of its own. */
  lemma StepAside(m: map<nat, nat>, key: nat -> nat, s: Scan, tx: Tx, t: Scan)
    requires Sized(m, s) && (t == PoolStep(m, key, s, tx) || t == ExtraStep(m, key, s, tx))
    requires forall id :: id in m && s.avail[m[id]].Some? ==> s.have[m[id]]
    ensures forall id :: id in m && id != key(tx.wtxid) ==> t.have[m[id]] == s.have[m[id]] && t.avail[m[id]] == s.avail[m[id]]
    ensures t.count - |Filled(m, t.avail)| == s.count - |Filled(m, s.avail)|
  {
    var id := key(tx.wtxid);
    if id in m {
      forall x | x in m && x != id ensures m[x] != m[id] {}
      if t.avail != s.avail && t.avail[m[id]].Some? != s.avail[m[id]].Some? {
        FilledWrite(m, s.avail, id, t.avail[m[id]]);
      }
    }
  }

  lemma PoolStepAt(m: map<nat, nat>, key: nat -> nat, s: Scan, start: int, pooled: seq<Tx>, tx: Tx)
    requires At(m, key, s, start, pooled, [])
    ensures At(m, key, PoolStep(m, key, s, tx), start, pooled + [tx], [])
  {
    var t := PoolStep(m, key, s, tx);
    forall id | id in m ensures s.avail[m[id]].Some? ==> s.have[m[id]] {
      assert SlotAt(m, key, s, pooled, [], id);
    }
    StepAside(m, key, s, tx, t);
    forall id | id in m ensures SlotAt(m, key, t, pooled + [tx], [], id) {
      assert SlotAt(m, key, s, pooled, [], id);
      HitsSnoc(key, pooled, tx, id);
      OutcomePool(Hits(key, pooled, id), tx);
    }
  }

  lemma ExtraStepAt(m: map<nat, nat>, key: nat -> nat, s: Scan, start: int, pooled: seq<Tx>, extras: seq<Tx>, tx: Tx)
    requires At(m, key, s, start, pooled, extras)
    ensures At(m, key, ExtraStep(m, key, s, tx), start, pooled, extras + [tx])
  {
    var t := ExtraStep(m, key, s, tx);
    forall id | id in m ensures s.avail[m[id]].Some? ==> s.have[m[id]] {
      assert SlotAt(m, key, s, pooled, extras, id);
    }
    StepAside(m, key, s, tx, t);
    forall id | id in m ensures SlotAt(m, key, t, pooled, extras + [tx], id) {
      assert SlotAt(m, key, s, pooled, extras, id);
      HitsSnoc(key, extras, tx, id);
      OutcomeExtra(Hits(key, pooled, id), Hits(key, extras, id), tx);
    }
  }

  lemma OutcomeExtra(h: seq<Tx>, x: seq<Tx>, tx: Tx)
    ensures h + (x + [tx]) != []
    ensures Outcome(h, x + [tx]) == if h + x == [] then Some(tx)
                                    else if Outcome(h, x).Some? && Outcome(h, x).value.wtxid == tx.wtxid then Outcome(h, x)
                                    else None
  {
    var all := h + x;
    assert h + (x + [tx]) == all + [tx];
    if all != [] {
      OneTxSnoc(all, tx);
    }
  }

  lemma OneTxSnoc(txs: seq<Tx>, tx: Tx)
    requires txs != []
    ensures OneTx(txs + [tx]) <==> OneTx(txs) && tx.wtxid == txs[0].wtxid
  {
    assert (txs + [tx])[|txs|] == tx;
    forall i | 0 <= i < |txs| ensures (txs + [tx])[i] == txs[i] {}
  }

  lemma OutcomePool(h: seq<Tx>, tx: Tx)
    ensures Outcome(h + [tx], []) == if h == [] then Some(tx) else None
  {
    assert h + [tx] + [] == h + [tx];
  }

  /** Every position counts as filled, so the loops end. `start` is the count before. */
  ghost predicate Full(m: map<nat, nat>, key: nat -> nat, start: int, pooled: seq<Tx>, extras: seq<Tx>) {
    start + |FilledIds(m, key, pooled, extras)| == |m|
  }

  /** The walk over the pool ends after p candidates: at the first after which every position counts as
      filled, or with the last. */
  ghost predicate PoolEnds(m: map<nat, nat>, key: nat -> nat, start: int, pool: seq<Tx>, from: nat, p: nat) {
    && from <= p <= |pool|
    && (forall j :: from < j < p ==> !FullAfter(m, key, start, pool, j))
    && (p < |pool| ==> p > from && FullAfter(m, key, start, pool, p))
  }

  ghost predicate FullAfter(m: map<nat, nat>, key: nat -> nat, start: int, pool: seq<Tx>, j: nat)
    requires j <= |pool|
  {
    Full(m, key, start, pool[..j], [])
  }

  lemma PoolStepAfter(m: map<nat, nat>, key: nat -> nat, s: Scan, start: int, pool: seq<Tx>, n: nat)
    requires n < |pool| && At(m, key, s, start, pool[..n], [])
    ensures var t := PoolStep(m, key, s, pool[n]);
            At(m, key, t, start, pool[..n + 1], []) && (t.count == |m| <==> FullAfter(m, key, start, pool, n + 1))
  {
    assert pool[..n + 1] == pool[..n] + [pool[n]];
    PoolStepAt(m, key, s, start, pool[..n], pool[n]);
    FilledAt(m, key, PoolStep(m, key, s, pool[n]), start, pool[..n + 1], []);
  }

  lemma PoolScanFirst(m: map<nat, nat>, key: nat -> nat, s: Scan, pool: seq<Tx>, n: nat)
    requires Sized(m, s) && n < |pool|
    ensures var t := PoolStep(m, key, s, pool[n]);
            PoolScan(m, key, s, pool[n..]) == if t.count == |m| then t else PoolScan(m, key, t, pool[n + 1..])
  {
    assert pool[n..][0] == pool[n] && pool[n..][1..] == pool[n + 1..];
  }

  lemma PoolEndsBack(m: map<nat, nat>, key: nat -> nat, start: int, pool: seq<Tx>, n: nat, p: nat)
    requires PoolEnds(m, key, start, pool, n + 1, p) && !FullAfter(m, key, start, pool, n + 1)
    ensures PoolEnds(m, key, start, pool, n, p)
  {}

  lemma {:induction false} PoolScanAt(m: map<nat, nat>, key: nat -> nat, s: Scan, start: int, pool: seq<Tx>, n: nat) returns (p: nat)
    requires n <= |pool| && At(m, key, s, start, pool[..n], [])
    ensures PoolEnds(m, key, start, pool, n, p) && At(m, key, PoolScan(m, key, s, pool[n..]), start, pool[..p], [])
    decreases |pool| - n
  {
    p := n;
    if n < |pool| {
      var t := PoolStep(m, key, s, pool[n]);
      PoolScanFirst(m, key, s, pool, n);
      PoolStepAfter(m, key, s, start, pool, n);
      if t.count == |m| {
        p := n + 1;
      } else {
        p := PoolScanAt(m, key, t, start, pool, n + 1);
        PoolEndsBack(m, key, start, pool, n, p);
      }
    }
  }

  /** The same for the extra list; after an element that is not there the count is not looked at. */
  ghost predicate ExtraEnds(m: map<nat, nat>, key: nat -> nat, start: int, pooled: seq<Tx>, extra: seq<Option<Tx>>, from: nat, q: nat) {
    && from <= q <= |extra|
    && (forall j :: from < j < q ==> extra[j - 1].Some? ==> !Full(m, key, start, pooled, Present(extra[..j])))
    && (q < |extra| ==> q > from && extra[q - 1].Some? && Full(m, key, start, pooled, Present(extra[..q])))
  }

  lemma {:induction false} ExtraScanAt(m: map<nat, nat>, key: nat -> nat, s: Scan, start: int, pooled: seq<Tx>, extra: seq<Option<Tx>>, n: nat)
    returns (q: nat)
    requires n <= |extra| && At(m, key, s, start, pooled, Present(extra[..n]))
    ensures ExtraEnds(m, key, start, pooled, extra, n, q)
    ensures At(m, key, ExtraScan(m, key, s, extra[n..]), start, pooled, Present(extra[..q]))
    decreases |extra| - n
  {
    q := n;
    if n < |extra| {
      assert extra[n..][0] == extra[n] && extra[n..][1..] == extra[n + 1..] && extra[..n + 1][..n] == extra[..n];
      if extra[n].None? {
        q := ExtraScanAt(m, key, s, start, pooled, extra, n + 1);
      } else {
        var t := ExtraStep(m, key, s, extra[n].value);
        ExtraStepAt(m, key, s, start, pooled, Present(extra[..n]), extra[n].value);
        FilledAt(m, key, t, start, pooled, Present(extra[..n + 1]));
        if t.count == |m| {
          q := n + 1;
        } else {
          q := ExtraScanAt(m, key, t, start, pooled, extra, n + 1);
        }
      }
    }
  }

  // ----- The state after `InitData` -----

  /** The positions that the short ids stand for. */
  function OpenSlots(c: CompactBlock): (r: seq<nat>)
    requires Accepted(c)
    ensures |r| == |c.shortIds| && forall k :: 0 <= k < |r| ==> r[k] < Total(c)
  {
    OpenCount(c, |c.prefilled|);
    Open(Placed(c, |c.prefilled|), Total(c))
  }

  function IdMap(c: CompactBlock): map<nat, nat>
    requires Accepted(c)
  {
    ShortMap(c.shortIds, OpenSlots(c), |c.shortIds|)
  }

  lemma IdMapOk(c: CompactBlock)
    requires Accepted(c) && Distinct(c.shortIds)
    ensures MapOk(IdMap(c), Total(c))
    ensures forall id :: id in IdMap(c) <==> id in c.shortIds
    ensures forall j :: j in IdMap(c).Values ==> j in OpenSlots(c)
  {
    var m, n := IdMap(c), |c.shortIds|;
    forall id ensures id in m <==> id in c.shortIds {
      ShortMapKeys(c.shortIds, OpenSlots(c), n, id);
    }
    forall i | 0 <= i < n ensures c.shortIds[i] in m && m[c.shortIds[i]] == OpenSlots(c)[i] {
      ShortMapAt(c.shortIds, OpenSlots(c), n, i);
    }
    forall a, b | a in m && b in m && a != b ensures m[a] != m[b] {
      var i :| 0 <= i < n && c.shortIds[i] == a;
      var j :| 0 <= j < n && c.shortIds[j] == b;
      if i < j {
        OpenSorted(Placed(c, |c.prefilled|), Total(c), i, j);
      } else {
        OpenSorted(Placed(c, |c.prefilled|), Total(c), j, i);
      }
    }
  }

  function StartScan(c: CompactBlock, start: int): Scan
    requires Accepted(c)
  {
    Scan(Placed(c, |c.prefilled|), seq(Total(c), _ => false), start)
  }

  lemma StartOk(c: CompactBlock, seen: set<Tx>, start: int)
    requires Accepted(c) && Distinct(c.shortIds)
    ensures ScanOk(IdMap(c), c.key, Placed(c, |c.prefilled|), StartScan(c, start), seen, start)
  {
    IdMapOk(c);
    var m, a := IdMap(c), Placed(c, |c.prefilled|);
    forall id | id in m ensures a[m[id]].None? {
      assert m[id] in m.Values;
    }
    assert Filled(m, a) == {};
  }

  /** What the searches leave. `start` is the count before. */
  ghost function Searched(c: CompactBlock, pool: seq<Tx>, extra: seq<Option<Tx>>, start: int): (r: Scan)
    requires Accepted(c) && Distinct(c.shortIds)
    ensures |r.avail| == Total(c)
  {
    IdMapOk(c);
    ExtraScan(IdMap(c), c.key, PoolScan(IdMap(c), c.key, StartScan(c, start), pool), extra)
  }

  ghost function Candidates(pool: seq<Tx>, extra: seq<Option<Tx>>): set<Tx> {
    (set tx | tx in pool) + (set o | o in extra && o.Some? :: o.value)
  }

  lemma CandidatesHave(pool: seq<Tx>, extra: seq<Option<Tx>>)
    ensures forall tx :: tx in pool ==> tx in Candidates(pool, extra)
    ensures forall tx :: Some(tx) in extra ==> tx in Candidates(pool, extra)
  {
    forall tx | Some(tx) in extra ensures tx in Candidates(pool, extra) {
      var o := Some(tx);
      assert o in extra && o.Some?;
    }
  }

  lemma SearchedOk(c: CompactBlock, pool: seq<Tx>, extra: seq<Option<Tx>>, start: int)
    requires Accepted(c) && Distinct(c.shortIds)
    ensures ScanOk(IdMap(c), c.key, Placed(c, |c.prefilled|), Searched(c, pool, extra, start), Candidates(pool, extra), start)
  {
    var m, seen, base := IdMap(c), Candidates(pool, extra), Placed(c, |c.prefilled|);
    IdMapOk(c);
    CandidatesHave(pool, extra);
    StartOk(c, seen, start);
    PoolScanOk(m, c.key, base, StartScan(c, start), pool, seen, start);
    ExtraScanOk(m, c.key, base, PoolScan(m, c.key, StartScan(c, start), pool), extra, seen, start);
  }

  lemma StartAt(c: CompactBlock, start: int)
    requires Accepted(c) && Distinct(c.shortIds)
    ensures At(IdMap(c), c.key, StartScan(c, start), start, [], [])
  {
    StartOk(c, {}, start);
    var m, s := IdMap(c), StartScan(c, start);
    forall id | id in m ensures SlotAt(m, c.key, s, [], [], id) {
      assert SlotOk(m, c.key, s, {}, id);
    }
  }

  /** The i-th open position holds what the candidates met for its short id leave there. */
  ghost predicate Filling(c: CompactBlock, avail: seq<Option<Tx>>, pooled: seq<Tx>, extras: seq<Tx>, i: nat)
    requires Accepted(c) && |avail| == Total(c) && i < |c.shortIds|
  {
    avail[OpenSlots(c)[i]] == Outcome(Hits(c.key, pooled, c.shortIds[i]), Hits(c.key, extras, c.shortIds[i]))
  }

  /** The searches have met the first p candidates of the pool and the first q elements of the extra list,
      and every position holds what these leave there. */
  ghost predicate SearchEnds(c: CompactBlock, pool: seq<Tx>, extra: seq<Option<Tx>>, start: int, avail: seq<Option<Tx>>, p: nat, q: nat)
    requires Accepted(c) && |avail| == Total(c)
  {
    && PoolEnds(IdMap(c), c.key, start, pool, 0, p) && ExtraEnds(IdMap(c), c.key, start, pool[..p], extra, 0, q)
    && (forall i :: 0 <= i < |c.shortIds| ==> Filling(c, avail, pool[..p], Present(extra[..q]), i))
    && (forall i :: 0 <= i < |c.prefilled| ==> 0 <= Slot(c.prefilled, i) < |avail| && avail[Slot(c.prefilled, i)] == Some(c.prefilled[i].tx))
  }

  lemma PrefilledStays(c: CompactBlock, pool: seq<Tx>, extra: seq<Option<Tx>>, start: int, i: nat)
    requires Accepted(c) && Distinct(c.shortIds) && i < |c.prefilled|
    ensures var avail, j := Searched(c, pool, extra, start).avail, Slot(c.prefilled, i);
            0 <= j < |avail| && avail[j] == Some(c.prefilled[i].tx)
  {
    PlacedAt(c, |c.prefilled|, i);
    SearchedOk(c, pool, extra, start);
    IdMapOk(c);
    assert Slot(c.prefilled, i) !in IdMap(c).Values;
  }

  /** What is available after the searches, position by position. */
  lemma SearchExact(c: CompactBlock, pool: seq<Tx>, extra: seq<Option<Tx>>, start: int) returns (p: nat, q: nat)
    requires Accepted(c) && Distinct(c.shortIds)
    ensures SearchEnds(c, pool, extra, start, Searched(c, pool, extra, start).avail, p, q)
  {
    var m, r := IdMap(c), Searched(c, pool, extra, start);
    IdMapOk(c);
    StartAt(c, start);
    assert pool[..0] == [] && pool[0..] == pool && extra[..0] == [] && extra[0..] == extra;
    p := PoolScanAt(m, c.key, StartScan(c, start), start, pool, 0);
    q := ExtraScanAt(m, c.key, PoolScan(m, c.key, StartScan(c, start), pool), start, pool[..p], extra, 0);
    forall i | 0 <= i < |c.shortIds| ensures Filling(c, r.avail, pool[..p], Present(extra[..q]), i) {
      ShortMapAt(c.shortIds, OpenSlots(c), |c.shortIds|, i);
      assert SlotAt(m, c.key, r, pool[..p], Present(extra[..q]), c.shortIds[i]);
    }
    forall i | 0 <= i < |c.prefilled|
      ensures 0 <= Slot(c.prefilled, i) < |r.avail| && r.avail[Slot(c.prefilled, i)] == Some(c.prefilled[i].tx)
    {
      PrefilledStays(c, pool, extra, start, i);
    }
  }

  lemma {:induction false} HitsTwo(key: nat -> nat, list: seq<Tx>, i: nat, j: nat)
    requires i < j < |list| && key(list[i].wtxid) == key(list[j].wtxid)
    ensures |Hits(key, list, key(list[i].wtxid))| >= 2
  {
    var n := |list| - 1;
    if j < n {
      HitsTwo(key, list[..n], i, j);
    } else {
      HitsHas(key, list[..n], i);
    }
  }

  lemma {:induction false} HitsHas(key: nat -> nat, list: seq<Tx>, i: nat)
    requires i < |list|
    ensures list[i] in Hits(key, list, key(list[i].wtxid))
  {
    var n := |list| - 1;
    if i < n { HitsHas(key, list[..n], i); }
  }

  /** Two candidates of the pool with the short id of a position, both met, leave it open. */
  lemma ClashStaysOpen(c: CompactBlock, pool: seq<Tx>, extra: seq<Option<Tx>>, start: int, p: nat, q: nat, n: nat, i: nat, j: nat)
    requires Accepted(c) && Distinct(c.shortIds) && n < |c.shortIds|
    requires SearchEnds(c, pool, extra, start, Searched(c, pool, extra, start).avail, p, q)
    requires i < j < p && c.key(pool[i].wtxid) == c.shortIds[n] == c.key(pool[j].wtxid)
    ensures Searched(c, pool, extra, start).avail[OpenSlots(c)[n]].None?
  {
    HitsTwo(c.key, pool[..p], i, j);
    assert Filling(c, Searched(c, pool, extra, start).avail, pool[..p], Present(extra[..q]), n);
  }

  /** What is available in an open position is the only transaction that was met for it. */
  lemma OnlyOneMet(c: CompactBlock, pool: seq<Tx>, extra: seq<Option<Tx>>, start: int, p: nat, q: nat, n: nat, tx: Tx)
    requires Accepted(c) && Distinct(c.shortIds) && n < |c.shortIds| && c.key(tx.wtxid) == c.shortIds[n]
    requires SearchEnds(c, pool, extra, start, Searched(c, pool, extra, start).avail, p, q)
    requires tx in pool[..p] || tx in Present(extra[..q])
    ensures var a := Searched(c, pool, extra, start).avail[OpenSlots(c)[n]];
            a.Some? ==> a.value.wtxid == tx.wtxid && (a.value in pool[..p] || a.value in Present(extra[..q]))
  {
    var id, pooled, extras := c.shortIds[n], pool[..p], Present(extra[..q]);
    assert Filling(c, Searched(c, pool, extra, start).avail, pooled, extras, n);
    var all := Hits(c.key, pooled, id) + Hits(c.key, extras, id);
    if tx in pooled {
      var i :| 0 <= i < |pooled| && pooled[i] == tx;
      HitsHas(c.key, pooled, i);
    } else {
      var i :| 0 <= i < |extras| && extras[i] == tx;
      HitsHas(c.key, extras, i);
    }
    assert tx in all;
    if |all| > 0 {
      HitsOnly(c.key, pooled, id, all[0]);
      HitsOnly(c.key, extras, id, all[0]);
    }
  }

  lemma {:induction false} HitsOnly(key: nat -> nat, list: seq<Tx>, id: nat, tx: Tx)
    ensures tx in Hits(key, list, id) ==> tx in list && key(tx.wtxid) == id
  {
    if list != [] { HitsOnly(key, list[..|list| - 1], id, tx); }
  }

  /** The count of an object that was not used before is the number of short ids whose position is
      filled; an earlier count is never taken back. */
  lemma MempoolCount(c: CompactBlock, pool: seq<Tx>, extra: seq<Option<Tx>>, start: int)
    requires Accepted(c) && Distinct(c.shortIds)
    ensures MapOk(IdMap(c), Total(c))
    ensures var r := Searched(c, pool, extra, start); r.count == |Filled(IdMap(c), r.avail)| <==> start == 0
  {
    SearchedOk(c, pool, extra, start);
  }

  /** Every transaction of the pool or the extra list whose short id no other candidate shares is found. */
  lemma SearchFinds(c: CompactBlock, pool: seq<Tx>, extra: seq<Option<Tx>>, i: nat, v: Tx)
    requires Accepted(c) && Distinct(c.shortIds) && Distinct(pool) && i < |c.shortIds| && c.key(v.wtxid) == c.shortIds[i]
    requires v in pool || Some(v) in extra
    requires forall tx :: tx in Candidates(pool, extra) && c.key(tx.wtxid) == c.shortIds[i] ==> tx == v
    ensures Searched(c, pool, extra, 0).avail[OpenSlots(c)[i]] == Some(v)
  {
    var m, seen, base, id := IdMap(c), Candidates(pool, extra), Placed(c, |c.prefilled|), c.shortIds[i];
    IdMapOk(c);
    CandidatesHave(pool, extra);
    ShortMapAt(c.shortIds, OpenSlots(c), |c.shortIds|, i);
    StartOk(c, seen, 0);
    var s := StartScan(c, 0);
    PoolFinds(m, c.key, base, s, pool, seen, id, v);
    PoolScanOk(m, c.key, base, s, pool, seen, 0);
    ExtraFinds(m, c.key, base, PoolScan(m, c.key, s, pool), extra, seen, id, v);
  }

  // ----- Filling in what is missing -----

  /** The transactions of the first n positions, the missing ones taken in order. */
  function Merge(avail: seq<Option<Tx>>, missing: seq<Tx>, n: nat): (r: seq<Tx>)
    requires n <= |avail| && |Open(avail, n)| <= |missing|
    ensures |r| == n
  {
    if n == 0 then []
    else if avail[n - 1].None? then Merge(avail, missing, n - 1) + [missing[|Open(avail, n - 1)|]]
    else Merge(avail, missing, n - 1) + [avail[n - 1].value]
  }

  /** The transactions of a block at open positions. */
  function MissingOf(avail: seq<Option<Tx>>, vtx: seq<Tx>): (r: seq<Tx>)
    requires |avail| == |vtx|
    ensures |r| == |Open(avail, |avail|)| && forall k :: 0 <= k < |r| ==> r[k] == vtx[Open(avail, |avail|)[k]]
  {
    var open := Open(avail, |avail|);
    seq(|open|, k requires 0 <= k < |open| => vtx[open[k]])
  }

  /** Open positions before n come first among all open positions. */
  lemma {:induction false} OpenPrefix(a: seq<Option<Tx>>, n: nat, j: nat)
    requires n <= j <= |a|
    ensures Open(a, n) <= Open(a, j)
  {
    if n < j {
      OpenPrefix(a, n, j - 1);
    }
  }

  lemma {:induction false} MergeMissing(avail: seq<Option<Tx>>, vtx: seq<Tx>, n: nat)
    requires |avail| == |vtx| && n <= |avail|
    requires forall j :: 0 <= j < |avail| && avail[j].Some? ==> avail[j].value == vtx[j]
    ensures |Open(avail, n)| <= |MissingOf(avail, vtx)| && Merge(avail, MissingOf(avail, vtx), n) == vtx[..n]
  {
    OpenPrefix(avail, n, |avail|);
    if n > 0 {
      MergeMissing(avail, vtx, n - 1);
      assert vtx[..n] == vtx[..n - 1] + [vtx[n - 1]];
    }
  }

  // ----- Rebuilding a block -----

  /** The compact form describes the block: prefilled transactions are the block's at their positions,
      and the i-th short id is that of the transaction at the i-th other position. */
  ghost predicate Describes(c: CompactBlock, vtx: seq<Tx>) {
    && Accepted(c) && |vtx| == Total(c)
    && (forall i :: 0 <= i < |c.prefilled| ==> PrefilledRight(c, vtx, i))
    && (forall i :: 0 <= i < |c.shortIds| ==> c.shortIds[i] == c.key(vtx[OpenSlots(c)[i]].wtxid))
  }

  ghost predicate PrefilledRight(c: CompactBlock, vtx: seq<Tx>, i: nat)
    requires i < |c.prefilled|
  {
    0 <= Slot(c.prefilled, i) < |vtx| && vtx[Slot(c.prefilled, i)] == c.prefilled[i].tx
  }

  /** No candidate has the short id of another transaction of the block. */
  ghost predicate NoOther(c: CompactBlock, vtx: seq<Tx>, candidates: set<Tx>)
    requires Describes(c, vtx)
  {
    forall tx, i :: tx in candidates && 0 <= i < |c.shortIds| && c.key(tx.wtxid) == c.shortIds[i] ==> tx == vtx[OpenSlots(c)[i]]
  }

  /** Whatever is available after the search is right. */
  lemma AvailableIsRight(c: CompactBlock, vtx: seq<Tx>, pool: seq<Tx>, extra: seq<Option<Tx>>, start: int, j: nat)
    requires Describes(c, vtx) && Distinct(c.shortIds) && NoOther(c, vtx, Candidates(pool, extra)) && j < |vtx|
    requires Searched(c, pool, extra, start).avail[j].Some?
    ensures Searched(c, pool, extra, start).avail[j].value == vtx[j]
  {
    var r, m, base := Searched(c, pool, extra, start), IdMap(c), Placed(c, |c.prefilled|);
    SearchedOk(c, pool, extra, start);
    IdMapOk(c);
    if base[j].Some? {
      var i := PlacedOnly(c, |c.prefilled|, j);
      PlacedAt(c, |c.prefilled|, i);
      assert PrefilledRight(c, vtx, i);
      assert j !in m.Values;
    } else {
      OpenHas(base, |base|, j);
      var i :| 0 <= i < |OpenSlots(c)| && OpenSlots(c)[i] == j;
      ShortMapAt(c.shortIds, OpenSlots(c), |c.shortIds|, i);
      assert SlotOk(m, c.key, r, Candidates(pool, extra), c.shortIds[i]);
    }
  }

  /** If no other candidate shares a short id with a transaction of the block, then what is available
      together with the missing transactions, in order, is the block. */
  lemma Rebuild(c: CompactBlock, vtx: seq<Tx>, pool: seq<Tx>, extra: seq<Option<Tx>>, start: int)
    requires Describes(c, vtx) && Distinct(c.shortIds) && NoOther(c, vtx, Candidates(pool, extra))
    ensures var avail := Searched(c, pool, extra, start).avail;
            |Open(avail, |avail|)| <= |MissingOf(avail, vtx)| && Merge(avail, MissingOf(avail, vtx), |avail|) == vtx
  {
    var avail := Searched(c, pool, extra, start).avail;
    forall j | 0 <= j < |avail| && avail[j].Some? ensures avail[j].value == vtx[j] {
      AvailableIsRight(c, vtx, pool, extra, start, j);
    }
    MergeMissing(avail, vtx, |avail|);
    assert vtx[..|avail|] == vtx;
  }

  // ----- Making the compact form -----

  /** The constructor: only the first transaction is prefilled. */
  function Compact(header: nat, vtx: seq<Tx>, key: nat -> nat): CompactBlock
    requires vtx != []
  {
    CompactBlock(header, seq<nat>(|vtx| - 1, i requires 0 <= i < |vtx| - 1 => key(vtx[i + 1].wtxid)), [Prefilled(0, vtx[0])], key)
  }

  lemma {:induction false} OpenAfterFirst(n: nat, tx: Tx, j: nat)
    requires 0 < j <= n
    ensures Open(Empty(n)[0 := Some(tx)], j) == seq(j - 1, i => i + 1)
  {
    if j > 1 {
      OpenAfterFirst(n, tx, j - 1);
    }
  }

  /** Every block's compact form describes it. */
  lemma CompactDescribes(header: nat, vtx: seq<Tx>, key: nat -> nat)
    requires vtx != [] && !vtx[0].isNull
    ensures Describes(Compact(header, vtx, key), vtx)
  {
    var c := Compact(header, vtx, key);
    assert SlotAccepted(c, 0);
    assert Placed(c, 1) == Empty(|vtx|)[0 := Some(vtx[0])];
    OpenAfterFirst(|vtx|, vtx[0], |vtx|);
    assert PrefilledRight(c, vtx, 0);
  }

  method MakeCompact(header: nat, vtx: seq<Tx>, key: nat -> nat) returns (c: CompactBlock)
    requires vtx != []
    ensures c == Compact(header, vtx, key)
  {
    var shortIds: seq<nat> := [];
    for i := 1 to |vtx|
      invariant shortIds == Compact(header, vtx, key).shortIds[..i - 1]
    {
      shortIds := shortIds + [key(vtx[i].wtxid)];
    }
    c := CompactBlock(header, shortIds, [Prefilled(0, vtx[0])], key);
  }

  // ----- The object that rebuilds a block -----

  lemma {:induction false} OpenIndex(a: seq<Option<Tx>>, j: nat, n: nat)
    requires j < n <= |a| && a[j].None?
    ensures |Open(a, j)| < |Open(a, n)| && Open(a, n)[|Open(a, j)|] == j
  {
    if j < n - 1 {
      OpenIndex(a, j, n - 1);
    }
  }

  /** What `InitData` checks before it looks at the prefilled transactions. */
  predicate SizesOk(c: CompactBlock) {
    c.header != 0 && Total(c) > 0 && Total(c) <= MAX_TX_COUNT
  }

  /** The positions before n have been emptied and the others are as before. */
  ghost predicate EmptiedTo(a: seq<Option<Tx>>, b: seq<Option<Tx>>, n: nat) {
    |b| == |a| && forall j :: 0 <= j < |a| ==> b[j] == if j < n then None else a[j]
  }

  lemma NextOpen(a: seq<Option<Tx>>, i: nat)
    requires i < |a|
    ensures |Open(a, i + 1)| <= |Open(a, |a|)|
    ensures a[i].None? ==> |Open(a, i)| < |Open(a, |a|)| && Open(a, |a|)[|Open(a, i)|] == i
  {
    OpenPrefix(a, i + 1, |a|);
  }

  class PartiallyDownloadedBlock {
    var header: nat
    var txnAvailable: seq<Option<Tx>>
    var prefilledCount: nat
    var mempoolCount: int

    constructor ()
      ensures header == 0 && txnAvailable == [] && prefilledCount == 0 && mempoolCount == 0
    {
      header, txnAvailable, prefilledCount, mempoolCount := 0, [], 0, 0;
    }

    /** `InitData`. Counts and indexes are within the 16 bits that the message format allows. `uneven`
        stands for the test on the sizes of hash buckets. */
    method InitData(c: CompactBlock, pool: seq<Tx>, extra: seq<Option<Tx>>, uneven: bool) returns (status: ReadStatus)
      requires Total(c) <= MAX_INDEX && forall i :: 0 <= i < |c.prefilled| ==> c.prefilled[i].index <= MAX_INDEX
      modifies this
      ensures status == Invalid <==>
                c.header == 0 || Total(c) == 0 || Total(c) > MAX_TX_COUNT || old(header) != 0 || old(txnAvailable) != [] || !Accepted(c)
      ensures status == Failed <==> status != Invalid && (uneven || !Distinct(c.shortIds))
      ensures status != CheckBlockFailed
      ensures status == Ok ==>
                && header == c.header && prefilledCount == |c.prefilled|
                && txnAvailable == Searched(c, pool, extra, old(mempoolCount)).avail
                && mempoolCount == Searched(c, pool, extra, old(mempoolCount)).count
      ensures status == Ok ==> exists p: nat, q: nat :: SearchEnds(c, pool, extra, old(mempoolCount), txnAvailable, p, q)
    {
      if c.header == 0 || (c.shortIds == [] && c.prefilled == []) { return Invalid; }
      if |c.shortIds| + |c.prefilled| > MAX_TX_COUNT { return Invalid; }
      if header != 0 || txnAvailable != [] { return Invalid; }
      header := c.header;
      txnAvailable := Empty(Total(c));
      var ok := PlacePrefilled(c);
      if !ok { return Invalid; }
      prefilledCount := |c.prefilled|;
      var ids := MapShortIds(c);
      ShortMapSize(c.shortIds, OpenSlots(c), |c.shortIds|);
      assert c.shortIds[..|c.shortIds|] == c.shortIds;
      if uneven { return Failed; }
      if |ids| != |c.shortIds| { return Failed; }
      IdMapOk(c);
      var have := seq(|txnAvailable|, _ => false);
      have := SearchPool(c, ids, have, pool);
      have := SearchExtra(c, ids, have, extra);
      ghost var p, q := SearchExact(c, pool, extra, old(mempoolCount));
      return Ok;
    }

    method PlacePrefilled(c: CompactBlock) returns (ok: bool)
      requires txnAvailable == Empty(Total(c))
      modifies `txnAvailable
      ensures ok <==> Accepted(c)
      ensures ok ==> txnAvailable == Placed(c, |c.prefilled|)
    {
      var last := -1;
      for i := 0 to |c.prefilled|
        invariant last == if i == 0 then -1 else Slot(c.prefilled, i - 1)
        invariant |txnAvailable| == Total(c) && forall k :: 0 <= k < i ==> SlotAccepted(c, k)
        invariant Accepted(c) ==> txnAvailable == Placed(c, i)
      {
        if c.prefilled[i].tx.isNull {
          assert !SlotAccepted(c, i);
          return false;
        }
        last := last + c.prefilled[i].index + 1;
        if last > MAX_INDEX || last > |c.shortIds| + i {
          assert !SlotAccepted(c, i);
          return false;
        }
        SlotInBounds(c, i);
        txnAvailable := txnAvailable[last := Some(c.prefilled[i].tx)];
      }
      return true;
    }

    method MapShortIds(c: CompactBlock) returns (ids: map<nat, nat>)
      requires Accepted(c) && txnAvailable == Placed(c, |c.prefilled|) && Total(c) <= MAX_INDEX
      ensures ids == IdMap(c)
    {
      ids := map[];
      var offset: nat := 0;
      for i := 0 to |c.shortIds|
        invariant i + offset <= |txnAvailable| && |Open(txnAvailable, i + offset)| == i
        invariant ids == ShortMap(c.shortIds, OpenSlots(c), i)
      {
        offset := SkipTaken(c, i, offset);
        OpenIndex(txnAvailable, i + offset, |txnAvailable|);
        assert i + offset <= MAX_INDEX;
        ids := ids[c.shortIds[i] := i + offset];
      }
    }

    /** The inner loop: step over prefilled positions. */
    method SkipTaken(c: CompactBlock, i: nat, offset: nat) returns (offset': nat)
      requires |OpenOf()| == |c.shortIds| && i < |c.shortIds|
      requires i + offset <= |txnAvailable| && |Open(txnAvailable, i + offset)| == i
      ensures i + offset' < |txnAvailable| && txnAvailable[i + offset'].None? && |Open(txnAvailable, i + offset')| == i
    {
      offset' := offset;
      while i + offset' < |txnAvailable| && txnAvailable[i + offset'].Some?
        invariant i + offset' <= |txnAvailable| && |Open(txnAvailable, i + offset')| == i
      {
        offset' := offset' + 1;
      }
    }

    ghost function OpenOf(): seq<nat>
      reads this
    {
      Open(txnAvailable, |txnAvailable|)
    }

    method SearchPool(c: CompactBlock, ids: map<nat, nat>, have: seq<bool>, pool: seq<Tx>) returns (have': seq<bool>)
      requires Sized(ids, Scan(txnAvailable, have, mempoolCount))
      modifies `txnAvailable, `mempoolCount
      ensures Scan(txnAvailable, have', mempoolCount) == PoolScan(ids, c.key, old(Scan(txnAvailable, have, mempoolCount)), pool)
    {
      have' := have;
      ghost var goal := PoolScan(ids, c.key, Scan(txnAvailable, have, mempoolCount), pool);
      for k := 0 to |pool|
        invariant Sized(ids, Scan(txnAvailable, have', mempoolCount))
        invariant PoolScan(ids, c.key, Scan(txnAvailable, have', mempoolCount), pool[k..]) == goal
      {
        assert pool[k..][0] == pool[k] && pool[k..][1..] == pool[k + 1..];
        have' := Consider(c, ids, have', pool[k]);
        if mempoolCount == |ids| { return; }
      }
    }

    /** What both loops do with a candidate. */
    method Consider(c: CompactBlock, ids: map<nat, nat>, have: seq<bool>, tx: Tx) returns (have': seq<bool>)
      requires Sized(ids, Scan(txnAvailable, have, mempoolCount))
      modifies `txnAvailable, `mempoolCount
      ensures Scan(txnAvailable, have', mempoolCount) == PoolStep(ids, c.key, old(Scan(txnAvailable, have, mempoolCount)), tx)
    {
      have' := have;
      var id := c.key(tx.wtxid);
      if id in ids {
        if !have'[ids[id]] {
          txnAvailable := txnAvailable[ids[id] := Some(tx)];
          have' := have'[ids[id] := true];
          mempoolCount := mempoolCount + 1;
        } else if txnAvailable[ids[id]].Some? {
          txnAvailable := txnAvailable[ids[id] := None];
          mempoolCount := mempoolCount - 1;
        }
      }
    }

    method SearchExtra(c: CompactBlock, ids: map<nat, nat>, have: seq<bool>, extra: seq<Option<Tx>>) returns (have': seq<bool>)
      requires Sized(ids, Scan(txnAvailable, have, mempoolCount))
      modifies `txnAvailable, `mempoolCount
      ensures Scan(txnAvailable, have', mempoolCount) == ExtraScan(ids, c.key, old(Scan(txnAvailable, have, mempoolCount)), extra)
    {
      have' := have;
      ghost var goal := ExtraScan(ids, c.key, Scan(txnAvailable, have, mempoolCount), extra);
      for k := 0 to |extra|
        invariant Sized(ids, Scan(txnAvailable, have', mempoolCount))
        invariant ExtraScan(ids, c.key, Scan(txnAvailable, have', mempoolCount), extra[k..]) == goal
      {
        assert extra[k..][0] == extra[k] && extra[k..][1..] == extra[k + 1..];
        if extra[k].Some? {
          var tx := extra[k].value;
          var id := c.key(tx.wtxid);
          if !(id in ids && have'[ids[id]] && txnAvailable[ids[id]].Some? && txnAvailable[ids[id]].value.wtxid == tx.wtxid) {
            have' := Consider(c, ids, have', tx);
          }
          if mempoolCount == |ids| { return; }
        }
      }
    }

    method IsTxAvailable(index: nat) returns (r: bool)
      requires header != 0 ==> index < |txnAvailable|
      ensures r <==> header != 0 && txnAvailable[index].Some?
    {
      if header == 0 { return false; }
      return txnAvailable[index].Some?;
    }

    /** The loop of `FillBlock`: moves out what is available, in order, and puts a missing transaction
        into each gap, until they run out. The positions that were passed are empty then. */
    method Collect(missing: seq<Tx>) returns (enough: bool, offset: nat, vtx: seq<Tx>)
      modifies `txnAvailable
      ensures enough <==> |old(OpenOf())| <= |missing|
      ensures enough ==> offset == |old(OpenOf())| && vtx == Merge(old(txnAvailable), missing, |old(txnAvailable)|)
      ensures !enough ==> EmptiedTo(old(txnAvailable), txnAvailable, old(OpenOf())[|missing|])
    {
      offset, vtx := 0, [];
      ghost var a := txnAvailable;
      for i := 0 to |txnAvailable|
        invariant EmptiedTo(a, txnAvailable, i)
        invariant offset == |Open(a, i)| <= |missing| && vtx == Merge(a, missing, i)
      {
        NextOpen(a, i);
        if txnAvailable[i].None? {
          if |missing| <= offset { return false, offset, vtx; }
          vtx := vtx + [missing[offset]];
          offset := offset + 1;
        } else {
          vtx := vtx + [txnAvailable[i].value];
          txnAvailable := txnAvailable[i := None];
        }
      }
      return true, offset, vtx;
    }

    /** `FillBlock`. Nothing is taken from an object without a header. With too few missing
        transactions the header stays, though positions before the gap have been emptied; otherwise the
        object is cleared, and the block is what was available merged with the missing transactions. */
    method FillBlock(missing: seq<Tx>, check: seq<Tx> -> Verdict) returns (status: ReadStatus, vtx: seq<Tx>)
      modifies `header, `txnAvailable
      ensures old(header) == 0 ==> status == Invalid && header == 0 && txnAvailable == old(txnAvailable)
      ensures old(header) != 0 && |old(OpenOf())| > |missing| ==>
                status == Invalid && header == old(header) && EmptiedTo(old(txnAvailable), txnAvailable, old(OpenOf())[|missing|])
      ensures old(header) != 0 && |old(OpenOf())| <= |missing| ==>
                && header == 0 && txnAvailable == [] && vtx == Merge(old(txnAvailable), missing, |old(txnAvailable)|)
                && status == if |old(OpenOf())| != |missing| then Invalid
                             else match check(vtx) case Good => Ok case Mutated => Failed case Bad => CheckBlockFailed
    {
      vtx := [];
      if header == 0 { return Invalid, vtx; }
      var enough, offset;
      enough, offset, vtx := Collect(missing);
      if !enough { return Invalid, vtx; }
      header := 0;
      txnAvailable := [];
      if |missing| != offset { return Invalid, vtx; }
      match check(vtx) {
        case Good => return Ok, vtx;
        case Mutated => return Failed, vtx;
        case Bad => return CheckBlockFailed, vtx;
      }
    }
  }

  /** The whole exchange: after `InitData` succeeds on a block's compact form, asking for exactly the
      positions that are not available and filling them in gives the block back. */
  method Exchange(c: CompactBlock, vtx: seq<Tx>, pool: seq<Tx>, extra: seq<Option<Tx>>, uneven: bool, check: seq<Tx> -> Verdict)
    returns (initialized: ReadStatus, filled: ReadStatus, block: seq<Tx>)
    requires Total(c) <= MAX_INDEX && forall i :: 0 <= i < |c.prefilled| ==> c.prefilled[i].index <= MAX_INDEX
    requires Describes(c, vtx) && NoOther(c, vtx, Candidates(pool, extra)) && check(vtx) == Good
    ensures initialized == Ok ==> filled == Ok && block == vtx
    ensures initialized == Ok <==> SizesOk(c) && !uneven && Distinct(c.shortIds)
  {
    var partial := new PartiallyDownloadedBlock();
    initialized := partial.InitData(c, pool, extra, uneven);
    if initialized != Ok { return initialized, Invalid, []; }
    Rebuild(c, vtx, pool, extra, 0);
    var missing := Request(partial, vtx);
    filled, block := partial.FillBlock(missing, check);
  }

  /** The peer's answer: the transactions at the positions that are not available. */
  method Request(partial: PartiallyDownloadedBlock, vtx: seq<Tx>) returns (missing: seq<Tx>)
    requires partial.header != 0 && |partial.txnAvailable| == |vtx|
    ensures missing == MissingOf(partial.txnAvailable, vtx)
  {
    missing := [];
    for i := 0 to |vtx|
      invariant |missing| == |Open(partial.txnAvailable, i)|
      invariant forall k :: 0 <= k < |missing| ==> missing[k] == vtx[Open(partial.txnAvailable, i)[k]]
    {
      var available := partial.IsTxAvailable(i);
      if !available {
        missing := missing + [vtx[i]];
      }
    }
  }

  // ----- Using an object again -----

  /** The numbers of positions that the two searches of an object that is used twice have filled. */
  ghost function FilledBy(c: CompactBlock, pool: seq<Tx>, extra: seq<Option<Tx>>, start: int): nat
    requires Accepted(c) && Distinct(c.shortIds)
  {
    IdMapOk(c);
    |Filled(IdMap(c), Searched(c, pool, extra, start).avail)|
  }

  /** `InitData`, `FillBlock` and `InitData` again on the same object: the second count is on top of the
      first. */
  method UseTwice(c: CompactBlock, pool: seq<Tx>, extra: seq<Option<Tx>>, missing: seq<Tx>, check: seq<Tx> -> Verdict)
    returns (first: int, second: int)
    requires SizesOk(c) && Accepted(c) && Distinct(c.shortIds) && Total(c) <= |missing|
    requires Total(c) <= MAX_INDEX && forall i :: 0 <= i < |c.prefilled| ==> c.prefilled[i].index <= MAX_INDEX
    ensures first == FilledBy(c, pool, extra, 0) && second == first + FilledBy(c, pool, extra, first)
  {
    var partial := new PartiallyDownloadedBlock();
    var status := partial.InitData(c, pool, extra, false);
    first := partial.mempoolCount;
    SearchedOk(c, pool, extra, 0);
    var _, _ := partial.FillBlock(missing, check);
    status := partial.InitData(c, pool, extra, false);
    second := partial.mempoolCount;
    SearchedOk(c, pool, extra, first);
  }

  /** A block of two transactions, the second of which is in the pool. */
  const SAMPLE: CompactBlock := CompactBlock(1, [7], [Prefilled(0, Tx(1, false))], x => x)
  const POOLED: Tx := Tx(7, false)

  /** An object that rebuilds this block twice counts one position too many; `MempoolCount` says when
      the count is right. */
  method CountsTooMany() returns (second: int)
    ensures Accepted(SAMPLE) && Distinct(SAMPLE.shortIds) && second == FilledBy(SAMPLE, [POOLED], [], 1) + 1
  {
    assert SlotAccepted(SAMPLE, 0);
    SearchFinds(SAMPLE, [POOLED], [], 0, POOLED);
    OneFilled(SAMPLE, [POOLED], 0);
    var first;
    first, second := UseTwice(SAMPLE, [POOLED], [], [POOLED, POOLED], _ => Good);
  }

  lemma OneFilled(c: CompactBlock, pool: seq<Tx>, i: nat)
    requires Accepted(c) && Distinct(c.shortIds) && |c.shortIds| == 1 && i == 0
    requires Searched(c, pool, [], 0).avail[OpenSlots(c)[i]].Some?
    ensures FilledBy(c, pool, [], 0) == 1
  {
    IdMapOk(c);
    ShortMapAt(c.shortIds, OpenSlots(c), 1, 0);
    assert Filled(IdMap(c), Searched(c, pool, [], 0).avail) == {c.shortIds[0]};
  }
}
