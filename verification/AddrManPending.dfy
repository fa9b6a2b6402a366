/** Which collisions stay pending after a resolution, and what is selected for testing. */
module AddrManPending {
  import opened Collections
  import opened AddrManState
  import opened AddrManSpec
  import opened AddrManOps
  import opened AddrManRuns
  import opened AddrManEvictions
  import opened AddrManEffects

  /** The collision of a pending entry with the tried entry y is not decided yet: y has not succeeded for
      four hours, and either it was tried within the last minute, or it was not tried for four hours
      while the pending entry has waited for forty minutes at most. */
  ghost predicate Undecided(e: Env, s: State, id: Id, now: int, y: Id)
    requires ValidEnv(e)
  {
    && id in s.info && e.valid(s.info[id].addr.host)
    && y in s.info && s.info[y].inTried && TriedCell(e, s.info[y].addr) == TriedCell(e, s.info[id].addr)
    && now - s.info[y].lastSuccess >= REPLACEMENT
    && (|| now - s.info[y].lastTry <= MINUTE
        || (now - s.info[y].lastTry >= REPLACEMENT && now - s.info[id].lastSuccess <= TEST_WINDOW))
  }

  ghost predicate StillPending(e: Env, s: State, id: Id, now: int)
    requires ValidEnv(e)
  {
    exists y :: Undecided(e, s, id, now, y)
  }

  /** In the turn of a pending id its collision is settled exactly if it is decided. */
  lemma SettledExactly(e: Env, s: State, id: Id, now: int)
    requires Sound(e, s) && id in s.collisions && now > 0
    ensures ResolveOne(e, s, id, now).1 <==> !StillPending(e, s, id, now)
  {
    if id in s.info {
      var x := Occupant(e, s, id);
      forall y | Undecided(e, s, id, now, y) ensures y == x {
        OnlyOccupant(e, s, id, y);
      }
      assert !ResolveOne(e, s, id, now).1 ==> Undecided(e, s, id, now, x);
    }
  }

  /** What the turn does otherwise: the pending entry takes the cell of the tried entry that it replaces,
      with a success at this time, or nothing changes. */
  lemma TurnMovesIn(e: Env, s: State, id: Id, now: int)
    requires Sound(e, s) && id in s.collisions && now > 0
    ensures var t := ResolveOne(e, s, id, now).0;
            && t.collisions == s.collisions
            && (forall x :: x in s.info && s.info[x].inTried && Replaces(e, s, id, now, x) ==>
                  t.lastGood == now && MovedIn(e, s, t, TriedCell(e, s.info[x].addr), id, Renewed(s.info[id], now)))
            && ((forall x :: x in s.info && s.info[x].inTried ==> !Replaces(e, s, id, now, x)) ==> t == s)
  {
    if id in s.info {
      var x := Occupant(e, s, id);
      ResolveOneMoves(e, s, id, now, x);
      GoodExact(e, s, s.info[id].addr, false, now);
      forall y | y in s.info && s.info[y].inTried && Replaces(e, s, id, now, y) ensures y == x {
        OnlyOccupant(e, s, id, y);
      }
    }
  }

  /** The n-th pending id is undecided when its turn comes. */
  ghost predicate WaitsOn(e: Env, tr: seq<State>, ids: seq<Id>, clock: Id -> int, n: nat, x: Id)
    requires ValidEnv(e)
  {
    n < |ids| && n < |tr| && ids[n] == x && StillPending(e, tr[n], x, clock(x))
  }

  ghost predicate SomeWaits(e: Env, tr: seq<State>, ids: seq<Id>, clock: Id -> int, x: Id)
    requires ValidEnv(e)
  {
    exists n: nat :: WaitsOn(e, tr, ids, clock, n, x)
  }

  lemma WaitsFirstOrLater(e: Env, s: State, id: Id, tr: seq<State>, ids: seq<Id>, clock: Id -> int, x: Id)
    requires ValidEnv(e)
    ensures SomeWaits(e, [s] + tr, [id] + ids, clock, x) <==>
              (id == x && StillPending(e, s, x, clock(x))) || SomeWaits(e, tr, ids, clock, x)
  {
    if n: nat :| WaitsOn(e, [s] + tr, [id] + ids, clock, n, x) {
      if n > 0 { assert WaitsOn(e, tr, ids, clock, n - 1, x); }
    }
    if n: nat :| WaitsOn(e, tr, ids, clock, n, x) {
      assert WaitsOn(e, [s] + tr, [id] + ids, clock, n + 1, x);
    }
    if id == x && StillPending(e, s, x, clock(x)) {
      assert WaitsOn(e, [s] + tr, [id] + ids, clock, 0, x);
    }
  }

  lemma NextBefore(e: Env, s: State, k: nat, now: int, x: Id)
    requires Sound(e, s) && k < |s.collisions| && now > 0
    ensures var (t, k') := ResolveNext(e, s, k, now);
            k' <= |t.collisions| && (x in t.collisions[..k'] <==>
              x in s.collisions[..k] || (x == s.collisions[k] && StillPending(e, s, x, now)))
  {
    SettledExactly(e, s, s.collisions[k], now);
    assert s.collisions[..k + 1] == s.collisions[..k] + [s.collisions[k]];
  }

  /** The ids that are pending after the rest of a resolution: those that had their turn before, and
      those that are undecided in theirs. */
  lemma {:induction false} PendingExactly(e: Env, s: State, k: nat, clock: Id -> int, x: Id)
    requires Sound(e, s) && k <= |s.collisions| && forall id :: clock(id) > 0
    ensures x in ResolveFrom(e, s, k, clock).collisions <==>
              x in s.collisions[..k] || SomeWaits(e, Turns(e, s, k, clock), s.collisions[k..], clock, x)
    decreases |s.collisions| - k
  {
    if k < |s.collisions| {
      var id := s.collisions[k];
      ResolveNextSound(e, s, k, clock(id));
      var (t, k') := ResolveNext(e, s, k, clock(id));
      PendingExactly(e, t, k', clock, x);
      NextBefore(e, s, k, clock(id), x);
      WaitsFirstOrLater(e, s, id, Turns(e, t, k', clock), t.collisions[k'..], clock, x);
      FirstAndRest(s.collisions, k);
    }
  }

  /** After a resolution an id is pending exactly if it was before and was undecided in its turn. */
  lemma ResolvePending(e: Env, s: State, clock: Id -> int, x: Id)
    requires Sound(e, s) && forall id :: clock(id) > 0
    ensures x in ResolveFrom(e, s, 0, clock).collisions <==>
              exists n: nat :: WaitsOn(e, Turns(e, s, 0, clock), s.collisions, clock, n, x)
  {
    PendingExactly(e, s, 0, clock, x);
    assert s.collisions[0..] == s.collisions;
  }

  // ----- The same on the state before the resolution -----

  /** No other of the first n ids has the tried cell of x. */
  ghost predicate Alone(e: Env, s: State, ids: seq<Id>, n: nat, x: Id)
    requires ValidEnv(e) && x in s.info && n <= |ids|
  {
    forall m: nat :: m < n && ids[m] in s.info ==> TriedCell(e, s.info[ids[m]].addr) != TriedCell(e, s.info[x].addr)
  }

  /** A tried entry whose cell none of the ids wants stays as it is. */
  lemma {:induction false} Unwanted(e: Env, tr: seq<State>, ids: seq<Id>, clock: Id -> int, n: nat, y: Id)
    requires ValidEnv(e) && Resolves(e, tr, ids, clock) && n <= |ids| && y in tr[0].info && tr[0].info[y].inTried
    requires Alone(e, tr[0], ids, n, y)
    ensures Remains(tr[0], tr[n], y)
    decreases n
  {
    if n > 0 {
      var m := n - 1;
      Unwanted(e, tr, ids, clock, m, y);
      assert NthTurn(e, tr, ids, clock, m);
      FramedTurns(e, tr, ids, clock, m, y);
      if ids[m] in tr[m].info { FramedTurns(e, tr, ids, clock, m, ids[m]); }
    }
  }

  /** A tried entry in a cell that none of the ids wants was there at the start. */
  lemma WasThere(e: Env, tr: seq<State>, ids: seq<Id>, clock: Id -> int, n: nat, y: Id)
    requires ValidEnv(e) && Resolves(e, tr, ids, clock) && n <= |ids| && y in tr[n].info && tr[n].info[y].inTried
    ensures y in tr[0].info && tr[n].info[y].addr == tr[0].info[y].addr
    ensures Alone(e, tr[0], ids, n, y) ==> Remains(tr[0], tr[n], y)
  {
    FramedTurns(e, tr, ids, clock, n, y);
    if Alone(e, tr[0], ids, n, y) {
      assert forall m :: 0 <= m < n ==> ids[m] != y;
      Unwanted(e, tr, ids, clock, n, y);
    }
  }

  lemma UndecidedBefore(e: Env, tr: seq<State>, ids: seq<Id>, clock: Id -> int, n: nat)
    requires ValidEnv(e) && Resolves(e, tr, ids, clock) && Distinct(ids) && n < |ids| && ids[n] in tr[n].info
    requires ids[n] in tr[0].info && Alone(e, tr[0], ids, n, ids[n])
    ensures StillPending(e, tr[n], ids[n], clock(ids[n])) <==> StillPending(e, tr[0], ids[n], clock(ids[n]))
  {
    var x := ids[n];
    FramedTurns(e, tr, ids, clock, n, x);
    if y :| Undecided(e, tr[n], x, clock(x), y) {
      WasThere(e, tr, ids, clock, n, y);
      assert Undecided(e, tr[0], x, clock(x), y);
    }
    if y :| Undecided(e, tr[0], x, clock(x), y) {
      Unwanted(e, tr, ids, clock, n, y);
      FramedTurns(e, tr, ids, clock, n, y);
      assert Undecided(e, tr[n], x, clock(x), y);
    }
  }

  /** If no id before it wants the same tried cell, an id that is still known when its turn comes stays
      pending exactly if it is undecided at the start. */
  lemma PendingAlone(e: Env, s: State, clock: Id -> int, n: nat)
    requires Sound(e, s) && (forall id :: clock(id) > 0) && n < |s.collisions|
    requires s.collisions[n] in s.info && Alone(e, s, s.collisions, n, s.collisions[n])
    ensures var tr, x := Turns(e, s, 0, clock), s.collisions[n];
            n < |tr| && (x in ResolveFrom(e, s, 0, clock).collisions <==> x in tr[n].info && StillPending(e, s, x, clock(x)))
  {
    var tr, ids, x := Turns(e, s, 0, clock), s.collisions, s.collisions[n];
    assert ids[0..] == ids;
    TurnsLead(e, s, 0, clock);
    ResolvePending(e, s, clock, x);
    if x in tr[n].info { UndecidedBefore(e, tr, ids, clock, n); }
    assert WaitsOn(e, tr, ids, clock, n, x) <==> StillPending(e, tr[n], x, clock(x));
    forall m: nat | WaitsOn(e, tr, ids, clock, m, x) ensures m == n {}
  }

  // ----- Selecting a collision to test -----

  /** The answer names the tried entry y that the pending one collides with. */
  ghost predicate Names(e: Env, s: State, id: Id, y: Id, r: seq<(Service, int)>)
    requires ValidEnv(e) && id in s.info
  {
    && y != id && y in s.info && s.info[y].inTried && TriedCell(e, s.info[y].addr) == TriedCell(e, s.info[id].addr)
    && r == [(s.info[y].addr, s.info[y].lastTry)]
  }

  /** `SelectTriedCollision_` hands out the tried entry that the chosen id collides with, with the time
      of its last try, and changes nothing; an id that is not known any more is dropped instead. */
  lemma SelectExact(e: Env, s: State, k: nat)
    requires Sound(e, s) && (s.collisions != [] ==> k < |s.collisions|)
    ensures var (t, r) := SelectCollision(e, s, k);
            if s.collisions == [] then t == s && r == []
            else
              var id := s.collisions[k];
              if id in s.info then t == s && exists y :: Names(e, s, id, y, r)
              else r == [] && t == s.(collisions := t.collisions) && forall x :: x in t.collisions <==> x in s.collisions && x != id
  {
    if s.collisions != [] {
      var id := s.collisions[k];
      if id in s.info {
        assert Names(e, s, id, Occupant(e, s, id), SelectCollision(e, s, k).1);
      } else {
        WithoutOk(s.collisions, k);
      }
    }
  }
}
