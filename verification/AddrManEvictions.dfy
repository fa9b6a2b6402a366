/** Which entries leave the tried table, and which of those are forgotten: the rules of
    test-before-evict for a single collision, for a whole resolution and for every operation. */
module AddrManEvictions {
  import opened Collections
  import opened AddrManState
  import opened AddrManSpec
  import opened AddrManOps
  import opened AddrManRuns

  /** The entry was tried in s and is not in t. */
  ghost predicate Left(s: State, t: State, x: Id) {
    x in s.info && s.info[x].inTried && !(x in t.info && t.info[x].inTried)
  }

  /** The entry is tried in both, with the same last success. */
  ghost predicate Remains(s: State, t: State, x: Id) {
    && x in s.info && s.info[x].inTried && x in t.info && t.info[x].inTried
    && t.info[x].lastSuccess == s.info[x].lastSuccess && t.info[x].lastTry == s.info[x].lastTry
  }

  lemma PromoteLeaves(e: Env, s: State, id: Id, testBeforeEvict: bool, x: Id)
    requires Consistent(e, s, {}, {}) && id in s.info && Left(s, Promote(e, s, id, testBeforeEvict).0, x)
    ensures !testBeforeEvict && !s.info[id].inTried
    ensures TriedCell(e, s.info[id].addr) in s.triedTable && x == s.triedTable[TriedCell(e, s.info[id].addr)]
    ensures x in Promote(e, s, id, testBeforeEvict).0.info
    ensures Kept(s.info[x].(inTried := false, refCount := 1), Promote(e, s, id, testBeforeEvict).0.info[x])
  {
    if !s.info[id].inTried {
      MakeTriedLeaves(e, s, id, x);
    }
  }

  /** Moving an entry to the tried table displaces the entry of its cell only. */
  lemma GoodLeaves(e: Env, s: State, addr: Service, testBeforeEvict: bool, time: int, x: Id)
    requires Consistent(e, s, {}, {}) && time > 0 && Left(s, Good(e, s, addr, testBeforeEvict, time).0, x)
    ensures !testBeforeEvict && addr in s.byAddr
    ensures TriedCell(e, addr) in s.triedTable && x == s.triedTable[TriedCell(e, addr)]
    ensures x in Good(e, s, addr, testBeforeEvict, time).0.info
    ensures Kept(s.info[x].(inTried := false, refCount := 1), Good(e, s, addr, testBeforeEvict, time).0.info[x])
  {
    if addr in s.byAddr {
      ConnectKeeps(e, s, s.byAddr[addr], time);
      PromoteLeaves(e, Connect(s, s.byAddr[addr], time), s.byAddr[addr], testBeforeEvict, x);
    }
  }

  lemma MakeTriedLeaves(e: Env, s: State, id: Id, x: Id)
    requires Consistent(e, s, {}, {}) && id in s.info && !s.info[id].inTried && x in s.info && s.info[x].inTried
    ensures var t, c := MakeTried(e, s, id), TriedCell(e, s.info[id].addr);
            if c in s.triedTable && s.triedTable[c] == x
            then x in t.info && Kept(s.info[x].(inTried := false, refCount := 1), t.info[x])
            else x in t.info && Kept(s.info[x], t.info[x])
  {
    MakeTriedEffect(e, s, id);
    MakeTriedStay(e, s, id);
    var c := TriedCell(e, s.info[id].addr);
    assert -1 !in s.info;
  }

  /** The eviction rule: an entry leaves the tried table only when its last success is at least four
      hours ago and either it was tried within the last four hours, more than a minute ago, or the
      colliding entry has waited for more than forty minutes. It stays known, as a new entry with one
      reference. */
  lemma EvictionRule(e: Env, s: State, id: Id, now: int, x: Id)
    requires Sound(e, s) && now > 0 && Left(s, ResolveOne(e, s, id, now).0, x)
    ensures now - s.info[x].lastSuccess >= REPLACEMENT
    ensures id in s.info && TriedCell(e, s.info[id].addr) == TriedCell(e, s.info[x].addr)
    ensures || MINUTE < now - s.info[x].lastTry < REPLACEMENT
            || (now - s.info[x].lastTry >= REPLACEMENT && now - s.info[id].lastSuccess > TEST_WINDOW)
    ensures var t := ResolveOne(e, s, id, now).0;
            x in t.info && Kept(s.info[x].(inTried := false, refCount := 1), t.info[x])
  {
    if id in s.info {
      GoodLeavesFor(e, s, id, now, x);
    }
  }

  lemma GoodLeavesFor(e: Env, s: State, id: Id, now: int, x: Id)
    requires Consistent(e, s, {}, {}) && now > 0 && id in s.info
    ensures var t := Good(e, s, s.info[id].addr, false, now).0;
            Left(s, t, x) ==>
              && TriedCell(e, s.info[id].addr) in s.triedTable && x == s.triedTable[TriedCell(e, s.info[id].addr)]
              && x in t.info && Kept(s.info[x].(inTried := false, refCount := 1), t.info[x])
  {
    if Left(s, Good(e, s, s.info[id].addr, false, now).0, x) {
      GoodLeaves(e, s, s.info[id].addr, false, now, x);
    }
  }

  // ----- One pending collision, exactly -----

  /** The rule of `ResolveCollisions_` for a pending id against a tried entry: the entry's last success
      is at least four hours ago, and either it was tried within the last four hours, more than a
      minute ago, or it was not and the pending entry has waited for more than forty minutes. */
  ghost predicate Replaces(e: Env, s: State, id: Id, now: int, x: Id)
    requires ValidEnv(e) && x in s.info
  {
    && id in s.info && e.valid(s.info[id].addr.host) && TriedCell(e, s.info[id].addr) == TriedCell(e, s.info[x].addr)
    && now - s.info[x].lastSuccess >= REPLACEMENT
    && (|| MINUTE < now - s.info[x].lastTry < REPLACEMENT
        || (now - s.info[x].lastTry >= REPLACEMENT && now - s.info[id].lastSuccess > TEST_WINDOW))
  }

  /** A pending entry that replaces another one is moved by `MakeTried`. */
  lemma ForcedGood(e: Env, s: State, id: Id, now: int) returns (t: State)
    requires Consistent(e, s, {}, {}) && now > 0 && id in s.info && !s.info[id].inTried
    ensures t == Connect(s, id, now) && Consistent(e, t, {}, {}) && id in t.info && !t.info[id].inTried
    ensures Good(e, s, s.info[id].addr, false, now).0 == MakeTried(e, t, id)
  {
    t := Connect(s, id, now);
    ConnectKeeps(e, s, id, now);
    assert t.info[id].refCount > 0;
  }

  /** The tried entry that a pending one collides with. */
  ghost function Occupant(e: Env, s: State, id: Id): (x: Id)
    requires Sound(e, s) && id in s.collisions && id in s.info
    ensures !s.info[id].inTried && x != id && x in s.info && s.info[x].inTried
    ensures TriedCell(e, s.info[x].addr) == TriedCell(e, s.info[id].addr)
    ensures TriedCell(e, s.info[id].addr) in s.triedTable && x == s.triedTable[TriedCell(e, s.info[id].addr)]
  {
    assert PendingOk(e, s, id);
    s.triedTable[TriedCell(e, s.info[id].addr)]
  }

  lemma OnlyOccupant(e: Env, s: State, id: Id, x: Id)
    requires Sound(e, s) && id in s.collisions && id in s.info && x in s.info && s.info[x].inTried
    ensures TriedCell(e, s.info[x].addr) == TriedCell(e, s.info[id].addr) <==> x == Occupant(e, s, id)
  {}

  /** An iteration leaves the state as it is, or treats the pending entry as a success. */
  lemma ResolveOneMoves(e: Env, s: State, id: Id, now: int, x: Id)
    requires Consistent(e, s, {}, {}) && now > 0 && id in s.info && x in s.info
    requires TriedCell(e, s.info[x].addr) == TriedCell(e, s.info[id].addr)
    requires TriedCell(e, s.info[id].addr) in s.triedTable && x == s.triedTable[TriedCell(e, s.info[id].addr)]
    ensures ResolveOne(e, s, id, now).0 == if Replaces(e, s, id, now, x) then Good(e, s, s.info[id].addr, false, now).0 else s
  {}

  lemma ForcedLeaves(e: Env, s: State, id: Id, now: int, x: Id)
    requires Sound(e, s) && id in s.collisions && now > 0 && id in s.info && x in s.info && s.info[x].inTried
    ensures var t := Good(e, s, s.info[id].addr, false, now).0;
            if x == Occupant(e, s, id) then Left(s, t, x) else Remains(s, t, x)
  {
    var p := Occupant(e, s, id);
    var t := ForcedGood(e, s, id, now);
    MakeTriedLeaves(e, t, id, x);
  }

  /** In one iteration an entry leaves the tried table exactly if the pending entry replaces it. */
  lemma ResolveOneExact(e: Env, s: State, id: Id, now: int, x: Id)
    requires Sound(e, s) && id in s.collisions && now > 0 && x in s.info && s.info[x].inTried
    ensures Left(s, ResolveOne(e, s, id, now).0, x) <==> Replaces(e, s, id, now, x)
    ensures Left(s, ResolveOne(e, s, id, now).0, x) || Remains(s, ResolveOne(e, s, id, now).0, x)
  {
    if id in s.info {
      ResolveOneMoves(e, s, id, now, Occupant(e, s, id));
      OnlyOccupant(e, s, id, x);
      ForcedLeaves(e, s, id, now, x);
    }
  }

  /** Address and source choose the cell that eviction puts an entry in. */
  predicate SameHome(i: Info, j: Info) {
    j.addr == i.addr && j.source == i.source
  }

  /** No entry but the pending one changes in anything but its cells, and none enters the tried table. */
  lemma ForcedFrame(e: Env, s: State, id: Id, now: int, y: Id)
    requires Sound(e, s) && id in s.collisions && now > 0 && id in s.info && y in Good(e, s, s.info[id].addr, false, now).0.info
    ensures y in s.info && SameHome(s.info[y], Good(e, s, s.info[id].addr, false, now).0.info[y])
    ensures y != id ==> Moved(s.info[y], Good(e, s, s.info[id].addr, false, now).0.info[y])
  {
    var p := Occupant(e, s, id);
    var t := ForcedGood(e, s, id, now);
    MakeTriedStay(e, t, id);
  }

  lemma ResolveOneFrame(e: Env, s: State, id: Id, now: int, y: Id)
    requires Sound(e, s) && id in s.collisions && now > 0 && y in ResolveOne(e, s, id, now).0.info
    ensures y in s.info && SameHome(s.info[y], ResolveOne(e, s, id, now).0.info[y])
    ensures y != id ==> Moved(s.info[y], ResolveOne(e, s, id, now).0.info[y])
  {
    ResolveOneCases(e, s, id, now);
    if ResolveOne(e, s, id, now).0 != s {
      ForcedFrame(e, s, id, now, y);
    }
  }

  lemma ResolveOneTried(e: Env, s: State, id: Id, now: int, y: Id)
    requires Sound(e, s) && id in s.collisions && now > 0 && y in ResolveOne(e, s, id, now).0.info && y != id
    requires ResolveOne(e, s, id, now).0.info[y].inTried
    ensures y in s.info && s.info[y].inTried
  {
    var t := ResolveOneEvolves(e, s, id, now);
    if t != s {
      EntersAlone(e, s, t, id, y);
    }
  }

  lemma EntersAlone(e: Env, s: State, t: State, id: Id, y: Id)
    requires Consistent(e, s, {}, {}) && Consistent(e, t, {}, {}) && id in s.info && MayEnter(e, s, t, s.info[id].addr, false)
    requires y in t.info && t.info[y].inTried && y != id
    ensures y in s.info && s.info[y].inTried
  {
    assert s.byAddr[s.info[id].addr] == id;
    TriedTwice(e, s, t, y);
  }

  // ----- One turn -----

  /** No entry is new, and none moves its home; those other than `id` have changed in their cells only, and none of them is
      newly tried. */
  ghost predicate Framed(s: State, t: State, id: Id) {
    forall y :: y in t.info ==>
      && y in s.info && SameHome(s.info[y], t.info[y])
      && (y != id ==> Moved(s.info[y], t.info[y]) && (t.info[y].inTried ==> s.info[y].inTried))
  }

  /** The tried entries that the pending one replaces leave, for their home cells; the others stay. */
  ghost predicate Sorts(e: Env, s: State, t: State, id: Id, now: int)
    requires ValidEnv(e)
  {
    forall x :: x in s.info && s.info[x].inTried ==>
      if Replaces(e, s, id, now, x) then Left(s, t, x) && AtHome(e, t, x) else Remains(s, t, x)
  }

  /** Some entry that leaves has its home in c. */
  ghost predicate Evicts(e: Env, s: State, t: State, c: Cell)
    requires ValidEnv(e)
  {
    exists y :: Left(s, t, y) && HomeCell(e, s.info[y]) == c
  }

  /** An entry that is at home is forgotten exactly if one with the same home leaves. */
  ghost predicate Homes(e: Env, s: State, t: State, id: Id)
    requires ValidEnv(e)
  {
    forall x :: x != id && AtHome(e, s, x) ==>
      if Evicts(e, s, t, HomeCell(e, s.info[x])) then x !in t.info else AtHome(e, t, x)
  }

  /** What the turn of one pending id does. */
  ghost predicate TurnOk(e: Env, s: State, t: State, id: Id, now: int)
    requires ValidEnv(e)
  {
    Framed(s, t, id) && Sorts(e, s, t, id, now) && Homes(e, s, t, id)
  }

  lemma ForcedHome(e: Env, s: State, id: Id, now: int)
    requires Sound(e, s) && id in s.collisions && now > 0 && id in s.info
    ensures AtHome(e, Good(e, s, s.info[id].addr, false, now).0, Occupant(e, s, id))
  {
    var p := Occupant(e, s, id);
    var t := ForcedGood(e, s, id, now);
    EvictedHome(e, t, id);
  }

  lemma ForcedHomes(e: Env, s: State, id: Id, now: int, x: Id)
    requires Sound(e, s) && id in s.collisions && now > 0 && id in s.info && AtHome(e, s, x) && x != id
    ensures var t := Good(e, s, s.info[id].addr, false, now).0;
            if HomeCell(e, s.info[Occupant(e, s, id)]) == HomeCell(e, s.info[x]) then x !in t.info else AtHome(e, t, x)
  {
    var p := Occupant(e, s, id);
    var t := ForcedGood(e, s, id, now);
    MakeTriedHomes(e, t, id, x);
  }

  lemma ResolveOneSorts(e: Env, s: State, id: Id, now: int)
    requires Sound(e, s) && id in s.collisions && now > 0
    ensures Sorts(e, s, ResolveOne(e, s, id, now).0, id, now)
  {
    forall x | x in s.info && s.info[x].inTried
      ensures if Replaces(e, s, id, now, x) then Left(s, ResolveOne(e, s, id, now).0, x) && AtHome(e, ResolveOne(e, s, id, now).0, x)
              else Remains(s, ResolveOne(e, s, id, now).0, x)
    {
      ResolveOneExact(e, s, id, now, x);
      if Replaces(e, s, id, now, x) {
        OnlyOccupant(e, s, id, x);
        ResolveOneMoves(e, s, id, now, x);
        ForcedHome(e, s, id, now);
      }
    }
  }

  lemma ResolveOneHome(e: Env, s: State, id: Id, now: int, x: Id)
    requires Sound(e, s) && id in s.collisions && now > 0 && AtHome(e, s, x) && x != id
    ensures var t := ResolveOne(e, s, id, now).0;
            if Evicts(e, s, t, HomeCell(e, s.info[x])) then x !in t.info else AtHome(e, t, x)
  {
    var t := ResolveOne(e, s, id, now).0;
    ResolveOneCases(e, s, id, now);
    if t != s {
      var p := Occupant(e, s, id);
      ForcedHomes(e, s, id, now, x);
      forall y | Left(s, t, y) ensures y == p {
        ForcedLeaves(e, s, id, now, y);
      }
      ForcedLeaves(e, s, id, now, p);
    }
  }

  lemma ResolveOneTurn(e: Env, s: State, id: Id, now: int)
    requires Sound(e, s) && id in s.collisions && now > 0
    ensures TurnOk(e, s, ResolveOne(e, s, id, now).0, id, now)
  {
    ResolveOneSorts(e, s, id, now);
    forall x | x != id && AtHome(e, s, x)
      ensures if Evicts(e, s, ResolveOne(e, s, id, now).0, HomeCell(e, s.info[x])) then x !in ResolveOne(e, s, id, now).0.info
              else AtHome(e, ResolveOne(e, s, id, now).0, x)
    {
      ResolveOneHome(e, s, id, now, x);
    }
    forall y | y in ResolveOne(e, s, id, now).0.info
      ensures y in s.info
      ensures SameHome(s.info[y], ResolveOne(e, s, id, now).0.info[y])
      ensures y != id ==> Moved(s.info[y], ResolveOne(e, s, id, now).0.info[y]) && (ResolveOne(e, s, id, now).0.info[y].inTried ==> s.info[y].inTried)
    {
      ResolveOneFrame(e, s, id, now, y);
      if y != id && ResolveOne(e, s, id, now).0.info[y].inTried { ResolveOneTried(e, s, id, now, y); }
    }
  }

  /** The pending ids play no role in what a turn does. */
  lemma TurnBeside(e: Env, s: State, t: State, u: State, id: Id, now: int)
    requires ValidEnv(e) && TurnOk(e, s, t, id, now) && u == t.(collisions := u.collisions)
    ensures TurnOk(e, s, u, id, now)
  {
    forall x | x != id && AtHome(e, s, x) ensures Evicts(e, s, u, HomeCell(e, s.info[x])) <==> Evicts(e, s, t, HomeCell(e, s.info[x])) {
      if y :| Left(s, u, y) && HomeCell(e, s.info[y]) == HomeCell(e, s.info[x]) { assert Left(s, t, y); }
      if y :| Left(s, t, y) && HomeCell(e, s.info[y]) == HomeCell(e, s.info[x]) { assert Left(s, u, y); }
    }
  }

  // ----- A whole resolution, turn by turn -----

  /** The states before each turn and after the last one. */
  ghost function Turns(e: Env, s: State, k: nat, clock: Id -> int): (tr: seq<State>)
    requires Sound(e, s) && k <= |s.collisions| && forall id :: clock(id) > 0
    ensures |tr| > 0 && tr[0] == s && tr[|tr| - 1] == ResolveFrom(e, s, k, clock)
    decreases |s.collisions| - k
  {
    if k == |s.collisions| then [s]
    else
      var id := s.collisions[k];
      ResolveNextSound(e, s, k, clock(id));
      var (t, k') := ResolveNext(e, s, k, clock(id));
      [s] + Turns(e, t, k', clock)
  }

  lemma FirstTurn(e: Env, s: State, k: nat, clock: Id -> int)
    requires Sound(e, s) && k < |s.collisions| && forall id :: clock(id) > 0
    ensures |Turns(e, s, k, clock)| > 1
    ensures Turns(e, s, k, clock)[1].info == ResolveOne(e, s, s.collisions[k], clock(s.collisions[k])).0.info
  {
    var id := s.collisions[k];
    ResolveNextSound(e, s, k, clock(id));
    ResolveOneCases(e, s, id, clock(id));
  }

  /** Each state comes from the one before by the turn of the next id. */
  ghost predicate Resolves(e: Env, tr: seq<State>, ids: seq<Id>, clock: Id -> int)
    requires ValidEnv(e)
  {
    |tr| == |ids| + 1 && forall i :: 0 <= i < |ids| ==> NthTurn(e, tr, ids, clock, i)
  }

  ghost predicate NthTurn(e: Env, tr: seq<State>, ids: seq<Id>, clock: Id -> int, i: nat)
    requires ValidEnv(e) && i < |ids| && |tr| == |ids| + 1
  {
    TurnOk(e, tr[i], tr[i + 1], ids[i], clock(ids[i]))
  }

  lemma OneMoreTurn(e: Env, s: State, id: Id, tr: seq<State>, ids: seq<Id>, clock: Id -> int)
    requires ValidEnv(e) && Resolves(e, tr, ids, clock) && TurnOk(e, s, tr[0], id, clock(id))
    ensures Resolves(e, [s] + tr, [id] + ids, clock)
  {
    forall i | 0 <= i < |ids| + 1 ensures NthTurn(e, [s] + tr, [id] + ids, clock, i) {
      if i > 0 { assert NthTurn(e, tr, ids, clock, i - 1); }
    }
  }

  lemma ResolveNextTurn(e: Env, s: State, k: nat, now: int)
    requires Sound(e, s) && k < |s.collisions| && now > 0
    ensures TurnOk(e, s, ResolveNext(e, s, k, now).0, s.collisions[k], now)
  {
    var id := s.collisions[k];
    ResolveOneTurn(e, s, id, now);
    ResolveOneCases(e, s, id, now);
    TurnBeside(e, s, ResolveOne(e, s, id, now).0, ResolveNext(e, s, k, now).0, id, now);
  }

  lemma FirstAndRest(ids: seq<Id>, k: nat)
    requires k < |ids|
    ensures ids[k..] == [ids[k]] + ids[k + 1..]
  {}

  /** `ResolveCollisions_` is a sequence of turns. */
  lemma {:induction false} TurnsResolve(e: Env, s: State, k: nat, clock: Id -> int)
    requires Sound(e, s) && k <= |s.collisions| && forall id :: clock(id) > 0
    ensures Resolves(e, Turns(e, s, k, clock), s.collisions[k..], clock)
    decreases |s.collisions| - k
  {
    if k < |s.collisions| {
      var id := s.collisions[k];
      ResolveNextSound(e, s, k, clock(id));
      var (t, k') := ResolveNext(e, s, k, clock(id));
      TurnsResolve(e, t, k', clock);
      ResolveNextTurn(e, s, k, clock(id));
      OneMoreTurn(e, s, id, Turns(e, t, k', clock), t.collisions[k'..], clock);
      FirstAndRest(s.collisions, k);
    }
  }

  // ----- Which entries leave, and which of them are forgotten -----

  /** An entry whose turn has not come has changed in its cells only, and is not newly tried. */
  lemma {:induction false} FramedTurns(e: Env, tr: seq<State>, ids: seq<Id>, clock: Id -> int, n: nat, y: Id)
    requires ValidEnv(e) && Resolves(e, tr, ids, clock) && n <= |ids| && y in tr[n].info
    ensures y in tr[0].info && SameHome(tr[0].info[y], tr[n].info[y])
    ensures y !in ids[..n] ==> Moved(tr[0].info[y], tr[n].info[y]) && (tr[n].info[y].inTried ==> tr[0].info[y].inTried)
    decreases n
  {
    if n > 0 {
      var m := n - 1;
      assert NthTurn(e, tr, ids, clock, m);
      FramedTurns(e, tr, ids, clock, m, y);
      assert ids[..n] == ids[..m] + [ids[m]];
    }
  }

  /** The n-th pending id is still known when its turn comes, and meets the rule with the times of the
      start. */
  ghost predicate Due(e: Env, tr: seq<State>, ids: seq<Id>, clock: Id -> int, n: nat, x: Id)
    requires ValidEnv(e)
  {
    n < |ids| && n < |tr| && ids[n] in tr[n].info && x in tr[0].info && Replaces(e, tr[0], ids[n], clock(ids[n]), x)
  }

  ghost predicate SomeDue(e: Env, tr: seq<State>, ids: seq<Id>, clock: Id -> int, x: Id)
    requires ValidEnv(e)
  {
    exists n: nat :: Due(e, tr, ids, clock, n, x)
  }

  lemma ReplacesSame(e: Env, s: State, t: State, id: Id, now: int, x: Id)
    requires ValidEnv(e) && x in s.info && x in t.info && Moved(s.info[x], t.info[x])
    requires id in t.info ==> id in s.info && Moved(s.info[id], t.info[id])
    ensures Replaces(e, t, id, now, x) <==> id in t.info && Replaces(e, s, id, now, x)
  {}

  lemma {:induction false} LeftExact(e: Env, tr: seq<State>, ids: seq<Id>, clock: Id -> int, n: nat, x: Id)
    requires ValidEnv(e) && Resolves(e, tr, ids, clock) && Distinct(ids) && n <= |ids|
    requires x in tr[0].info && tr[0].info[x].inTried && x !in ids
    ensures Left(tr[0], tr[n], x) <==> exists m: nat :: m < n && Due(e, tr, ids, clock, m, x)
    ensures Left(tr[0], tr[n], x) || Remains(tr[0], tr[n], x)
    decreases n
  {
    if n > 0 {
      var m := n - 1;
      LeftExact(e, tr, ids, clock, m, x);
      assert NthTurn(e, tr, ids, clock, m);
      if Remains(tr[0], tr[m], x) {
        TurnDue(e, tr, ids, clock, m, x);
      } else {
        var j: nat :| j < m && Due(e, tr, ids, clock, j, x);
        assert j < n && Due(e, tr, ids, clock, j, x);
      }
    }
  }

  lemma TurnDue(e: Env, tr: seq<State>, ids: seq<Id>, clock: Id -> int, m: nat, x: Id)
    requires ValidEnv(e) && Resolves(e, tr, ids, clock) && Distinct(ids) && m < |ids|
    requires x !in ids && Remains(tr[0], tr[m], x)
    ensures Replaces(e, tr[m], ids[m], clock(ids[m]), x) <==> Due(e, tr, ids, clock, m, x)
  {
    FramedTurns(e, tr, ids, clock, m, x);
    if ids[m] in tr[m].info {
      FramedTurns(e, tr, ids, clock, m, ids[m]);
    }
    ReplacesSame(e, tr[0], tr[m], ids[m], clock(ids[m]), x);
  }

  lemma PendingNew(e: Env, s: State, id: Id)
    requires ValidEnv(e) && CollisionsOk(e, s) && id in s.collisions && id in s.info
    ensures !s.info[id].inTried
  {
    assert PendingOk(e, s, id);
  }

  lemma PendingDifferent(e: Env, s: State, k: nat)
    requires Sound(e, s) && k <= |s.collisions|
    ensures Distinct(s.collisions[k..])
  {}

  /** The turns of different new entries lead from s to t. */
  ghost predicate Leads(e: Env, tr: seq<State>, ids: seq<Id>, clock: Id -> int, s: State, t: State)
    requires ValidEnv(e)
  {
    Resolves(e, tr, ids, clock) && Distinct(ids) && NoneTried(s, ids) && tr[0] == s && tr[|tr| - 1] == t
  }

  lemma TurnsLead(e: Env, s: State, k: nat, clock: Id -> int)
    requires Sound(e, s) && k <= |s.collisions| && forall id :: clock(id) > 0
    ensures Leads(e, Turns(e, s, k, clock), s.collisions[k..], clock, s, ResolveFrom(e, s, k, clock))
  {
    TurnsResolve(e, s, k, clock);
    PendingNotTried(e, s, k);
    PendingDifferent(e, s, k);
  }

  lemma LeftAtEnd(e: Env, tr: seq<State>, ids: seq<Id>, clock: Id -> int, s: State, t: State, x: Id)
    requires ValidEnv(e) && Leads(e, tr, ids, clock, s, t) && x in s.info && s.info[x].inTried
    ensures Left(s, t, x) <==> SomeDue(e, tr, ids, clock, x)
    ensures Left(s, t, x) || Remains(s, t, x)
  {
    LeftExact(e, tr, ids, clock, |ids|, x);
  }

  /** The eviction rule for a whole resolution, or the rest of one: a tried entry leaves the tried
      table exactly if some pending id, still known when its turn comes, meets the rule with the times
      of the start. */
  lemma ResolveExact(e: Env, s: State, k: nat, clock: Id -> int, x: Id)
    requires Sound(e, s) && k <= |s.collisions| && (forall id :: clock(id) > 0) && x in s.info && s.info[x].inTried
    ensures Left(s, ResolveFrom(e, s, k, clock), x) <==> SomeDue(e, Turns(e, s, k, clock), s.collisions[k..], clock, x)
    ensures Left(s, ResolveFrom(e, s, k, clock), x) || Remains(s, ResolveFrom(e, s, k, clock), x)
  {
    TurnsLead(e, s, k, clock);
    LeftAtEnd(e, Turns(e, s, k, clock), s.collisions[k..], clock, s, ResolveFrom(e, s, k, clock), x);
  }

  /** An entry that has succeeded within the four hours before each reading for a pending id stays. */
  lemma ResolveProtects(e: Env, s: State, k: nat, clock: Id -> int, x: Id)
    requires Sound(e, s) && k <= |s.collisions| && (forall id :: clock(id) > 0) && x in s.info && s.info[x].inTried
    requires forall id :: id in s.collisions[k..] ==> clock(id) - s.info[x].lastSuccess < REPLACEMENT
    ensures Remains(s, ResolveFrom(e, s, k, clock), x)
  {
    var tr, ids := Turns(e, s, k, clock), s.collisions[k..];
    ResolveExact(e, s, k, clock, x);
    forall n: nat | n < |ids| ensures !Due(e, tr, ids, clock, n, x) {
      assert ids[n] in ids;
    }
  }

  /** The n-th turn takes an entry out of the tried table whose home is in c. */
  ghost predicate EvictsTo(e: Env, tr: seq<State>, n: nat, c: Cell)
    requires ValidEnv(e)
  {
    n + 1 < |tr| && Evicts(e, tr[n], tr[n + 1], c)
  }

  /** An entry that is at home stays known exactly as long as none with the same home leaves. */
  lemma {:induction false} HomeExact(e: Env, tr: seq<State>, ids: seq<Id>, clock: Id -> int, n: nat, m: nat, x: Id, c: Cell)
    requires ValidEnv(e) && Resolves(e, tr, ids, clock) && n <= m <= |ids| && AtHome(e, tr[n], x)
    requires c == HomeCell(e, tr[n].info[x]) && forall j :: n <= j < |ids| ==> ids[j] != x
    ensures x in tr[m].info <==> forall j: nat :: n <= j < m ==> !EvictsTo(e, tr, j, c)
    ensures x in tr[m].info ==> AtHome(e, tr[m], x) && HomeCell(e, tr[m].info[x]) == c
    decreases m
  {
    if n < m {
      var j: nat := m - 1;
      HomeExact(e, tr, ids, clock, n, j, x, c);
      HomeTurn(e, tr, ids, clock, j, x, c);
    }
  }

  lemma HomeTurn(e: Env, tr: seq<State>, ids: seq<Id>, clock: Id -> int, j: nat, x: Id, c: Cell)
    requires ValidEnv(e) && Resolves(e, tr, ids, clock) && j < |ids| && ids[j] != x
    requires x in tr[j].info ==> AtHome(e, tr[j], x) && HomeCell(e, tr[j].info[x]) == c
    ensures x in tr[j + 1].info <==> x in tr[j].info && !EvictsTo(e, tr, j, c)
    ensures x in tr[j + 1].info ==> AtHome(e, tr[j + 1], x) && HomeCell(e, tr[j + 1].info[x]) == c
  {
    assert NthTurn(e, tr, ids, clock, j);
  }

  /** The n-th turn takes an entry out of the tried table. */
  ghost predicate Evicted(tr: seq<State>, n: nat, x: Id) {
    n + 1 < |tr| && Left(tr[n], tr[n + 1], x)
  }

  /** None of the ids is tried. */
  ghost predicate NoneTried(s: State, ids: seq<Id>) {
    forall id :: id in ids && id in s.info ==> !s.info[id].inTried
  }

  lemma PendingNotTried(e: Env, s: State, k: nat)
    requires Sound(e, s) && k <= |s.collisions|
    ensures NoneTried(s, s.collisions[k..])
  {
    forall id | id in s.collisions[k..] && id in s.info ensures !s.info[id].inTried {
      PendingNew(e, s, id);
    }
  }

  /** An id that is tried before a turn has had its own turn, if it was pending at all. */
  lemma NoTurnLeft(e: Env, tr: seq<State>, ids: seq<Id>, clock: Id -> int, n: nat, x: Id)
    requires ValidEnv(e) && Resolves(e, tr, ids, clock) && Distinct(ids) && NoneTried(tr[0], ids)
    requires n < |ids| && x in tr[n].info && tr[n].info[x].inTried
    ensures forall j :: n <= j < |ids| ==> ids[j] != x
  {
    FramedTurns(e, tr, ids, clock, n, x);
    forall j | n <= j < |ids| ensures ids[j] != x {
      assert ids[j] in ids && ids[j] !in ids[..n];
    }
  }

  lemma EvictedToHome(e: Env, tr: seq<State>, ids: seq<Id>, clock: Id -> int, n: nat, x: Id)
    requires ValidEnv(e) && Resolves(e, tr, ids, clock) && Evicted(tr, n, x)
    ensures AtHome(e, tr[n + 1], x) && x in tr[0].info && HomeCell(e, tr[n + 1].info[x]) == HomeCell(e, tr[0].info[x])
  {
    assert NthTurn(e, tr, ids, clock, n);
    FramedTurns(e, tr, ids, clock, n + 1, x);
  }

  /** After the n-th turn no entry leaves whose home is in c. */
  ghost predicate Undisturbed(e: Env, tr: seq<State>, n: nat, c: Cell)
    requires ValidEnv(e)
  {
    forall j: nat :: n < j ==> !EvictsTo(e, tr, j, c)
  }

  /** The entry that the n-th turn evicts is known in t exactly if it is undisturbed in its home. */
  ghost predicate KnownIff(e: Env, tr: seq<State>, s: State, t: State, n: nat, x: Id)
    requires ValidEnv(e)
  {
    x in s.info && (x in t.info <==> Undisturbed(e, tr, n, HomeCell(e, s.info[x])))
  }

  lemma KnownAtEnd(e: Env, tr: seq<State>, ids: seq<Id>, clock: Id -> int, s: State, t: State, n: nat, x: Id)
    requires ValidEnv(e) && Leads(e, tr, ids, clock, s, t) && Evicted(tr, n, x)
    ensures KnownIff(e, tr, s, t, n, x)
  {
    EvictedToHome(e, tr, ids, clock, n, x);
    NoTurnLeft(e, tr, ids, clock, n, x);
    HomeExact(e, tr, ids, clock, n + 1, |ids|, x, HomeCell(e, tr[0].info[x]));
  }

  /** An evicted entry is still known at the end exactly if no later turn evicts an entry with the same
      home cell. */
  lemma EvictedStaysKnown(e: Env, s: State, k: nat, clock: Id -> int, n: nat, x: Id)
    requires Sound(e, s) && k <= |s.collisions| && (forall id :: clock(id) > 0) && Evicted(Turns(e, s, k, clock), n, x)
    ensures KnownIff(e, Turns(e, s, k, clock), s, ResolveFrom(e, s, k, clock), n, x)
  {
    TurnsLead(e, s, k, clock);
    KnownAtEnd(e, Turns(e, s, k, clock), s.collisions[k..], clock, s, ResolveFrom(e, s, k, clock), n, x);
  }

  // ----- A condition on the start that keeps every evicted entry -----

  /** The pending entry is another one with the same tried cell. */
  ghost predicate Contends(e: Env, s: State, id: Id, x: Id)
    requires ValidEnv(e) && x in s.info
  {
    id != x && id in s.info && TriedCell(e, s.info[id].addr) == TriedCell(e, s.info[x].addr)
  }

  /** An entry that is tried or pending, and has the tried cell of another pending one. */
  ghost predicate Contested(e: Env, s: State, ids: seq<Id>, x: Id)
    requires ValidEnv(e)
  {
    x in s.info && (s.info[x].inTried || x in ids) && exists id :: id in ids && Contends(e, s, id, x)
  }

  /** The contested entries have different home cells. */
  ghost predicate ContestedApart(e: Env, s: State, ids: seq<Id>)
    requires ValidEnv(e)
  {
    forall x, y :: Contested(e, s, ids, x) && Contested(e, s, ids, y) && x != y ==>
      HomeCell(e, s.info[x]) != HomeCell(e, s.info[y])
  }

  /** Only a contested entry is ever evicted. */
  lemma EvictedIsContested(e: Env, tr: seq<State>, ids: seq<Id>, clock: Id -> int, n: nat, x: Id)
    requires ValidEnv(e) && Resolves(e, tr, ids, clock) && Distinct(ids) && NoneTried(tr[0], ids) && Evicted(tr, n, x)
    ensures Contested(e, tr[0], ids, x)
  {
    assert NthTurn(e, tr, ids, clock, n);
    assert Replaces(e, tr[n], ids[n], clock(ids[n]), x);
    FramedTurns(e, tr, ids, clock, n, x);
    FramedTurns(e, tr, ids, clock, n, ids[n]);
    NoTurnLeft(e, tr, ids, clock, n, x);
    assert ids[n] in ids && Contends(e, tr[0], ids[n], x);
  }

  ghost predicate IsTried(s: State, x: Id) {
    x in s.info && s.info[x].inTried
  }

  /** An evicted entry does not come back to the tried table in the same resolution. */
  lemma {:induction false} StaysOut(e: Env, tr: seq<State>, ids: seq<Id>, clock: Id -> int, n: nat, j: nat, x: Id)
    requires ValidEnv(e) && Resolves(e, tr, ids, clock) && Evicted(tr, n, x) && n < j <= |ids|
    requires forall i :: n <= i < |ids| ==> ids[i] != x
    ensures !IsTried(tr[j], x)
    decreases j
  {
    if n + 1 < j {
      StaysOut(e, tr, ids, clock, n, j - 1, x);
      assert NthTurn(e, tr, ids, clock, j - 1);
    }
  }

  lemma ApartUndisturbed(e: Env, tr: seq<State>, ids: seq<Id>, clock: Id -> int, n: nat, x: Id)
    requires ValidEnv(e) && Resolves(e, tr, ids, clock) && Distinct(ids) && NoneTried(tr[0], ids)
    requires ContestedApart(e, tr[0], ids) && Evicted(tr, n, x) && x in tr[0].info
    ensures Undisturbed(e, tr, n, HomeCell(e, tr[0].info[x]))
  {
    EvictedIsContested(e, tr, ids, clock, n, x);
    NoTurnLeft(e, tr, ids, clock, n, x);
    forall j: nat | n < j ensures !EvictsTo(e, tr, j, HomeCell(e, tr[0].info[x])) {
      if y :| j + 1 < |tr| && Left(tr[j], tr[j + 1], y) && HomeCell(e, tr[j].info[y]) == HomeCell(e, tr[0].info[x]) {
        EvictedIsContested(e, tr, ids, clock, j, y);
        FramedTurns(e, tr, ids, clock, j, y);
        StaysOut(e, tr, ids, clock, n, j, x);
      }
    }
  }

  lemma ApartStaysKnown(e: Env, tr: seq<State>, ids: seq<Id>, clock: Id -> int, s: State, t: State, n: nat, x: Id)
    requires ValidEnv(e) && Leads(e, tr, ids, clock, s, t) && ContestedApart(e, s, ids) && Evicted(tr, n, x)
    ensures x in t.info
  {
    KnownAtEnd(e, tr, ids, clock, s, t, n, x);
    ApartUndisturbed(e, tr, ids, clock, n, x);
  }

  /** If the contested entries of the start have different home cells, a resolution forgets no entry
      that it evicts. */
  lemma EvictedAllKnown(e: Env, s: State, k: nat, clock: Id -> int, n: nat, x: Id)
    requires Sound(e, s) && k <= |s.collisions| && (forall id :: clock(id) > 0) && ContestedApart(e, s, s.collisions[k..])
    requires Evicted(Turns(e, s, k, clock), n, x)
    ensures x in ResolveFrom(e, s, k, clock).info
  {
    TurnsLead(e, s, k, clock);
    ApartStaysKnown(e, Turns(e, s, k, clock), s.collisions[k..], clock, s, ResolveFrom(e, s, k, clock), n, x);
  }

  lemma {:induction false} SomeTurnEvicts(tr: seq<State>, m: nat, x: Id) returns (n: nat)
    requires m < |tr| && IsTried(tr[0], x) && !IsTried(tr[m], x)
    ensures Evicted(tr, n, x)
    decreases m
  {
    if IsTried(tr[m - 1], x) {
      n := m - 1;
    } else {
      n := SomeTurnEvicts(tr, m - 1, x);
    }
  }

  /** Under the same condition every entry that is tried at the start is still known at the end. */
  lemma TriedAllKnown(e: Env, s: State, k: nat, clock: Id -> int, x: Id)
    requires Sound(e, s) && k <= |s.collisions| && (forall id :: clock(id) > 0) && ContestedApart(e, s, s.collisions[k..])
    requires x in s.info && s.info[x].inTried
    ensures x in ResolveFrom(e, s, k, clock).info
  {
    var tr := Turns(e, s, k, clock);
    if !IsTried(tr[|tr| - 1], x) {
      var n := SomeTurnEvicts(tr, |tr| - 1, x);
      EvictedAllKnown(e, s, k, clock, n, x);
    }
  }

  // ----- Every operation -----

  lemma GoodLeavesNone(e: Env, s: State, addr: Service, time: int, x: Id)
    requires Consistent(e, s, {}, {}) && time > 0
    ensures !Left(s, Good(e, s, addr, true, time).0, x)
  {
    if Left(s, Good(e, s, addr, true, time).0, x) {
      GoodLeaves(e, s, addr, true, time, x);
    }
  }

  lemma InsertLeavesNone(e: Env, s: State, id: Id, source: Host, now: int, limbo: set<Id>, x: Id)
    requires Consistent(e, s, limbo, {}) && id in s.info && !s.info[id].inTried
    ensures !Left(s, Insert(e, s, id, source, now).0, x)
  {
    InsertStay(e, s, id, source, now, limbo);
    assert -1 !in s.info;
  }

  lemma AddKnownLeavesNone(e: Env, s: State, a: Address, source: Host, penalty: int, now: int, later: int, lucky: bool, x: Id)
    requires Consistent(e, s, {}, {}) && a.service in s.byAddr
    ensures !Left(s, AddKnown(e, s, a, source, penalty, now, later, lucky).0, x)
  {
    var id := s.byAddr[a.service];
    var i := Refreshed(s.info[id], a, penalty, now);
    TouchKeeps(e, s, id, i, {}, {});
    if !i.inTried {
      InsertLeavesNone(e, Touch(s, id, i), id, source, later, {}, x);
    }
  }

  lemma AddUnknownLeavesNone(e: Env, s: State, a: Address, source: Host, penalty: int, later: int, x: Id)
    requires Consistent(e, s, {}, {}) && a.service !in s.byAddr
    ensures !Left(s, AddUnknown(e, s, a, source, penalty, later).0, x)
  {
    CreatedKeeps(e, s, a, source, penalty);
    InsertLeavesNone(e, Created(e, s, a, source, penalty), s.idCount, source, later, {s.idCount}, x);
  }

  lemma AddSingleLeavesNone(e: Env, s: State, a: Announcement, source: Host, penalty: int, x: Id)
    requires Sound(e, s)
    ensures !Left(s, AddSingle(e, s, a.address, source, penalty, a.now, a.later, a.lucky).0, x)
  {
    var p := if a.address.service.host == source then 0 else penalty;
    if e.routable(a.address.service.host) {
      if a.address.service in s.byAddr {
        AddKnownLeavesNone(e, s, a.address, source, p, a.now, a.later, a.lucky, x);
      } else {
        AddUnknownLeavesNone(e, s, a.address, source, p, a.later, x);
      }
    }
  }

  lemma {:induction false} AddAllLeavesNone(e: Env, s: State, list: seq<Announcement>, source: Host, penalty: int, x: Id)
    requires Sound(e, s)
    ensures !Left(s, AddAll(e, s, list, source, penalty), x)
    decreases |list|
  {
    if list != [] {
      var t := AddSingle(e, s, list[0].address, source, penalty, list[0].now, list[0].later, list[0].lucky).0;
      AddAllSoundStep(e, s, list[0], source, penalty);
      AddSingleLeavesNone(e, s, list[0], source, penalty, x);
      AddAllLeavesNone(e, t, list[1..], source, penalty, x);
    }
  }

  lemma OtherOpsKeep(e: Env, s: State, op: Op, x: Id)
    requires Sound(e, s) && ValidOp(op) && !op.ResolveOp?
    ensures !Left(s, Step(e, s, op), x)
  {
    match op
    case AddOp(list, source, penalty) => AddAllLeavesNone(e, s, list, source, penalty, x);
    case GoodOp(addr, time) => GoodLeavesNone(e, s, addr, time, x);
    case AttemptOp(addr, countFailure, time) =>
    case ConnectedOp(addr, time) =>
    case SetServicesOp(addr, services) =>
    case SelectOp(choice) =>
  }

  /** A tried entry leaves the tried table exactly in a resolution in which some pending id that is
      still known at its turn meets the full rule. */
  lemma OnlyResolveEvicts(e: Env, s: State, op: Op, x: Id)
    requires Sound(e, s) && ValidOp(op) && x in s.info && s.info[x].inTried
    ensures Left(s, Step(e, s, op), x) <==>
              op.ResolveOp? && SomeDue(e, Turns(e, s, 0, op.clock), s.collisions, op.clock, x)
  {
    if op.ResolveOp? {
      ResolveExact(e, s, 0, op.clock, x);
      assert s.collisions[0..] == s.collisions;
    } else {
      OtherOpsKeep(e, s, op, x);
    }
  }
}
