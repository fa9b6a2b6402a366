/** States of a small address manager at which a property that one might expect fails. The lemmas named
    in the comments say exactly when it holds. */
module AddrManExamples {
  import opened AddrManState
  import opened AddrManSpec
  import opened AddrManOps
  import opened AddrManRuns
  import opened AddrManEvictions
  import opened AddrManAttempts
  import opened AddrManRoundTrip

  function Place(port: nat, isNew: bool): (p: nat)
    ensures p < 4
  {
    if !isNew then port % 2 else if port == 2 || port == 3 then port else 0
  }

  /** One bucket of four cells in each table. The network of a host is the host. */
  ghost const SMALL: Env := Env(1, 1, 4, 1, (key, a) => 0, (key, a, source) => 0, (key, a: Service, isNew, bucket) => Place(a.port, isNew),
                                h => h, h => true, h => true)

  lemma SmallValid()
    ensures ValidEnv(SMALL)
  {}

  /** The entry of a port: tried, or new with one reference. */
  function Entry(port: int): Info
    requires 0 <= port < 4
  {
    Info(Service(0, port), {}, 0, 0, 0, 0, 1, 0, if port < 2 then 0 else 1, port < 2, port)
  }

  // ----- Two evictions to the same cell -----

  /** Ports 0 and 1 are tried, with the same home cell; ports 2 and 3 wait for their tried cells. */
  ghost const TWO_PENDING: State := State(
    map id | 0 <= id < 4 :: Entry(id),
    map a | a in {Service(0, 0), Service(0, 1), Service(0, 2), Service(0, 3)} :: a.port,
    [0, 1, 2, 3],
    map c | c in {Cell(0, 2), Cell(0, 3)} :: c.pos,
    map c | c in {Cell(0, 0), Cell(0, 1)} :: c.pos,
    2, 2, map[0 := Count(2, 2)], 4, 5, [2, 3])

  lemma TwoPendingCounts()
    ensures CountOk(SMALL, TWO_PENDING, false, {}) && CountOk(SMALL, TWO_PENDING, true, {})
  {
    var s := TWO_PENDING;
    assert Members(s, false, {}) == {2, 3} && Members(s, true, {}) == {0, 1};
    forall net ensures CountAt(s, false, net) == |NetMembers(SMALL, s, false, {}, net)| && CountAt(s, true, net) == |NetMembers(SMALL, s, true, {}, net)| {
      if net == 0 {
        assert NetMembers(SMALL, s, false, {}, net) == {2, 3} && NetMembers(SMALL, s, true, {}, net) == {0, 1};
      } else {
        assert NetMembers(SMALL, s, false, {}, net) == {} && NetMembers(SMALL, s, true, {}, net) == {};
      }
    }
  }

  lemma TwoPendingRefs(id: Id)
    requires id in TWO_PENDING.info
    ensures TWO_PENDING.info[id].refCount == |Refs(TWO_PENDING.newTable, id)| <= 1
    ensures TWO_PENDING.info[id].refCount == 0 <==> TWO_PENDING.info[id].inTried
  {
    var t := TWO_PENDING.newTable;
    if id == 2 || id == 3 {
      assert Refs(t, id) == {Cell(0, id)};
    } else {
      assert Refs(t, id) == {};
    }
  }

  lemma TwoPendingNew()
    ensures ValidEnv(SMALL) && NewOk(SMALL, TWO_PENDING, {})
  {
    var s := TWO_PENDING;
    SmallValid();
    forall c | c in s.newTable
      ensures s.newTable[c] in s.info && !s.info[s.newTable[c]].inTried
      ensures c.bucket < SMALL.newBuckets && c.pos == Position(SMALL, s.info[s.newTable[c]].addr, true, c.bucket)
    {}
    forall id | id in s.info
      ensures s.info[id].refCount == |Refs(s.newTable, id)| <= MAX_REFS && (s.info[id].refCount == 0 <==> s.info[id].inTried)
    {
      TwoPendingRefs(id);
    }
  }

  lemma SmallCells(port: nat)
    ensures ValidEnv(SMALL) && TriedCell(SMALL, Service(0, port)) == Cell(0, port % 2)
    ensures port < 2 ==> NewCell(SMALL, Service(0, port), 0) == Cell(0, 0)
  {}

  lemma TwoPendingTried()
    ensures ValidEnv(SMALL) && TriedOk(SMALL, TWO_PENDING)
  {
    var s := TWO_PENDING;
    SmallValid();
    forall c | c in s.triedTable
      ensures s.triedTable[c] in s.info && s.info[s.triedTable[c]].inTried && c == TriedCell(SMALL, s.info[s.triedTable[c]].addr)
    {
      SmallCells(c.pos);
    }
    forall id | id in s.info && s.info[id].inTried
      ensures TriedCell(SMALL, s.info[id].addr) in s.triedTable && s.triedTable[TriedCell(SMALL, s.info[id].addr)] == id
    {
      SmallCells(id);
    }
  }

  lemma TwoPendingCollisions()
    ensures ValidEnv(SMALL) && CollisionsOk(SMALL, TWO_PENDING)
  {
    SmallValid();
    forall id | id in TWO_PENDING.collisions ensures PendingOk(SMALL, TWO_PENDING, id) {
      SmallCells(id);
    }
  }

  lemma TwoPendingIndex()
    ensures AddrOk(TWO_PENDING)
  {}

  lemma TwoPendingOrder()
    ensures RandomOk(TWO_PENDING) && IdsOk(TWO_PENDING) && TimesOk(TWO_PENDING)
  {}

  lemma TwoPendingSound()
    ensures Sound(SMALL, TWO_PENDING)
  {
    SmallValid();
    TwoPendingCounts();
    TwoPendingNew();
    TwoPendingTried();
    TwoPendingCollisions();
    TwoPendingIndex();
    TwoPendingOrder();
  }

  const LATE: int := 100000

  /** Port 2 replaces port 0, and port 3 replaces port 1. */
  lemma BothReplace()
    ensures ValidEnv(SMALL) && 0 in TWO_PENDING.info && 1 in TWO_PENDING.info
    ensures Replaces(SMALL, TWO_PENDING, 2, LATE, 0) && !Replaces(SMALL, TWO_PENDING, 2, LATE, 1)
    ensures Replaces(SMALL, TWO_PENDING, 3, LATE, 1)
  {
    SmallValid();
    SmallCells(0);
    SmallCells(1);
    SmallCells(2);
    SmallCells(3);
  }

  /** The entry of port 3 is still known at its turn. */
  lemma ThirdStays()
    ensures Sound(SMALL, TWO_PENDING) && 3 in ResolveOne(SMALL, TWO_PENDING, 2, LATE).0.info
  {
    var s := TWO_PENDING;
    TwoPendingSound();
    SmallCells(0);
    SmallCells(2);
    BothReplace();
    ResolveOneMoves(SMALL, s, 2, LATE, 0);
    var t := ForcedGood(SMALL, s, 2, LATE);
    MakeTriedForgets(SMALL, t, 2, 3);
  }

  /** Both evictions happen. */
  lemma BothLeave(tr: seq<State>, clock: Id -> int)
    requires ValidEnv(SMALL) && Resolves(SMALL, tr, [2, 3], clock) && tr[0] == TWO_PENDING && 3 in tr[1].info
    requires clock(2) == LATE && clock(3) == LATE
    ensures Evicted(tr, 0, 0) && EvictsTo(SMALL, tr, 1, Cell(0, 0))
  {
    BothReplace();
    assert NthTurn(SMALL, tr, [2, 3], clock, 0);
    assert Left(tr[0], tr[1], 0) && Remains(tr[0], tr[1], 1);
    FramedTurns(SMALL, tr, [2, 3], clock, 1, 1);
    FramedTurns(SMALL, tr, [2, 3], clock, 1, 3);
    ReplacesSame(SMALL, tr[0], tr[1], 3, LATE, 1);
    assert NthTurn(SMALL, tr, [2, 3], clock, 1);
    assert Left(tr[1], tr[2], 1);
    SmallCells(1);
  }

  /** An evicted address that is not known at the end of the resolution; `EvictedStaysKnown` says when
      that happens. */
  lemma EvictedIsForgotten(clock: Id -> int)
    requires forall id :: clock(id) == LATE
    ensures Sound(SMALL, TWO_PENDING)
    ensures Left(TWO_PENDING, Turns(SMALL, TWO_PENDING, 0, clock)[1], 0)
    ensures 0 in TWO_PENDING.info && 0 !in ResolveFrom(SMALL, TWO_PENDING, 0, clock).info
  {
    var s := TWO_PENDING;
    TwoPendingSound();
    TurnsLead(SMALL, s, 0, clock);
    assert s.collisions[0..] == [2, 3];
    ThirdStays();
    FirstTurn(SMALL, s, 0, clock);
    BothLeave(Turns(SMALL, s, 0, clock), clock);
    EvictedStaysKnown(SMALL, s, 0, clock, 0, 0);
    SmallCells(0);
  }

  // ----- Attempts dated before the last success -----

  /** Two attempts without a success between them are both counted; `AttemptTwice` says when that
      happens, and `CountedOnce` that it does not happen with a clock that does not go back. */
  lemma CountedTwice()
    ensures AddrOk(TWO_PENDING) && 2 in TWO_PENDING.info
    ensures var s, addr := TWO_PENDING, Service(0, 2);
            && AddrOk(Attempt(s, addr, true, 3))
            && var t := Attempt(Attempt(s, addr, true, 3), addr, true, 4);
               2 in t.info && t.info[2].attempts == s.info[2].attempts + 2
  {
    TwoPendingIndex();
    AttemptTwice(TWO_PENDING, Service(0, 2), 3, 4);
  }

  // ----- A network without a counter -----

  /** One new entry. Its network has no counter, and another network has an idle one. */
  ghost const UNCOUNTED: State := State(
    map id | 0 <= id < 1 :: Info(Service(0, 2), {}, 0, 0, 0, 0, 0, 0, 1, false, 0),
    map a | a in {Service(0, 2)} :: 0,
    [0],
    map c | c in {Cell(0, 2)} :: 0,
    map[], 1, 0, map[1 := Count(0, 0)], 1, 1, [])

  lemma UncountedCounts()
    ensures CountsChecked(SMALL, UNCOUNTED) && !(Networks(SMALL, UNCOUNTED) <= UNCOUNTED.counts.Keys)
    ensures |Members(UNCOUNTED, true, {})| == 0 && |Members(UNCOUNTED, false, {})| == 1
  {
    var s := UNCOUNTED;
    assert Members(s, true, {}) == {} && Members(s, false, {}) == {0};
    assert 0 in s.info && NetOf(SMALL, s.info[0]) == 0;
    assert Networks(SMALL, s) == {0};
    assert NetMembers(SMALL, s, false, {}, 1) == {} && NetMembers(SMALL, s, true, {}, 1) == {};
  }

  lemma UncountedNew()
    ensures ValidEnv(SMALL) && NewOk(SMALL, UNCOUNTED, {}) && TriedOk(SMALL, UNCOUNTED)
  {
    SmallValid();
    assert Refs(UNCOUNTED.newTable, 0) == {Cell(0, 2)};
  }

  /** A state that passes the check and is not consistent; `CheckedExactly` says when that happens, and
      `RunsPass` that no run reaches such a state. */
  lemma CheckMissesCounter()
    ensures ValidEnv(SMALL) && Checked(SMALL, UNCOUNTED) && !Consistent(SMALL, UNCOUNTED, {}, {})
  {
    UncountedCounts();
    UncountedNew();
    CheckedExactly(SMALL, UNCOUNTED);
  }
}
