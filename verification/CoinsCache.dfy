/** The coins cache as the source keeps it: a hash map whose nodes are threaded on an
    intrusive circular list, updated in place, in front of another cache or of a database.
    Nodes of the hash map never move, so a pointer to a node is modelled by its key.
    Every method is tied to its counterpart in `CoinsSpec`.
 */
module CoinsCache {
  import opened Collections
  import opened CoinsSpec

  /** A `CoinsCachePair*`: null, the sentinel, or the node of a key. */
  datatype Link = Null | Head | At(key: OutPoint)

  /** `CCoinsCacheEntry`; its two flag bits are two fields. */
  datatype Node = Node(coin: Coin, isDirty: bool, isFresh: bool, prev: Link, next: Link) {
    predicate Flagged() {
      isDirty || isFresh
    }

    function ToEntry(): Entry {
      Entry(coin, isDirty, isFresh)
    }
  }

  const NEW_NODE := Node(NULL_COIN, false, false, Null, Null)

  /** The coin database at the bottom: `CCoinsViewDB`, with reads and writes that succeed. */
  class CoinsViewDb {
    var coins: map<OutPoint, Coin>

    method GetCoin(o: OutPoint) returns (r: Option<Coin>)
      ensures (Db(coins), r) == CoinsSpec.GetCoin(Db(coins), o)
    {
      r := if o in coins then Some(coins[o]) else None;
    }

    /** The body of the loop of `CCoinsViewDB::BatchWrite`. */
    method WriteEntry(o: OutPoint, it: Node)
      modifies this
      ensures Some(Db(coins)) == CoinsSpec.WriteEntry(Db(old(coins)), o, it.ToEntry())
    {
      if it.isDirty {
        if it.coin.IsSpent() {
          coins := coins - {o};
        } else {
          coins := coins[o := it.coin];
        }
      }
    }
  }

  ghost function LinkAt(s: seq<OutPoint>, i: int): Link {
    if 0 <= i < |s| then At(s[i]) else Head
  }

  /** Walking from the sentinel back to it meets `s`, in both directions. */
  ghost predicate Linked(m: map<OutPoint, Node>, first: Link, last: Link, s: seq<OutPoint>) {
    && first == LinkAt(s, 0) && last == LinkAt(s, |s| - 1)
    && (forall i: nat {:trigger LinkedAt(m, s, i)} :: i < |s| ==> LinkedAt(m, s, i))
  }

  ghost predicate LinkedAt(m: map<OutPoint, Node>, s: seq<OutPoint>, i: nat)
    requires i < |s|
  {
    s[i] in m && m[s[i]].prev == LinkAt(s, i - 1) && m[s[i]].next == LinkAt(s, i + 1)
  }

  /** `s` lists exactly the flagged nodes, each once; the others carry null links. */
  ghost predicate Marked(m: map<OutPoint, Node>, s: seq<OutPoint>) {
    && Distinct(s)
    && (forall o :: o in s <==> o in m && m[o].Flagged())
    && (forall o :: o in m && !m[o].Flagged() ==> m[o].prev == Null && m[o].next == Null)
  }

  ghost function Entries(m: map<OutPoint, Node>): (r: map<OutPoint, Entry>)
    ensures r.Keys == m.Keys
  {
    map o | o in m :: m[o].ToEntry()
  }

  class CoinsViewCache {
    const base: CoinsViewCache?
    /** The database, used when there is no cache below. */
    const db: CoinsViewDb
    var cacheCoins: map<OutPoint, Node>
    /** The links of the sentinel. */
    var sentinelPrev: Link
    var sentinelNext: Link
    var cachedCoinsUsage: int
    ghost var flagged: seq<OutPoint>
    ghost const Repr: set<object>

    ghost predicate Local()
      reads this
    {
      Linked(cacheCoins, sentinelNext, sentinelPrev, flagged) && Marked(cacheCoins, flagged)
    }

    ghost function LayerOf(): Layer
      reads this
    {
      Layer(Entries(cacheCoins), flagged, cachedCoinsUsage)
    }

    ghost predicate Valid()
      reads this, Repr
      ensures Valid() ==> this in Repr
      decreases Repr
    {
      && this in Repr && Local()
      && (if base == null then db in Repr
          else base in Repr && base.Repr < Repr && this !in base.Repr && base.Valid())
    }

    ghost function Abs(): Stack
      requires Valid()
      reads this, Repr
      decreases Repr, 1
    {
      Cache(LayerOf(), BaseAbs())
    }

    ghost function BaseAbs(): Stack
      requires Valid()
      reads this, Repr
      decreases Repr, 0
    {
      if base == null then Db(db.coins) else base.Abs()
    }

    constructor OnDatabase(db: CoinsViewDb)
      ensures Valid() && Repr == {this, db} && Abs() == Cache(EMPTY_LAYER, Db(db.coins))
    {
      this.db, base := db, null;
      cacheCoins, cachedCoinsUsage, flagged := map[], 0, [];
      sentinelPrev, sentinelNext := Head, Head;
      Repr := {this, db};
    }

    constructor OnCache(base: CoinsViewCache)
      requires base.Valid()
      ensures Valid() && Repr == {this} + base.Repr && Abs() == Cache(EMPTY_LAYER, base.Abs())
    {
      this.db, this.base := base.db, base;
      cacheCoins, cachedCoinsUsage, flagged := map[], 0, [];
      sentinelPrev, sentinelNext := Head, Head;
      Repr := {this} + base.Repr;
    }

    // -------------------------------------------------------------------------------------
    // The list of flagged nodes

    method SetNext(l: Link, to: Link)
      requires l != Null && (l.At? ==> l.key in cacheCoins)
      modifies this`cacheCoins, this`sentinelNext
      ensures sentinelNext == if l.Head? then to else old(sentinelNext)
      ensures cacheCoins == if l.Head? then old(cacheCoins)
                            else old(cacheCoins)[l.key := old(cacheCoins)[l.key].(next := to)]
    {
      if l.Head? {
        sentinelNext := to;
      } else {
        cacheCoins := cacheCoins[l.key := cacheCoins[l.key].(next := to)];
      }
    }

    method SetPrev(l: Link, to: Link)
      requires l != Null && (l.At? ==> l.key in cacheCoins)
      modifies this`cacheCoins, this`sentinelPrev
      ensures sentinelPrev == if l.Head? then to else old(sentinelPrev)
      ensures cacheCoins == if l.Head? then old(cacheCoins)
                            else old(cacheCoins)[l.key := old(cacheCoins)[l.key].(prev := to)]
    {
      if l.Head? {
        sentinelPrev := to;
      } else {
        cacheCoins := cacheCoins[l.key := cacheCoins[l.key].(prev := to)];
      }
    }

    /** `AddFlags`: an unflagged node is linked in just before the sentinel. */
    method AddFlags(o: OutPoint, dirty: bool, isNew: bool)
      requires Local() && o in cacheCoins && (dirty || isNew)
      modifies this`cacheCoins, this`sentinelNext, this`sentinelPrev, this`flagged
      ensures Local()
      ensures var e := old(cacheCoins)[o];
              && Entries(cacheCoins) == Entries(old(cacheCoins))[o := Entry(e.coin, e.isDirty || dirty, e.isFresh || isNew)]
              && flagged == if e.Flagged() then old(flagged) else old(flagged) + [o]
    {
      var n := cacheCoins[o];
      if !n.Flagged() {
        LinkLast(o, dirty, isNew);
      } else {
        Reflag(cacheCoins, sentinelNext, sentinelPrev, flagged, o, n.(isDirty := n.isDirty || dirty, isFresh := n.isFresh || isNew));
        cacheCoins := cacheCoins[o := n.(isDirty := n.isDirty || dirty, isFresh := n.isFresh || isNew)];
      }
    }

    /** Link a node without flags before the sentinel, and set its flags. */
    method LinkLast(o: OutPoint, dirty: bool, isNew: bool)
      requires Local() && o in cacheCoins && (dirty || isNew) && !cacheCoins[o].Flagged()
      modifies this`cacheCoins, this`sentinelPrev, this`sentinelNext, this`flagged
      ensures Local() && flagged == old(flagged) + [o]
      ensures Entries(cacheCoins) == Entries(old(cacheCoins))[o := Entry(old(cacheCoins)[o].coin, dirty, isNew)]
    {
      ghost var m := cacheCoins;
      ghost var n' := Node(m[o].coin, dirty, isNew, sentinelPrev, Head);
      LinkIn(m, sentinelNext, sentinelPrev, flagged, o, n');
      MarkIn(m, sentinelPrev, flagged, o, n');
      var last := sentinelPrev;
      cacheCoins := cacheCoins[o := cacheCoins[o].(prev := last, next := Head)];
      sentinelPrev := At(o);
      SetNext(last, At(o));
      flagged := flagged + [o];
      cacheCoins := cacheCoins[o := cacheCoins[o].(isDirty := dirty, isFresh := isNew)];
      assert cacheCoins == WithNext(m, last, At(o))[o := n'];
    }

    /** `SetClean`: unlink the node and forget its flags. */
    method SetClean(o: OutPoint)
      requires Local() && o in cacheCoins
      modifies this`cacheCoins, this`sentinelNext, this`sentinelPrev, this`flagged
      ensures Local() && LayerOf() == Clean(old(LayerOf()), o)
    {
      var n := cacheCoins[o];
      if !n.Flagged() {
        assert Entries(cacheCoins)[o := Entry(n.coin, false, false)] == Entries(cacheCoins);
      } else {
        UnlinkNode(o);
      }
    }

    /** Join the neighbours of a node in the list. */
    method UnlinkNode(o: OutPoint)
      requires Local() && o in cacheCoins && cacheCoins[o].Flagged()
      modifies this`cacheCoins, this`sentinelNext, this`sentinelPrev, this`flagged
      ensures Local() && LayerOf() == Clean(old(LayerOf()), o)
    {
      var n := cacheCoins[o];
      ghost var m := cacheCoins;
      Unlink(m, sentinelNext, sentinelPrev, flagged, o);
      SetPrev(n.next, n.prev);
      SetNext(n.prev, n.next);
      cacheCoins := cacheCoins[o := Node(n.coin, false, false, Null, Null)];
      flagged := RemoveKey(flagged, o);
      assert cacheCoins == Unlinked(m, o);
    }

    // -------------------------------------------------------------------------------------
    // Steps on this cache alone

    /** Put a coin into a node, which is emplaced first if it is missing. */
    method SetCoin(o: OutPoint, coin: Coin)
      requires Local()
      modifies this`cacheCoins
      ensures Local()
      ensures Entries(cacheCoins) == Entries(old(cacheCoins))[o := EntryAt(old(LayerOf()), o).(coin := coin)]
    {
      if o !in cacheCoins {
        AddUnflagged(cacheCoins, sentinelNext, sentinelPrev, flagged, o, NEW_NODE.(coin := coin));
        cacheCoins := cacheCoins[o := NEW_NODE.(coin := coin)];
      } else {
        ghost var n := cacheCoins[o].(coin := coin);
        if n.Flagged() {
          Reflag(cacheCoins, sentinelNext, sentinelPrev, flagged, o, n);
        } else {
          AddUnflagged(cacheCoins, sentinelNext, sentinelPrev, flagged, o, n);
        }
        cacheCoins := cacheCoins[o := cacheCoins[o].(coin := coin)];
      }
    }

    /** Take a coin off the memory total, which does not go below zero if it was right. */
    method TakeOff(o: OutPoint)
      requires o in cacheCoins
      modifies this`cachedCoinsUsage
      ensures cachedCoinsUsage == old(cachedCoinsUsage) - cacheCoins[o].coin.DynamicMemoryUsage()
      ensures SaneLayer(old(LayerOf())) ==> cachedCoinsUsage >= 0
    {
      if SaneLayer(LayerOf()) { UsageCovers(LayerOf(), o); }
      cachedCoinsUsage := cachedCoinsUsage - cacheCoins[o].coin.DynamicMemoryUsage();
    }

    /** Replace the coin of an entry, adjust the memory total, and add flags. */
    method Store(o: OutPoint, coin: Coin, dirty: bool, isNew: bool)
      requires Local()
      modifies this`cacheCoins, this`sentinelNext, this`sentinelPrev, this`flagged, this`cachedCoinsUsage
      ensures Local()
      ensures var e := EntryAt(old(LayerOf()), o);
              LayerOf() == Put(old(LayerOf()), o, Entry(coin, e.isDirty || dirty, e.isFresh || isNew))
    {
      if o in cacheCoins { TakeOff(o); }
      SetCoin(o, coin);
      cachedCoinsUsage := cachedCoinsUsage + coin.DynamicMemoryUsage();
      ghost var e := Entries(cacheCoins)[o];
      assert cacheCoins[o].ToEntry() == e;
      if dirty || isNew {
        AddFlags(o, dirty, isNew);
        UpdateTwice(Entries(old(cacheCoins)), o, e, Entry(coin, e.isDirty || dirty, e.isFresh || isNew));
      }
    }

    method Discard(o: OutPoint)
      requires Local() && o in cacheCoins
      modifies this`cacheCoins, this`sentinelNext, this`sentinelPrev, this`flagged, this`cachedCoinsUsage
      ensures Local() && LayerOf() == Drop(old(LayerOf()), o)
      ensures SaneLayer(old(LayerOf())) ==> cachedCoinsUsage >= 0
    {
      TakeOff(o);
      Erase(o);
    }

    /** Erase a node; its destructor unlinks it. */
    method Erase(o: OutPoint)
      requires Local() && o in cacheCoins
      modifies this`cacheCoins, this`sentinelNext, this`sentinelPrev, this`flagged
      ensures Local()
      ensures Entries(cacheCoins) == Entries(old(cacheCoins)) - {o}
      ensures flagged == RemoveKey(old(flagged), o)
    {
      SetClean(o);
      assert Entries(cacheCoins)[o] == cacheCoins[o].ToEntry();
      RemoveUnflagged(cacheCoins, sentinelNext, sentinelPrev, flagged, o);
      cacheCoins := cacheCoins - {o};
    }

    // -------------------------------------------------------------------------------------
    // The operations

    method FetchCoin(o: OutPoint) returns (found: bool)
      requires Valid()
      modifies Repr
      ensures Valid() && Abs() == Fetch(old(Abs()), o) && found == (o in cacheCoins)
      decreases Repr, 0
    {
      if o in cacheCoins { return true; }
      var r: Option<Coin>;
      if base == null {
        r := db.GetCoin(o);
      } else {
        r := base.GetCoin(o);
      }
      if r.Some? {
        Store(o, r.value, false, r.value.IsSpent());
      }
      found := r.Some?;
    }

    method GetCoin(o: OutPoint) returns (r: Option<Coin>)
      requires Valid()
      modifies Repr
      ensures Valid() && (Abs(), r) == CoinsSpec.GetCoin(old(Abs()), o)
      decreases Repr, 1
    {
      var found := FetchCoin(o);
      r := if found && !cacheCoins[o].coin.IsSpent() then Some(cacheCoins[o].coin) else None;
    }

    /** `ok` is false where the source throws; by then it has taken the coin that is there off the
        memory total. */
    method AddCoin(o: OutPoint, coin: Coin, possibleOverwrite: bool) returns (ok: bool)
      requires Valid() && !coin.IsSpent()
      modifies this
      ensures Valid() && ok == !AddThrows(old(LayerOf()), o, coin, possibleOverwrite)
      ensures ok ==> Abs() == CoinsSpec.AddCoin(old(Abs()), o, coin, possibleOverwrite)
      ensures !ok ==> Abs() == CoinsSpec.AfterThrow(old(Abs()), o)
    {
      if coin.script.IsUnspendable() { return true; }
      if !possibleOverwrite && o in cacheCoins && !cacheCoins[o].coin.IsSpent() {
        cachedCoinsUsage := cachedCoinsUsage - cacheCoins[o].coin.DynamicMemoryUsage();
        return false;
      }
      var isNew := !possibleOverwrite && !(o in cacheCoins && cacheCoins[o].isDirty);
      Store(o, coin, true, isNew);
      ok := true;
    }

    method SpendCoin(o: OutPoint) returns (moved: Option<Coin>)
      requires Valid()
      modifies Repr
      ensures Valid() && (Abs(), moved) == CoinsSpec.SpendCoin(old(Abs()), o)
    {
      var found := FetchCoin(o);
      if !found { return None; }
      moved := Some(cacheCoins[o].coin);
      if cacheCoins[o].isFresh {
        Discard(o);
      } else {
        Store(o, NULL_COIN, true, false);
      }
    }

    method Uncache(o: OutPoint)
      requires Valid()
      modifies this
      ensures Valid() && Abs() == CoinsSpec.Uncache(old(Abs()), o)
      ensures SaneLayer(old(LayerOf())) && old(cachedCoinsUsage) >= 0 ==> cachedCoinsUsage >= 0
    {
      if o in cacheCoins && !cacheCoins[o].isDirty && !cacheCoins[o].isFresh {
        Discard(o);
      }
    }

    /** The body of the loop of `BatchWrite` in the receiving cache; false is its exception. */
    method WriteEntry(o: OutPoint, it: Node) returns (ok: bool)
      requires Valid()
      modifies this
      ensures Valid()
      ensures CoinsSpec.WriteEntry(old(Abs()), o, it.ToEntry()) == if ok then Some(Abs()) else None
    {
      if !it.isDirty { return true; }
      if o !in cacheCoins {
        if !(it.isFresh && it.coin.IsSpent()) {
          Store(o, it.coin, true, it.isFresh);
        }
      } else {
        if it.isFresh && !cacheCoins[o].coin.IsSpent() { return false; }
        if cacheCoins[o].isFresh && it.coin.IsSpent() {
          Discard(o);
        } else {
          Store(o, it.coin, true, false);
        }
      }
      ok := true;
    }

    method WriteToBase(o: OutPoint, it: Node) returns (ok: bool)
      requires Valid()
      modifies Repr - {this}
      ensures Valid()
      ensures CoinsSpec.WriteEntry(old(BaseAbs()), o, it.ToEntry()) == if ok then Some(BaseAbs()) else None
    {
      if base == null {
        db.WriteEntry(o, it);
        ok := true;
      } else {
        ok := base.WriteEntry(o, it);
      }
    }

    /** `NextAndMaybeErase` for a cursor that does not wipe the cache afterwards. */
    method NextAndErase(o: OutPoint) returns (next: Link)
      requires Local() && flagged != [] && flagged[0] == o
      modifies this`cacheCoins, this`sentinelNext, this`sentinelPrev, this`flagged, this`cachedCoinsUsage
      ensures Local() && next == sentinelNext && flagged == old(flagged)[1..]
      ensures var l := old(LayerOf());
              LayerOf() == if l.entries[o].coin.IsSpent() then Drop(l, o) else Clean(l, o)
    {
      FirstNode(cacheCoins, sentinelNext, sentinelPrev, flagged);
      next := cacheCoins[o].next;
      if cacheCoins[o].coin.IsSpent() {
        Discard(o);
      } else {
        SetClean(o);
      }
    }

    /** Where a cursor over the layer `l` is after `i` nodes. */
    ghost predicate CursorAt(l: Layer, i: nat, it: Link, willErase: bool)
      requires ListOk(l)
      reads this
    {
      && i <= |l.flagged| && it == LinkAt(l.flagged, i)
      && (if willErase then LayerOf() == l else Cleaning(l, i, LayerOf()))
    }

    /** `NextAndMaybeErase`. */
    method NextAndMaybeErase(o: OutPoint, willErase: bool, ghost l: Layer, ghost i: nat) returns (next: Link)
      requires Local() && ListOk(l) && i < |l.flagged| && l.flagged[i] == o && CursorAt(l, i, At(o), willErase)
      modifies this`cacheCoins, this`sentinelNext, this`sentinelPrev, this`flagged, this`cachedCoinsUsage
      ensures Local() && CursorAt(l, i + 1, next, willErase)
    {
      if willErase {
        assert LinkedAt(cacheCoins, flagged, i);
        next := cacheCoins[o].next;
      } else {
        ghost var before := LayerOf();
        next := NextAndErase(o);
        LayerListOk();
        CleaningStep(l, i, before, LayerOf(), o);
      }
    }

    lemma LayerListOk()
      requires Local()
      ensures ListOk(LayerOf())
    {
    }

    /** The node at the cursor is as it was in the layer. */
    lemma AtCursor(o: OutPoint, willErase: bool, l: Layer, i: nat)
      requires Local() && ListOk(l) && i < |l.flagged| && CursorAt(l, i, At(o), willErase)
      ensures o == l.flagged[i] && o in cacheCoins && o in l.entries && cacheCoins[o].ToEntry() == l.entries[o]
    {
      assert o in l.flagged[i..];
      assert cacheCoins[o].ToEntry() == EntryAt(LayerOf(), o) == l.entries[o];
    }

    /** One iteration: hand the node to the base, then advance the cursor. */
    method Visit(o: OutPoint, willErase: bool, ghost l: Layer, ghost i: nat, ghost result: Option<Stack>)
      returns (ok: bool, next: Link)
      requires Valid() && ListOk(l) && i < |l.flagged| && CursorAt(l, i, At(o), willErase)
      requires result == CoinsSpec.BatchWrite(BaseAbs(), l, l.flagged[i..])
      modifies Repr
      ensures !ok ==> result == None
      ensures ok ==> && Valid() && CursorAt(l, i + 1, next, willErase)
                     && result == CoinsSpec.BatchWrite(BaseAbs(), l, l.flagged[i + 1..])
    {
      BatchWriteAt(BaseAbs(), l, i);
      AtCursor(o, willErase, l, i);
      ok := WriteToBase(o, cacheCoins[o]);
      next := Null;
      if ok {
        next := NextAndMaybeErase(o, willErase, l, i);
      }
    }

    /** `BatchWrite` of the base with a cursor over this cache: walk the list from the
        sentinel, hand every node to the base and, unless the cache is about to be wiped,
        erase or clean it. False is the "FRESH flag misapplied" exception. */
    method BatchWrite(willErase: bool) returns (ok: bool)
      requires Valid()
      modifies Repr
      ensures ListOk(old(LayerOf()))
      ensures var r := CoinsSpec.BatchWrite(old(BaseAbs()), old(LayerOf()), old(flagged));
              && ok == r.Some?
              && (ok ==> && Valid() && BaseAbs() == r.value
                         && LayerOf() == if willErase then old(LayerOf()) else CoinsSpec.Unflag(old(LayerOf()), old(flagged)))
    {
      LayerListOk();
      ghost var l := LayerOf();
      ghost var result := CoinsSpec.BatchWrite(BaseAbs(), l, l.flagged);
      ghost var i: nat := 0;
      var it := sentinelNext;
      while it != Head
        invariant Valid() && CursorAt(l, i, it, willErase)
        invariant result == CoinsSpec.BatchWrite(BaseAbs(), l, l.flagged[i..])
        decreases |l.flagged| - i
      {
        ok, it := Visit(it.key, willErase, l, i, result);
        if !ok { return; }
        i := i + 1;
      }
      ok := true;
    }

    /** `cacheCoins.clear()`; the destructors of the nodes empty the list. */
    method Clear()
      modifies this`cacheCoins, this`sentinelNext, this`sentinelPrev, this`flagged, this`cachedCoinsUsage
      ensures Local() && LayerOf() == EMPTY_LAYER
    {
      cacheCoins, sentinelPrev, sentinelNext, flagged := map[], Head, Head, [];
      cachedCoinsUsage := 0;
    }

    /** Write everything to the base and wipe this cache; false stands for the exception,
        which does not occur on a consistent stack. */
    method Flush() returns (ok: bool)
      requires Valid()
      modifies Repr
      ensures ListOk(old(LayerOf()))
      ensures if ok then Valid() && Some(Abs()) == CoinsSpec.Flush(old(Abs())) else CoinsSpec.Flush(old(Abs())) == None
      ensures CoinsSpec.Valid(old(Abs())) ==> ok
    {
      LayerListOk();
      NeverThrows(Abs());
      ok := BatchWrite(true);
      if ok {
        Clear();
      }
    }

    /** Write everything to the base and keep the unspent coins; false stands for either of
        the two exceptions, which do not occur on a consistent stack. */
    method Sync() returns (ok: bool)
      requires Valid()
      modifies Repr
      ensures ListOk(old(LayerOf()))
      ensures if ok then Valid() && Some(Abs()) == CoinsSpec.Sync(old(Abs())) else CoinsSpec.Sync(old(Abs())) == None
      ensures CoinsSpec.Valid(old(Abs())) ==> ok
    {
      LayerListOk();
      NeverThrows(Abs());
      ok := BatchWrite(false);
      if ok && sentinelNext != Head {
        ok := false;
      }
    }
  }

  lemma FirstNode(m: map<OutPoint, Node>, first: Link, last: Link, s: seq<OutPoint>)
    requires Linked(m, first, last, s) && s != [] && Distinct(s)
    ensures s[0] in m && first == At(s[0]) && m[s[0]].next == LinkAt(s[1..], 0)
    ensures RemoveKey(s, s[0]) == s[1..]
  {
    assert LinkedAt(m, s, 0);
    RemoveKeyAt(s, 0);
  }

  lemma BatchWriteAt(p: Stack, l: Layer, i: nat)
    requires ListOk(l) && i < |l.flagged|
    ensures l.flagged[i] in l.entries
    ensures CoinsSpec.BatchWrite(p, l, l.flagged[i..]) ==
            match CoinsSpec.WriteEntry(p, l.flagged[i], l.entries[l.flagged[i]])
            case None => None
            case Some(p') => CoinsSpec.BatchWrite(p', l, l.flagged[i + 1..])
  {
    assert l.flagged[i] in l.flagged;
    assert l.flagged[i..][1..] == l.flagged[i + 1..];
  }

  lemma NeverThrows(s: Stack)
    requires s.Cache? && ListOk(s.layer)
    ensures CoinsSpec.Valid(s) ==> CoinsSpec.Flush(s).Some? && CoinsSpec.Sync(s).Some?
  {
    if CoinsSpec.Valid(s) {
      FlushCorrect(s);
      SyncCorrect(s);
    }
  }

  function WithNext(m: map<OutPoint, Node>, l: Link, to: Link): map<OutPoint, Node> {
    if l.At? && l.key in m then m[l.key := m[l.key].(next := to)] else m
  }

  function WithPrev(m: map<OutPoint, Node>, l: Link, to: Link): map<OutPoint, Node> {
    if l.At? && l.key in m then m[l.key := m[l.key].(prev := to)] else m
  }

  /** Linking in an unflagged node before the sentinel extends the list by its key. */
  lemma LinkIn(m: map<OutPoint, Node>, first: Link, last: Link, s: seq<OutPoint>, o: OutPoint, n: Node)
    requires Linked(m, first, last, s) && Distinct(s) && o !in s
    requires n.prev == last && n.next == Head
    ensures Linked(WithNext(m, last, At(o))[o := n], if last.Head? then At(o) else first, At(o), s + [o])
  {
    var m' := WithNext(m, last, At(o))[o := n];
    forall i: nat | i < |s + [o]|
      ensures LinkedAt(m', s + [o], i)
    {
      if i < |s| { assert LinkedAt(m, s, i); }
    }
  }

  lemma MarkIn(m: map<OutPoint, Node>, last: Link, s: seq<OutPoint>, o: OutPoint, n: Node)
    requires Marked(m, s) && o in m && !m[o].Flagged() && n.Flagged()
    requires last.At? ==> last.key in s
    ensures Marked(WithNext(m, last, At(o))[o := n], s + [o])
  {
    assert forall x :: x in s + [o] <==> x in s || x == o;
  }

  /** Changing the flags of a node that stays flagged. */
  lemma Reflag(m: map<OutPoint, Node>, first: Link, last: Link, s: seq<OutPoint>, o: OutPoint, n: Node)
    requires Linked(m, first, last, s) && Marked(m, s) && o in m && m[o].Flagged() && n.Flagged()
    requires n.prev == m[o].prev && n.next == m[o].next
    ensures Linked(m[o := n], first, last, s) && Marked(m[o := n], s)
  {
    var m' := m[o := n];
    forall i: nat | i < |s|
      ensures LinkedAt(m', s, i)
    {
      assert LinkedAt(m, s, i);
    }
  }

  /** Adding or changing a node that is not in the list. */
  lemma AddUnflagged(m: map<OutPoint, Node>, first: Link, last: Link, s: seq<OutPoint>, o: OutPoint, n: Node)
    requires Linked(m, first, last, s) && Marked(m, s) && o !in s
    requires !n.Flagged() && n.prev == Null && n.next == Null
    ensures Linked(m[o := n], first, last, s) && Marked(m[o := n], s)
  {
    var m' := m[o := n];
    forall i: nat | i < |s|
      ensures LinkedAt(m', s, i)
    {
      assert LinkedAt(m, s, i);
    }
  }

  lemma RemoveUnflagged(m: map<OutPoint, Node>, first: Link, last: Link, s: seq<OutPoint>, o: OutPoint)
    requires Linked(m, first, last, s) && Marked(m, s) && o in m && !m[o].Flagged()
    ensures Linked(m - {o}, first, last, s) && Marked(m - {o}, s)
  {
    var m' := m - {o};
    forall i: nat | i < |s|
      ensures LinkedAt(m', s, i)
    {
      assert LinkedAt(m, s, i);
    }
  }

  /** The nodes after `o` was taken out of the list. */
  function Unlinked(m: map<OutPoint, Node>, o: OutPoint): map<OutPoint, Node>
    requires o in m
  {
    WithNext(WithPrev(m, m[o].next, m[o].prev), m[o].prev, m[o].next)[o := Node(m[o].coin, false, false, Null, Null)]
  }

  lemma UnlinkLinks(m: map<OutPoint, Node>, first: Link, last: Link, s: seq<OutPoint>, i: nat)
    requires Linked(m, first, last, s) && Distinct(s) && i < |s|
    ensures LinkedAt(m, s, i)
    ensures var n := m[s[i]];
            Linked(Unlinked(m, s[i]), if n.prev.Head? then n.next else first, if n.next.Head? then n.prev else last,
                   s[..i] + s[i + 1..])
  {
    assert LinkedAt(m, s, i);
    var m', t := Unlinked(m, s[i]), s[..i] + s[i + 1..];
    forall j: nat | j < |t|
      ensures LinkedAt(m', t, j)
    {
      var k := if j < i then j else j + 1;
      assert t[j] == s[k] && s[k] != s[i];
      assert LinkedAt(m, s, k);
    }
  }

  lemma UnlinkMarks(m: map<OutPoint, Node>, s: seq<OutPoint>, o: OutPoint)
    requires Marked(m, s) && o in s
    requires m[o].prev.At? ==> m[o].prev.key in s
    requires m[o].next.At? ==> m[o].next.key in s
    ensures Marked(Unlinked(m, o), RemoveKey(s, o))
  {
    RemoveKeyContents(s, o);
    var m' := Unlinked(m, o);
    forall x | x in m'
      ensures x in m && m'[x].Flagged() == (x != o && m[x].Flagged())
      ensures !m'[x].Flagged() ==> m'[x].prev == Null && m'[x].next == Null
    {
      assert !m[x].Flagged() ==> x !in s;
    }
  }

  lemma UnlinkEntries(m: map<OutPoint, Node>, o: OutPoint)
    requires o in m
    ensures Entries(Unlinked(m, o)) == Entries(m)[o := Entry(m[o].coin, false, false)]
  {
  }

  lemma Unlink(m: map<OutPoint, Node>, first: Link, last: Link, s: seq<OutPoint>, o: OutPoint)
    requires Linked(m, first, last, s) && Marked(m, s) && o in s
    ensures var n := m[o];
            && n.prev != Null && (n.prev.At? ==> n.prev.key in s && n.prev.key in m)
            && n.next != Null && (n.next.At? ==> n.next.key in s && n.next.key in m)
            && Linked(Unlinked(m, o), if n.prev.Head? then n.next else first, if n.next.Head? then n.prev else last,
                      RemoveKey(s, o))
            && Marked(Unlinked(m, o), RemoveKey(s, o))
            && Entries(Unlinked(m, o)) == Entries(m)[o := Entry(m[o].coin, false, false)]
  {
    var i :| 0 <= i < |s| && s[i] == o;
    UnlinkLinks(m, first, last, s, i);
    UnlinkMarks(m, s, o);
    UnlinkEntries(m, o);
    RemoveKeyAt(s, i);
  }

  lemma {:induction false} RemoveKeyAt(s: seq<OutPoint>, i: nat)
    requires Distinct(s) && i < |s|
    ensures RemoveKey(s, s[i]) == s[..i] + s[i + 1..]
  {
    if i == 0 {
      assert s[0] !in s[1..];
    } else {
      RemoveKeyAt(s[1..], i - 1);
    }
  }

  /** The layer that a non-erasing pass over `l` leaves after its first `i` nodes. */
  ghost predicate Cleaning(l: Layer, i: nat, now: Layer)
    requires ListOk(l)
  {
    && i <= |l.flagged| && now.flagged == l.flagged[i..] && ListOk(now)
    && (forall o :: o in now.flagged ==> o in l.entries && EntryAt(now, o) == l.entries[o])
    && CoinsSpec.Unflag(now, now.flagged) == CoinsSpec.Unflag(l, l.flagged)
  }

  lemma CleaningStep(l: Layer, i: nat, now: Layer, next: Layer, o: OutPoint)
    requires ListOk(l) && Cleaning(l, i, now) && i < |l.flagged| && o == l.flagged[i] && ListOk(next)
    requires o in now.entries && next == if now.entries[o].coin.IsSpent() then Drop(now, o) else Clean(now, o)
    requires next.flagged == now.flagged[1..]
    ensures Cleaning(l, i + 1, next)
  {
    assert l.flagged[i..][1..] == l.flagged[i + 1..];
    forall x | x in next.flagged ensures x in l.entries && EntryAt(next, x) == l.entries[x] {
      assert x in now.flagged && x != o;
    }
  }
}
