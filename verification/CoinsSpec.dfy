/** The layered cache of unspent transaction outputs, on values: what each operation of
    `CCoinsViewCache` does to a stack of caches above a coin database, and what each layer
    of the stack shows to its users.
 */
module CoinsSpec {
  import opened Collections

  datatype OutPoint = OutPoint(hash: nat, n: nat)

  /** A script together with the heap memory its byte vector occupies. */
  datatype Script = Script(bytes: seq<nat>, heap: nat) {
    predicate IsUnspendable() {
      (|bytes| > 0 && bytes[0] == OP_RETURN) || |bytes| > MAX_SCRIPT_SIZE
    }
  }

  const OP_RETURN := 0x6a
  const MAX_SCRIPT_SIZE := 10000

  datatype Coin = Coin(value: int, script: Script, height: nat, coinbase: bool) {
    predicate IsSpent() {
      value == -1
    }

    function DynamicMemoryUsage(): nat {
      script.heap
    }
  }

  const NULL_COIN := Coin(-1, Script([], 0), 0, false)

  datatype Entry = Entry(coin: Coin, isDirty: bool, isFresh: bool) {
    predicate Flagged() {
      isDirty || isFresh
    }

    /** The five combinations of spent, DIRTY and FRESH that `SanityCheck` lets pass;
        a spent coin is always the null coin. */
    predicate Allowed() {
      && (isFresh && !isDirty ==> coin.IsSpent())
      && (coin.IsSpent() ==> isDirty != isFresh && coin == NULL_COIN)
    }
  }

  /** One cache: its entries, the keys of the flagged ones in list order, and the running
      total of the memory used by its coins (`size_t` in the source, so a subtraction below
      zero would wrap; `int` here, so that its absence is something to prove). */
  datatype Layer = Layer(entries: map<OutPoint, Entry>, flagged: seq<OutPoint>, usage: int)

  const EMPTY_LAYER := Layer(map[], [], 0)

  /** A database, or a cache in front of another view. */
  datatype Stack =
    | Db(coins: map<OutPoint, Coin>)
    | Cache(layer: Layer, base: Stack)

  // ---------------------------------------------------------------------------------------
  // Operations on one layer

  function EntryAt(l: Layer, o: OutPoint): Entry {
    if o in l.entries then l.entries[o] else Entry(NULL_COIN, false, false)
  }

  function RemoveKey(s: seq<OutPoint>, o: OutPoint): (r: seq<OutPoint>)
    ensures o !in s ==> r == s
  {
    if s == [] then []
    else if s[0] == o then RemoveKey(s[1..], o)
    else [s[0]] + RemoveKey(s[1..], o)
  }

  /** Store `e` under `o`, appending the key to the flagged list if it just became flagged. */
  function Put(l: Layer, o: OutPoint, e: Entry): Layer
    requires EntryAt(l, o).Flagged() ==> e.Flagged()
  {
    Layer(l.entries[o := e],
          if e.Flagged() && !EntryAt(l, o).Flagged() then l.flagged + [o] else l.flagged,
          l.usage - EntryAt(l, o).coin.DynamicMemoryUsage() + e.coin.DynamicMemoryUsage())
  }

  function Drop(l: Layer, o: OutPoint): Layer {
    Layer(l.entries - {o}, RemoveKey(l.flagged, o), l.usage - EntryAt(l, o).coin.DynamicMemoryUsage())
  }

  /** `SetClean`: forget both flags and leave the list. */
  function Clean(l: Layer, o: OutPoint): Layer
    requires o in l.entries
  {
    l.(entries := l.entries[o := Entry(l.entries[o].coin, false, false)], flagged := RemoveKey(l.flagged, o))
  }

  // ---------------------------------------------------------------------------------------
  // Operations on a stack

  /** `FetchCoin`: make sure the top cache has an entry if any layer below has the coin. */
  function Fetch(s: Stack, o: OutPoint): Stack
    requires s.Cache?
    decreases s, 0
  {
    if o in s.layer.entries then s
    else
      var (b, r) := GetCoin(s.base, o);
      match r
      case None => s.(base := b)
      case Some(c) => Cache(Put(s.layer, o, Entry(c, false, c.IsSpent())), b)
  }

  function GetCoin(s: Stack, o: OutPoint): (Stack, Option<Coin>)
    decreases s, 1
  {
    match s
    case Db(coins) => (s, if o in coins then Some(coins[o]) else None)
    case Cache(_, _) =>
      var f := Fetch(s, o);
      (f, if o in f.layer.entries && !f.layer.entries[o].coin.IsSpent()
          then Some(f.layer.entries[o].coin) else None)
  }

  /** Whether the non-overwriting form of `AddCoin` throws: an unspent coin is already cached. */
  predicate AddThrows(l: Layer, o: OutPoint, coin: Coin, overwrite: bool) {
    !coin.script.IsUnspendable() && !overwrite && !EntryAt(l, o).coin.IsSpent()
  }

  function AddCoin(s: Stack, o: OutPoint, coin: Coin, overwrite: bool): Stack
    requires s.Cache? && !coin.IsSpent()
    requires !AddThrows(s.layer, o, coin, overwrite)
  {
    if coin.script.IsUnspendable() then s
    else
      var e := EntryAt(s.layer, o);
      var isFresh := !overwrite && !e.isDirty;
      s.(layer := Put(s.layer, o, Entry(coin, true, e.isFresh || isFresh)))
  }

  /** What the throwing form of `AddCoin` leaves: the entry is as before, but the memory total
      no longer counts its coin. */
  function AfterThrow(s: Stack, o: OutPoint): Stack
    requires s.Cache?
  {
    s.(layer := s.layer.(usage := s.layer.usage - EntryAt(s.layer, o).coin.DynamicMemoryUsage()))
  }

  /** The new stack, and the coin moved out (None when `SpendCoin` returns false). */
  function SpendCoin(s: Stack, o: OutPoint): (Stack, Option<Coin>)
    requires s.Cache?
  {
    var f := Fetch(s, o);
    if o !in f.layer.entries then (f, None)
    else
      var e := f.layer.entries[o];
      if e.isFresh then (f.(layer := Drop(f.layer, o)), Some(e.coin))
      else (f.(layer := Put(f.layer, o, Entry(NULL_COIN, true, false))), Some(e.coin))
  }

  function Uncache(s: Stack, o: OutPoint): Stack
    requires s.Cache?
  {
    if o in s.layer.entries && !s.layer.entries[o].Flagged() then s.(layer := Drop(s.layer, o)) else s
  }

  /** One iteration of `BatchWrite`: what the parent does with a flagged entry of its child.
      None is the "FRESH flag misapplied" exception. */
  function WriteEntry(p: Stack, o: OutPoint, e: Entry): Option<Stack> {
    if !e.isDirty then Some(p)
    else match p
      case Db(coins) => Some(Db(if e.coin.IsSpent() then coins - {o} else coins[o := e.coin]))
      case Cache(l, _) =>
        if o !in l.entries then
          if e.isFresh && e.coin.IsSpent() then Some(p)
          else Some(p.(layer := Put(l, o, Entry(e.coin, true, e.isFresh))))
        else
          var us := l.entries[o];
          if e.isFresh && !us.coin.IsSpent() then None
          else if us.isFresh && e.coin.IsSpent() then Some(p.(layer := Drop(l, o)))
          else Some(p.(layer := Put(l, o, Entry(e.coin, true, us.isFresh))))
  }

  /** The whole cursor loop over the keys `todo` of the child's flagged list. */
  function BatchWrite(p: Stack, child: Layer, todo: seq<OutPoint>): Option<Stack>
    requires forall o :: o in todo ==> o in child.entries
    decreases |todo|
  {
    if todo == [] then Some(p)
    else match WriteEntry(p, todo[0], child.entries[todo[0]])
      case None => None
      case Some(p') => BatchWrite(p', child, todo[1..])
  }

  /** What `NextAndMaybeErase` leaves of the child after a non-erasing pass over `todo`. */
  function Unflag(l: Layer, todo: seq<OutPoint>): Layer
    requires forall o :: o in todo ==> o in l.entries
    requires Distinct(todo)
    decreases |todo|
  {
    if todo == [] then l
    else
      var o := todo[0];
      Unflag(if l.entries[o].coin.IsSpent() then Drop(l, o) else Clean(l, o), todo[1..])
  }

  function Flush(s: Stack): Option<Stack>
    requires s.Cache? && ListOk(s.layer)
  {
    match BatchWrite(s.base, s.layer, s.layer.flagged)
    case None => None
    case Some(b) => Some(Cache(EMPTY_LAYER, b))
  }

  /** None also stands for the "Not all unspent flagged entries were cleared" exception. */
  function Sync(s: Stack): Option<Stack>
    requires s.Cache? && ListOk(s.layer)
  {
    match BatchWrite(s.base, s.layer, s.layer.flagged)
    case None => None
    case Some(b) =>
      var l := Unflag(s.layer, s.layer.flagged);
      if l.flagged == [] then Some(Cache(l, b)) else None
  }

  // ---------------------------------------------------------------------------------------
  // Views and the invariant

  ghost function ViewOf(l: Layer, v: map<OutPoint, Coin>): map<OutPoint, Coin> {
    map o | o in l.entries.Keys + v.Keys && (o in l.entries ==> !l.entries[o].coin.IsSpent())
      :: if o in l.entries then l.entries[o].coin else v[o]
  }

  /** The outpoint-to-coin map that the top of the stack presents. */
  ghost function View(s: Stack): map<OutPoint, Coin> {
    match s
    case Db(coins) => coins
    case Cache(l, b) => ViewOf(l, View(b))
  }

  ghost function Views(s: Stack): (vs: seq<map<OutPoint, Coin>>)
    ensures |vs| == Height(s) + 1
  {
    match s
    case Db(_) => [View(s)]
    case Cache(_, b) => [View(s)] + Views(b)
  }

  function Height(s: Stack): nat {
    if s.Cache? then 1 + Height(s.base) else 0
  }

  ghost predicate ListOk(l: Layer) {
    && Distinct(l.flagged)
    && (forall o :: o in l.flagged <==> o in l.entries && l.entries[o].Flagged())
  }

  ghost function TotalUsage(m: map<OutPoint, Entry>): nat {
    if m == map[] then 0
    else
      var o :| o in m;
      m[o].coin.DynamicMemoryUsage() + TotalUsage(m - {o})
  }

  /** What `SanityCheck` asserts of one cache. */
  ghost predicate SaneLayer(l: Layer) {
    && (forall o :: o in l.entries ==> l.entries[o].Allowed())
    && ListOk(l)
    && l.usage == TotalUsage(l.entries)
  }

  /** The relation between a cache and the view `v` of what is below it that no single
      function states: FRESH coins are absent below, entries without DIRTY agree with below. */
  ghost predicate EntryBacked(e: Entry, o: OutPoint, v: map<OutPoint, Coin>) {
    && (e.isFresh ==> o !in v)
    && (!e.isDirty ==> if e.coin.IsSpent() then o !in v else o in v && v[o] == e.coin)
  }

  ghost predicate Backed(l: Layer, v: map<OutPoint, Coin>) {
    forall o :: o in l.entries ==> EntryBacked(l.entries[o], o, v)
  }

  ghost predicate Valid(s: Stack) {
    match s
    case Db(coins) => forall o :: o in coins ==> !coins[o].IsSpent()
    case Cache(l, b) => SaneLayer(l) && Backed(l, View(b)) && Valid(b)
  }

  // ---------------------------------------------------------------------------------------
  // One layer keeps its bookkeeping

  lemma {:induction false} TotalUsageRemove(m: map<OutPoint, Entry>, o: OutPoint)
    requires o in m
    ensures TotalUsage(m) == m[o].coin.DynamicMemoryUsage() + TotalUsage(m - {o})
    decreases |m|
  {
    var p :| p in m && TotalUsage(m) == m[p].coin.DynamicMemoryUsage() + TotalUsage(m - {p});
    if p != o {
      TotalUsageRemove(m - {p}, o);
      TotalUsageRemove(m - {o}, p);
      assert m - {p} - {o} == m - {o} - {p};
    }
  }

  lemma TotalUsagePut(m: map<OutPoint, Entry>, o: OutPoint, e: Entry)
    ensures TotalUsage(m[o := e]) == e.coin.DynamicMemoryUsage() + TotalUsage(m - {o})
  {
    TotalUsageRemove(m[o := e], o);
    assert m[o := e] - {o} == m - {o};
  }

  lemma {:induction false} RemoveKeyContents(s: seq<OutPoint>, o: OutPoint)
    ensures forall x :: x in RemoveKey(s, o) <==> x in s && x != o
    ensures Distinct(s) ==> Distinct(RemoveKey(s, o))
  {
    if s != [] {
      RemoveKeyContents(s[1..], o);
      assert forall x :: x in s <==> x == s[0] || x in s[1..];
      if Distinct(s) {
        assert s[0] !in s[1..];
        assert s[0] !in RemoveKey(s[1..], o);
      }
    }
  }

  /** Overwriting an entry, with flags that only grow, keeps a cache sane. */
  lemma PutSane(l: Layer, o: OutPoint, e: Entry)
    requires SaneLayer(l) && e.Allowed() && (EntryAt(l, o).Flagged() ==> e.Flagged())
    ensures SaneLayer(Put(l, o, e))
  {
    var l' := Put(l, o, e);
    TotalUsagePut(l.entries, o, e);
    if o in l.entries { TotalUsageRemove(l.entries, o); } else { assert l.entries - {o} == l.entries; }
    if e.Flagged() && !EntryAt(l, o).Flagged() {
      assert o !in l.flagged;
      assert forall x :: x in l'.flagged <==> x in l.flagged || x == o;
    }
  }

  lemma DropSane(l: Layer, o: OutPoint)
    requires SaneLayer(l)
    ensures SaneLayer(Drop(l, o))
  {
    RemoveKeyContents(l.flagged, o);
    if o in l.entries { TotalUsageRemove(l.entries, o); } else { assert l.entries - {o} == l.entries; }
  }

  /** Taking an entry's coin off the total does not go below zero. */
  lemma UsageCovers(l: Layer, o: OutPoint)
    requires SaneLayer(l) && o in l.entries
    ensures l.entries[o].coin.DynamicMemoryUsage() <= l.usage
  {
    TotalUsageRemove(l.entries, o);
  }

  lemma CleanSane(l: Layer, o: OutPoint)
    requires SaneLayer(l) && o in l.entries && !l.entries[o].coin.IsSpent()
    ensures SaneLayer(Clean(l, o))
  {
    RemoveKeyContents(l.flagged, o);
    TotalUsageRemove(l.entries, o);
    TotalUsagePut(l.entries, o, Entry(l.entries[o].coin, false, false));
  }

  // ---------------------------------------------------------------------------------------
  // One cache in front of a view

  lemma PutBacked(l: Layer, o: OutPoint, e: Entry, v: map<OutPoint, Coin>)
    requires Backed(l, v) && EntryBacked(e, o, v) && (EntryAt(l, o).Flagged() ==> e.Flagged())
    ensures Backed(Put(l, o, e), v)
    ensures ViewOf(Put(l, o, e), v) == if e.coin.IsSpent() then ViewOf(l, v) - {o} else ViewOf(l, v)[o := e.coin]
  {
  }

  /** Dropping an entry uncovers what is below it. */
  lemma DropBacked(l: Layer, o: OutPoint, v: map<OutPoint, Coin>)
    requires Backed(l, v)
    ensures Backed(Drop(l, o), v)
    ensures ViewOf(Drop(l, o), v) == if o in v then ViewOf(l, v)[o := v[o]] else ViewOf(l, v) - {o}
  {
  }

  /** A fetch at the top changes what is cached, possibly in every layer, but no layer's view. */
  lemma {:induction false} FetchCorrect(s: Stack, o: OutPoint)
    requires s.Cache? && Valid(s)
    ensures var f := Fetch(s, o);
            && f.Cache? && Valid(f) && Views(f) == Views(s)
            && (o in f.layer.entries || o !in View(s))
            && (o !in f.layer.entries ==> EntryAt(f.layer, o) == EntryAt(s.layer, o))
    decreases s, 0
  {
    if o !in s.layer.entries {
      GetCoinCorrect(s.base, o);
      var (b, r) := GetCoin(s.base, o);
      ViewIsFirst(s.base);
      ViewIsFirst(b);
      if r.Some? {
        var e := Entry(r.value, false, r.value.IsSpent());
        PutSane(s.layer, o, e);
        PutBacked(s.layer, o, e, View(b));
        assert View(s)[o := r.value] == View(s);
      }
    }
  }

  /** `GetCoin` answers from the view, at any depth, and keeps every layer's view. */
  lemma {:induction false} GetCoinCorrect(s: Stack, o: OutPoint)
    requires Valid(s)
    ensures var (s', r) := GetCoin(s, o);
            && Valid(s') && Views(s') == Views(s)
            && r == (if o in View(s) then Some(View(s)[o]) else None)
            && (r.Some? ==> !r.value.IsSpent())
    decreases s, 1
  {
    ViewUnspent(s);
    if s.Cache? {
      FetchCorrect(s, o);
      ViewIsFirst(s);
      ViewIsFirst(Fetch(s, o));
    }
  }

  lemma ViewIsFirst(s: Stack)
    ensures Views(s)[0] == View(s)
    ensures s.Cache? ==> Views(s)[1..] == Views(s.base)
  {
  }

  lemma ViewUnspent(s: Stack)
    requires Valid(s)
    ensures forall o :: o in View(s) ==> !View(s)[o].IsSpent()
  {
  }

  // ---------------------------------------------------------------------------------------
  // The operations of the top cache, against a plain map

  /** Adding a coin overwrites one key of the top view. The caller promises, as the source
      asks, that without `overwrite` no unspent coin is visible at `o`. */
  lemma AddCoinCorrect(s: Stack, o: OutPoint, coin: Coin, overwrite: bool)
    requires s.Cache? && Valid(s) && !coin.IsSpent()
    requires overwrite || coin.script.IsUnspendable() || o !in View(s)
    ensures !AddThrows(s.layer, o, coin, overwrite)
    ensures var s' := AddCoin(s, o, coin, overwrite);
            && s'.Cache? && Valid(s')
            && Views(s') == [if coin.script.IsUnspendable() then View(s) else View(s)[o := coin]] + Views(s.base)
  {
    if !coin.script.IsUnspendable() {
      var e := EntryAt(s.layer, o);
      var e' := Entry(coin, true, e.isFresh || (!overwrite && !e.isDirty));
      PutSane(s.layer, o, e');
      PutBacked(s.layer, o, e', View(s.base));
    }
  }

  /** The caller's promise is more than `AddCoin` checks: when it does not throw, a
      non-overwriting add keeps the cache usable exactly when the coin is absent below,
      or its spentness is still waiting here to be written. */
  lemma AddCoinExactCondition(s: Stack, o: OutPoint, coin: Coin)
    requires s.Cache? && Valid(s) && !coin.IsSpent() && !coin.script.IsUnspendable()
    requires !AddThrows(s.layer, o, coin, false)
    ensures Valid(AddCoin(s, o, coin, false)) <==> (o in View(s.base) ==> EntryAt(s.layer, o).isDirty)
  {
    var e := EntryAt(s.layer, o);
    if o in View(s.base) ==> e.isDirty {
      AddCoinCorrect(s, o, coin, false);
    } else {
      assert AddCoin(s, o, coin, false).layer.entries[o].isFresh;
    }
  }

  /** In the caller's terms: a non-overwriting add neither throws nor spoils the stack exactly
      when no unspent coin is visible at `o`. */
  lemma AddCoinSafeExactly(s: Stack, o: OutPoint, coin: Coin)
    requires s.Cache? && Valid(s) && !coin.IsSpent() && !coin.script.IsUnspendable()
    ensures !AddThrows(s.layer, o, coin, false) && Valid(AddCoin(s, o, coin, false)) <==> o !in View(s)
  {
    if o !in View(s) {
      AddCoinCorrect(s, o, coin, false);
    } else if !AddThrows(s.layer, o, coin, false) {
      AddCoinExactCondition(s, o, coin);
    }
  }

  /** A throw changes no view, but it leaves the memory total right only if the coin that was
      in the way counts for nothing. */
  lemma ThrowExactly(s: Stack, o: OutPoint, coin: Coin)
    requires s.Cache? && Valid(s) && AddThrows(s.layer, o, coin, false)
    ensures Views(AfterThrow(s, o)) == Views(s)
    ensures Valid(AfterThrow(s, o)) <==> s.layer.entries[o].coin.DynamicMemoryUsage() == 0
  {
    var t := AfterThrow(s, o);
    assert t.layer.entries == s.layer.entries && t.layer.flagged == s.layer.flagged;
    assert ViewOf(t.layer, View(s.base)) == ViewOf(s.layer, View(s.base));
    assert Backed(t.layer, View(s.base)) && ListOk(t.layer);
  }

  lemma EmptyCacheValid(coins: map<OutPoint, Coin>)
    requires forall o :: o in coins ==> !coins[o].IsSpent()
    ensures Valid(Cache(EMPTY_LAYER, Db(coins))) && View(Cache(EMPTY_LAYER, Db(coins))) == coins
  {
    assert Valid(Db(coins)) && SaneLayer(EMPTY_LAYER) && Backed(EMPTY_LAYER, coins);
    assert ViewOf(EMPTY_LAYER, coins) == coins;
  }

  /** A coin that is in the database only: adding it without permission to overwrite goes through and
      leaves an invalid stack. */
  lemma AddSpoils(o: OutPoint, coin: Coin)
    requires !coin.IsSpent() && !coin.script.IsUnspendable()
    ensures var s := Cache(EMPTY_LAYER, Db(map[o := coin]));
            Valid(s) && !AddThrows(s.layer, o, coin, false) && !Valid(AddCoin(s, o, coin, false))
  {
    var s := Cache(EMPTY_LAYER, Db(map[o := coin]));
    EmptyCacheValid(map[o := coin]);
    AddCoinSafeExactly(s, o, coin);
  }

  /** A cached coin that uses memory: adding it once more throws and leaves a wrong total. */
  lemma ThrowSpoils(o: OutPoint, coin: Coin)
    requires !coin.IsSpent() && !coin.script.IsUnspendable() && coin.DynamicMemoryUsage() > 0
    ensures var s := AddCoin(Cache(EMPTY_LAYER, Db(map[])), o, coin, false);
            && s.Cache? && Valid(s) && AddThrows(s.layer, o, coin, false)
            && Views(AfterThrow(s, o)) == Views(s) && !Valid(AfterThrow(s, o))
  {
    var empty := Cache(EMPTY_LAYER, Db(map[]));
    EmptyCacheValid(map[]);
    AddCoinCorrect(empty, o, coin, false);
    ThrowExactly(AddCoin(empty, o, coin, false), o, coin);
  }

  /** Spending removes one key of the top view and leaves every lower view alone; a coin
      is handed out exactly when one was visible (a spent, unflushed entry yields the null coin). */
  lemma SpendCoinCorrect(s: Stack, o: OutPoint)
    requires s.Cache? && Valid(s)
    ensures var (s', r) := SpendCoin(s, o);
            && s'.Cache? && Valid(s') && Views(s') == [View(s) - {o}] + Views(s.base)
            && (o in View(s) ==> r == Some(View(s)[o]))
            && (o !in View(s) ==> r == None || r == Some(NULL_COIN))
  {
    FetchCorrect(s, o);
    var f := Fetch(s, o);
    ViewIsFirst(s);
    ViewIsFirst(f);
    if o in f.layer.entries {
      if f.layer.entries[o].isFresh {
        DropSane(f.layer, o);
        DropBacked(f.layer, o, View(f.base));
      } else {
        var e := Entry(NULL_COIN, true, false);
        PutSane(f.layer, o, e);
        PutBacked(f.layer, o, e, View(f.base));
      }
    } else {
      assert View(s) - {o} == View(s);
    }
  }

  lemma UncacheCorrect(s: Stack, o: OutPoint)
    requires s.Cache? && Valid(s)
    ensures var s' := Uncache(s, o);
            && s'.Cache? && Valid(s') && Views(s') == Views(s)
            && (o in s'.layer.entries ==> s'.layer.entries[o].Flagged())
  {
    if o in s.layer.entries && !s.layer.entries[o].Flagged() {
      DropSane(s.layer, o);
      DropBacked(s.layer, o, View(s.base));
      assert View(s)[o := View(s)[o]] == View(s);
    }
  }

  // ---------------------------------------------------------------------------------------
  // Writing a child's changes into its parent

  ghost function Overwrite(v: map<OutPoint, Coin>, o: OutPoint, e: Entry): map<OutPoint, Coin> {
    if e.coin.IsSpent() then v - {o} else v[o := e.coin]
  }

  /** A parent never throws on an entry that is backed by the parent's view, and takes over
      the child's version of the coin; the views below the parent do not change. */
  lemma WriteEntryCorrect(p: Stack, o: OutPoint, e: Entry)
    requires Valid(p) && e.Allowed() && EntryBacked(e, o, View(p))
    ensures var r := WriteEntry(p, o, e);
            && r.Some? && Valid(r.value) && View(r.value) == Overwrite(View(p), o, e)
            && r.value.Cache? == p.Cache? && (p.Cache? ==> r.value.base == p.base)
  {
    if e.isDirty && p.Cache? {
      var v := View(p.base);
      var us := EntryAt(p.layer, o);
      if us.isFresh && e.coin.IsSpent() {
        DropSane(p.layer, o);
        DropBacked(p.layer, o, v);
      } else {
        var e' := Entry(e.coin, true, if o in p.layer.entries then us.isFresh else e.isFresh);
        PutSane(p.layer, o, e');
        PutBacked(p.layer, o, e', v);
      }
    } else if !e.isDirty {
      assert Overwrite(View(p), o, e) == View(p);
    }
  }

  ghost function OverwriteAll(v: map<OutPoint, Coin>, child: Layer, todo: seq<OutPoint>): map<OutPoint, Coin>
    requires forall o :: o in todo ==> o in child.entries
  {
    map o | o in v.Keys + child.entries.Keys && (o in todo ==> !child.entries[o].coin.IsSpent())
                                              && (o !in todo ==> o in v)
      :: if o in todo then child.entries[o].coin else v[o]
  }

  lemma OverwriteAllStep(v: map<OutPoint, Coin>, child: Layer, todo: seq<OutPoint>)
    requires todo != [] && Distinct(todo)
    requires forall o :: o in todo ==> o in child.entries
    ensures (forall o :: o in todo[1..] ==> o in child.entries)
    ensures OverwriteAll(Overwrite(v, todo[0], child.entries[todo[0]]), child, todo[1..]) == OverwriteAll(v, child, todo)
  {
    var o := todo[0];
    assert forall x :: x in todo <==> x == o || x in todo[1..];
    assert o !in todo[1..];
    var m1 := OverwriteAll(Overwrite(v, o, child.entries[o]), child, todo[1..]);
    var m2 := OverwriteAll(v, child, todo);
    assert m1.Keys == m2.Keys;
    assert forall x :: x in m1 ==> m1[x] == m2[x];
  }

  lemma {:induction false} BatchWriteCorrect(p: Stack, child: Layer, todo: seq<OutPoint>)
    requires Valid(p) && Distinct(todo)
    requires forall o :: o in todo ==> o in child.entries && child.entries[o].Allowed()
    requires forall o :: o in todo ==> EntryBacked(child.entries[o], o, View(p))
    ensures var r := BatchWrite(p, child, todo);
            && r.Some? && Valid(r.value) && View(r.value) == OverwriteAll(View(p), child, todo)
            && r.value.Cache? == p.Cache? && (p.Cache? ==> r.value.base == p.base)
    decreases |todo|
  {
    if todo == [] {
      assert View(p) == OverwriteAll(View(p), child, todo);
    } else {
      var o, e := todo[0], child.entries[todo[0]];
      WriteEntryCorrect(p, o, e);
      var p' := WriteEntry(p, o, e).value;
      forall x | x in todo[1..]
        ensures x in child.entries && child.entries[x].Allowed() && EntryBacked(child.entries[x], x, View(p'))
      {
        assert x in todo && x != o;
      }
      BatchWriteCorrect(p', child, todo[1..]);
      OverwriteAllStep(View(p), child, todo);
    }
  }

  /** Writing out exactly the flagged entries makes the parent show what the child shows. */
  lemma FlaggedSuffice(l: Layer, v: map<OutPoint, Coin>)
    requires SaneLayer(l) && Backed(l, v)
    ensures OverwriteAll(v, l, l.flagged) == ViewOf(l, v)
  {
    forall o
      ensures o in OverwriteAll(v, l, l.flagged) <==> o in ViewOf(l, v)
      ensures o in ViewOf(l, v) ==> OverwriteAll(v, l, l.flagged)[o] == ViewOf(l, v)[o]
    {
      if o in l.entries {
        assert EntryBacked(l.entries[o], o, v);
      }
    }
  }

  /** What the base of a cache is after its flagged entries were written into it. */
  lemma WrittenBase(s: Stack)
    requires s.Cache? && Valid(s)
    ensures var r := BatchWrite(s.base, s.layer, s.layer.flagged);
            && r.Some? && Valid(r.value) && View(r.value) == View(s)
            && r.value.Cache? == s.base.Cache? && (s.base.Cache? ==> r.value.base == s.base.base)
  {
    BatchWriteCorrect(s.base, s.layer, s.layer.flagged);
    FlaggedSuffice(s.layer, View(s.base));
  }

  lemma ViewsAfterWrite(b: Stack, b': Stack)
    requires b'.Cache? == b.Cache? && (b.Cache? ==> b'.base == b.base)
    ensures Views(b') == [View(b')] + (if b.Cache? then Views(b.base) else [])
  {
  }

  /** `Flush` cannot throw; it empties the cache, keeps its view and gives that view to the
      parent, and no other layer's view changes. */
  lemma FlushCorrect(s: Stack)
    requires s.Cache? && Valid(s)
    ensures var r := Flush(s);
            && r.Some? && Valid(r.value) && r.value.Cache?
            && r.value.layer == EMPTY_LAYER
            && Views(r.value) == [View(s), View(s)] + Views(s)[2..]
  {
    WrittenBase(s);
    var b := BatchWrite(s.base, s.layer, s.layer.flagged).value;
    assert ViewOf(EMPTY_LAYER, View(b)) == View(b);
    ViewsAfterWrite(s.base, b);
    ViewIsFirst(s);
    ViewIsFirst(s.base);
  }

  lemma HasFirst(s: seq<OutPoint>)
    requires s != []
    ensures exists o :: o in s
  {
    assert s[0] in s;
  }

  lemma DropSpent(l: Layer, o: OutPoint, v: map<OutPoint, Coin>)
    requires SaneLayer(l) && o in l.entries && l.entries[o].coin.IsSpent() && v == ViewOf(l, v)
    ensures SaneLayer(Drop(l, o)) && v == ViewOf(Drop(l, o), v)
  {
    DropSane(l, o);
    assert o !in v;
  }

  lemma CleanUnspent(l: Layer, o: OutPoint, v: map<OutPoint, Coin>)
    requires SaneLayer(l) && o in l.entries && !l.entries[o].coin.IsSpent() && v == ViewOf(l, v)
    ensures SaneLayer(Clean(l, o)) && v == ViewOf(Clean(l, o), v)
  {
    CleanSane(l, o);
  }

  lemma UnflagStep(l: Layer, o: OutPoint, v: map<OutPoint, Coin>)
    requires SaneLayer(l) && o in l.entries && v == ViewOf(l, v)
    ensures var l' := if l.entries[o].coin.IsSpent() then Drop(l, o) else Clean(l, o);
            && SaneLayer(l') && v == ViewOf(l', v)
            && (forall x :: x in l'.entries <==> x in l.entries && !(x == o && l.entries[x].coin.IsSpent()))
            && (forall x :: x in l'.entries && x != o ==> l'.entries[x] == l.entries[x])
            && (o in l'.entries ==> l'.entries[o] == Entry(l.entries[o].coin, false, false))
  {
    if l.entries[o].coin.IsSpent() {
      DropSpent(l, o, v);
    } else {
      CleanUnspent(l, o, v);
    }
  }

  /** The non-erasing pass clears all flags of `todo` and never drops a visible coin, so the
      result is backed by the view that the parent has after the write. */
  lemma {:induction false} UnflagCorrect(l: Layer, todo: seq<OutPoint>, v: map<OutPoint, Coin>)
    requires SaneLayer(l) && Distinct(todo)
    requires forall o :: o in todo ==> o in l.entries
    requires forall o :: o in l.entries && l.entries[o].Flagged() ==> o in todo
    requires v == ViewOf(l, v)
    ensures var l' := Unflag(l, todo);
            && SaneLayer(l') && Backed(l', v) && ViewOf(l', v) == v && l'.flagged == []
            && (forall o :: o in l'.entries <==> o in l.entries && !l.entries[o].coin.IsSpent())
    decreases |todo|
  {
    if todo == [] {
      if l.flagged != [] { HasFirst(l.flagged); }
    } else {
      var o := todo[0];
      var l1 := if l.entries[o].coin.IsSpent() then Drop(l, o) else Clean(l, o);
      UnflagStep(l, o, v);
      assert forall x :: x in todo <==> x == o || x in todo[1..];
      UnflagCorrect(l1, todo[1..], v);
    }
  }

  /** What the pass leaves in the cache once the parent's view is the cache's own. */
  lemma SyncedLayer(l: Layer, below: map<OutPoint, Coin>, v: map<OutPoint, Coin>)
    requires SaneLayer(l) && v == ViewOf(l, below)
    ensures var l' := Unflag(l, l.flagged);
            && SaneLayer(l') && Backed(l', v) && ViewOf(l', v) == v && l'.flagged == []
            && (forall o :: o in l'.entries <==> o in l.entries && !l.entries[o].coin.IsSpent())
  {
    assert ViewOf(l, v) == v;
    UnflagCorrect(l, l.flagged, v);
  }

  /** `Sync` cannot throw either; it keeps exactly the unspent entries, all unflagged. */
  lemma SyncCorrect(s: Stack)
    requires s.Cache? && Valid(s)
    ensures var r := Sync(s);
            && r.Some? && Valid(r.value) && r.value.Cache?
            && r.value.layer.flagged == []
            && (forall o :: o in r.value.layer.entries <==> o in s.layer.entries && !s.layer.entries[o].coin.IsSpent())
            && Views(r.value) == [View(s), View(s)] + Views(s)[2..]
  {
    WrittenBase(s);
    var b := BatchWrite(s.base, s.layer, s.layer.flagged).value;
    SyncedLayer(s.layer, View(s.base), View(b));
    ViewsAfterWrite(s.base, b);
    ViewIsFirst(s);
    ViewIsFirst(s.base);
  }

  // ---------------------------------------------------------------------------------------
  // Whole runs over a stack of any depth

  /** Flush (`erase`) or Sync of the cache `k` layers below the top. */
  function WriteAt(s: Stack, k: nat, erase: bool): Option<Stack>
    requires Valid(s) && k < Height(s)
  {
    if k == 0 then
      if erase then Flush(s) else Sync(s)
    else match WriteAt(s.base, k - 1, erase)
      case None => None
      case Some(b) => Some(s.(base := b))
  }

  lemma WriteTopCorrect(s: Stack, erase: bool)
    requires Valid(s) && s.Cache?
    ensures var r := if erase then Flush(s) else Sync(s);
            && r.Some? && Valid(r.value) && r.value.Cache?
            && Views(r.value) == Views(s)[1 := Views(s)[0]]
  {
    ViewIsFirst(s);
    FirstTwo(Views(s));
    if erase { FlushCorrect(s); } else { SyncCorrect(s); }
  }

  lemma FirstTwo(vs: seq<map<OutPoint, Coin>>)
    requires |vs| >= 2
    ensures [vs[0], vs[0]] + vs[2..] == vs[1 := vs[0]]
  {
  }

  lemma SetBase(s: Stack, b: Stack)
    requires s.Cache? && Valid(s) && Valid(b) && View(b) == View(s.base)
    ensures Valid(s.(base := b)) && Views(s.(base := b)) == [View(s)] + Views(b)
  {
  }

  lemma UpdateBelow(v: map<OutPoint, Coin>, vs: seq<map<OutPoint, Coin>>, k: nat)
    requires 0 < k < |vs|
    ensures [v] + vs[k := vs[k - 1]] == ([v] + vs)[k + 1 := ([v] + vs)[k]]
  {
  }

  /** Writing out any layer of the stack copies its view into the one below and disturbs no other. */
  lemma {:induction false} WriteAtCorrect(s: Stack, k: nat, erase: bool)
    requires Valid(s) && k < Height(s)
    ensures var r := WriteAt(s, k, erase);
            && r.Some? && Valid(r.value) && r.value.Cache?
            && Views(r.value) == Views(s)[k + 1 := Views(s)[k]]
  {
    if k == 0 {
      WriteTopCorrect(s, erase);
    } else {
      WriteAtCorrect(s.base, k - 1, erase);
      var b := WriteAt(s.base, k - 1, erase).value;
      ViewIsFirst(s);
      ViewIsFirst(s.base);
      ViewIsFirst(b);
      SetBase(s, b);
      UpdateBelow(View(s), Views(s.base), k);
    }
  }

  datatype Op =
    | Get(o: OutPoint)
    | Add(o: OutPoint, coin: Coin, overwrite: bool)
    | Spend(o: OutPoint)
    | Forget(o: OutPoint)
    | Write(layer: nat, erase: bool)

  /** What the callers of the operations promise, in terms of the plain maps `vs`. */
  ghost predicate Permitted(vs: seq<map<OutPoint, Coin>>, op: Op)
    requires |vs| >= 2
  {
    match op
    case Add(o, coin, overwrite) =>
      !coin.IsSpent() && (overwrite || coin.script.IsUnspendable() || o !in vs[0])
    case Write(k, _) => k + 1 < |vs|
    case _ => true
  }

  /** The reference semantics: one plain map per layer. */
  ghost function RefStep(vs: seq<map<OutPoint, Coin>>, op: Op): (r: seq<map<OutPoint, Coin>>)
    requires |vs| >= 2 && Permitted(vs, op)
    ensures |r| == |vs|
  {
    match op
    case Add(o, coin, _) => if coin.script.IsUnspendable() then vs else vs[0 := vs[0][o := coin]]
    case Spend(o) => vs[0 := vs[0] - {o}]
    case Write(k, _) => vs[k + 1 := vs[k]]
    case _ => vs
  }

  ghost function RefAnswer(vs: seq<map<OutPoint, Coin>>, op: Op): Option<Coin>
    requires |vs| >= 2
  {
    if (op.Get? || op.Spend?) && op.o in vs[0] then Some(vs[0][op.o]) else None
  }

  /** One operation of the cache: the new stack (None for an exception) and the unspent coin
      that `GetCoin` returned or `SpendCoin` moved out, if any. */
  function Step(s: Stack, op: Op): (Option<Stack>, Option<Coin>)
    requires s.Cache? && Valid(s)
  {
    match op
    case Get(o) => var (s', r) := GetCoin(s, o); (Some(s'), r)
    case Add(o, coin, overwrite) =>
      (if coin.IsSpent() || AddThrows(s.layer, o, coin, overwrite) then None
       else Some(AddCoin(s, o, coin, overwrite)), None)
    case Spend(o) =>
      var (s', r) := SpendCoin(s, o);
      (Some(s'), if r.Some? && !r.value.IsSpent() then r else None)
    case Forget(o) => (Some(Uncache(s, o)), None)
    case Write(k, erase) => (if k < Height(s) then WriteAt(s, k, erase) else None, None)
  }

  lemma ReplaceFirst(vs: seq<map<OutPoint, Coin>>, v: map<OutPoint, Coin>)
    requires |vs| >= 1
    ensures [v] + vs[1..] == vs[0 := v]
  {
  }

  lemma StepAddCorrect(s: Stack, op: Op)
    requires op.Add? && s.Cache? && Valid(s) && Permitted(Views(s), op)
    ensures var (r, a) := Step(s, op);
            && r.Some? && r.value.Cache? && Valid(r.value)
            && Views(r.value) == RefStep(Views(s), op) && a == None
  {
    var Add(o, coin, overwrite) := op;
    ViewIsFirst(s);
    AddCoinCorrect(s, o, coin, overwrite);
    ReplaceFirst(Views(s), if coin.script.IsUnspendable() then View(s) else View(s)[o := coin]);
  }

  lemma StepSpendCorrect(s: Stack, op: Op)
    requires op.Spend? && s.Cache? && Valid(s)
    ensures var (r, a) := Step(s, op);
            && r.Some? && r.value.Cache? && Valid(r.value)
            && Views(r.value) == RefStep(Views(s), op) && a == RefAnswer(Views(s), op)
  {
    ViewIsFirst(s);
    ViewUnspent(s);
    SpendCoinCorrect(s, op.o);
    ReplaceFirst(Views(s), View(s) - {op.o});
  }

  /** Every permitted operation does to the views, and answers, what it would on plain maps. */
  lemma StepCorrect(s: Stack, op: Op)
    requires s.Cache? && Valid(s) && Permitted(Views(s), op)
    ensures var (r, a) := Step(s, op);
            && r.Some? && r.value.Cache? && Valid(r.value)
            && Views(r.value) == RefStep(Views(s), op)
            && a == RefAnswer(Views(s), op)
  {
    ViewIsFirst(s);
    match op
    case Get(o) => GetCoinCorrect(s, o);
    case Add(_, _, _) => StepAddCorrect(s, op);
    case Spend(_) => StepSpendCorrect(s, op);
    case Forget(o) => UncacheCorrect(s, o);
    case Write(k, erase) => WriteAtCorrect(s, k, erase);
  }

  ghost predicate PermittedRun(vs: seq<map<OutPoint, Coin>>, ops: seq<Op>)
    requires |vs| >= 2
    decreases |ops|
  {
    ops != [] ==> Permitted(vs, ops[0]) && PermittedRun(RefStep(vs, ops[0]), ops[1..])
  }

  ghost function RefRun(vs: seq<map<OutPoint, Coin>>, ops: seq<Op>): (seq<map<OutPoint, Coin>>, seq<Option<Coin>>)
    requires |vs| >= 2 && PermittedRun(vs, ops)
    decreases |ops|
  {
    if ops == [] then (vs, [])
    else
      var (final, answers) := RefRun(RefStep(vs, ops[0]), ops[1..]);
      (final, [RefAnswer(vs, ops[0])] + answers)
  }

  /** A run of the real operations, stopping at the first exception. */
  ghost function Run(s: Stack, ops: seq<Op>): (Option<Stack>, seq<Option<Coin>>)
    requires s.Cache? && Valid(s) && PermittedRun(Views(s), ops)
    decreases |ops|
  {
    if ops == [] then (Some(s), [])
    else
      StepCorrect(s, ops[0]);
      var (r, a) := Step(s, ops[0]);
      if r.None? then (None, [a])
      else
        var (final, answers) := Run(r.value, ops[1..]);
        (final, [a] + answers)
  }

  /** Main result: for a stack of any depth, a run of gets, adds, spends and uncaches on the
      top cache, mixed with flushes and syncs of any layer, never throws, returns what plain
      maps would return, and leaves every layer showing exactly its plain map. */
  lemma {:induction false} RunCorrect(s: Stack, ops: seq<Op>)
    requires s.Cache? && Valid(s) && PermittedRun(Views(s), ops)
    ensures var (r, answers) := Run(s, ops);
            && r.Some? && r.value.Cache? && Valid(r.value)
            && (Views(r.value), answers) == RefRun(Views(s), ops)
    decreases |ops|
  {
    if ops != [] {
      StepCorrect(s, ops[0]);
      RunCorrect(Step(s, ops[0]).0.value, ops[1..]);
    }
  }
}
