/** What the operations of the coin cache leave in the cache itself: which entries there are, and with
    which flags. The views do not show this; it is what makes the cache save work. */
module CoinsExact {
  import opened Collections
  import opened CoinsSpec

  ghost predicate Cached(s: Stack, o: OutPoint)
    requires s.Cache?
  {
    o in s.layer.entries
  }

  /** Fetching puts a visible coin that is not cached into the cache, without flags, and does nothing
      else to it. */
  lemma FetchExact(s: Stack, o: OutPoint)
    requires s.Cache? && Valid(s)
    ensures var f := Fetch(s, o);
            && f.Cache? && f.layer.flagged == s.layer.flagged
            && f.layer.entries == if Cached(s, o) || o !in View(s) then s.layer.entries
                                  else s.layer.entries[o := Entry(View(s)[o], false, false)]
  {
    if !Cached(s, o) {
      GetCoinCorrect(s.base, o);
    }
  }

  /** An added coin is DIRTY. It is FRESH exactly if it was already, or if the caller does not allow
      overwriting and no change of the outpoint is waiting to be written. */
  lemma AddExact(s: Stack, o: OutPoint, coin: Coin, overwrite: bool)
    requires s.Cache? && !coin.IsSpent() && !coin.script.IsUnspendable() && !AddThrows(s.layer, o, coin, overwrite)
    ensures var s', was := AddCoin(s, o, coin, overwrite), s.layer.entries;
            && s'.Cache? && s'.base == s.base && Cached(s', o) && s'.layer.entries == was[o := s'.layer.entries[o]]
            && s'.layer.entries[o].coin == coin && s'.layer.entries[o].isDirty
            && (s'.layer.entries[o].isFresh <==> (o in was && was[o].isFresh) || (!overwrite && (o in was ==> !was[o].isDirty)))
  {}

  /** `AddCoin` throws exactly if overwriting is not allowed and an unspent coin is cached. */
  lemma AddThrowsExactly(s: Stack, o: OutPoint, coin: Coin, overwrite: bool)
    requires s.Cache?
    ensures AddThrows(s.layer, o, coin, overwrite) <==>
              !overwrite && !coin.script.IsUnspendable() && Cached(s, o) && !s.layer.entries[o].coin.IsSpent()
  {}

  /** Spending a FRESH entry removes it; any other becomes a DIRTY null coin, to be written. Nothing
      happens to an outpoint that is neither cached nor visible. */
  lemma SpendExact(s: Stack, o: OutPoint)
    requires s.Cache? && Valid(s)
    ensures var (s', r) := SpendCoin(s, o);
            && s'.Cache?
            && (!Cached(s, o) && o !in View(s) ==> r == None && s'.layer == s.layer)
            && (Cached(s, o) || o in View(s) ==>
                  && r == Some(if Cached(s, o) then s.layer.entries[o].coin else View(s)[o])
                  && s'.layer.entries == if Cached(s, o) && s.layer.entries[o].isFresh then s.layer.entries - {o}
                                         else s.layer.entries[o := Entry(NULL_COIN, true, false)])
  {
    FetchExact(s, o);
    FetchCorrect(s, o);
  }

  /** A coin that is created and spent between two flushes leaves no entry behind, so nothing is ever
      written for it. */
  lemma CreatedAndSpent(s: Stack, o: OutPoint, coin: Coin)
    requires s.Cache? && Valid(s) && !coin.IsSpent() && !coin.script.IsUnspendable() && o !in View(s) && !Cached(s, o)
    ensures !AddThrows(s.layer, o, coin, false)
    ensures var (t, r) := SpendCoin(AddCoin(s, o, coin, false), o);
            r == Some(coin) && t.Cache? && t.layer.entries == s.layer.entries && t.layer.flagged == s.layer.flagged && t.base == s.base
  {
    AddCoinCorrect(s, o, coin, false);
    AddExact(s, o, coin, false);
    var a := AddCoin(s, o, coin, false);
    SpendExact(a, o);
    assert a.layer.entries - {o} == s.layer.entries;
    AppendedRemoved(s.layer.flagged, o);
  }

  lemma {:induction false} AppendedRemoved(s: seq<OutPoint>, o: OutPoint)
    requires o !in s
    ensures RemoveKey(s + [o], o) == s
  {
    if s != [] {
      AppendedRemoved(s[1..], o);
      assert (s + [o])[1..] == s[1..] + [o];
    }
  }

  lemma UncacheExact(s: Stack, o: OutPoint)
    requires s.Cache?
    ensures var s' := Uncache(s, o);
            && s'.Cache? && s'.base == s.base
            && s'.layer.entries == if Cached(s, o) && !s.layer.entries[o].isDirty && !s.layer.entries[o].isFresh
                                   then s.layer.entries - {o} else s.layer.entries
  {
    if !Cached(s, o) { assert s.layer.entries - {o} == s.layer.entries; }
  }

  /** What a parent cache does with a DIRTY entry of its child: a coin that the parent need not know of is
      left out or removed, and any other is taken over as DIRTY, FRESH if the parent had no entry and the
      child's is, or if the parent's was. It throws exactly for a FRESH entry over an unspent coin. */
  lemma WriteExact(p: Stack, o: OutPoint, e: Entry)
    requires p.Cache? && e.isDirty
    ensures var r, was := WriteEntry(p, o, e), p.layer.entries;
            && (r.None? <==> o in was && e.isFresh && !was[o].coin.IsSpent())
            && (r.Some? ==>
                  var absent := if o in was then was[o].isFresh else e.isFresh;
                  && r.value.Cache? && r.value.base == p.base
                  && r.value.layer.entries == if absent && e.coin.IsSpent() then was - {o} else was[o := Entry(e.coin, true, absent)])
  {
    if o !in p.layer.entries { assert p.layer.entries - {o} == p.layer.entries; }
  }

  /** A database stores the DIRTY entries: spent coins are erased and others written. */
  lemma WriteDbExact(coins: map<OutPoint, Coin>, o: OutPoint, e: Entry)
    ensures WriteEntry(Db(coins), o, e) == Some(Db(if !e.isDirty then coins else if e.coin.IsSpent() then coins - {o} else coins[o := e.coin]))
  {}
}
