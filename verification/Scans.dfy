/** Iterating over a store keyed by (market, voter) text, keeping one market's entries. */
module Scans {
  import opened GoInt
  import opened Results
  import opened Decimal
  import opened Ordered

  /** The test in the iteration's body: None when the slice of the key is out of range. */
  function Matches(key: string, marketId: nat): Option<bool> {
    if key == "" then Some(false)
    else if |key| < |Prefix(marketId)| then None
    else Some(key[..|Prefix(marketId)|] == Prefix(marketId))
  }

  /** The values collected from the keys, in order; None when the iteration panics. */
  function Scan<V>(store: map<string, V>, keys: seq<string>, marketId: nat): Option<seq<V>>
    requires forall k :: k in keys ==> k in store
  {
    if keys == [] then Some([])
    else
      var n := |keys| - 1;
      var front := Scan(store, keys[..n], marketId);
      var hit := Matches(keys[n], marketId);
      if front.None? || hit.None? then None
      else Some(if hit.value then front.value + [store[keys[n]]] else front.value)
  }

  /** The plain form: the values whose market is marketId, in key order. */
  function Select<V>(store: map<string, V>, keys: seq<string>, marketOf: V -> nat, marketId: nat): seq<V>
    requires forall k :: k in keys ==> k in store
  {
    if keys == [] then []
    else
      var n := |keys| - 1;
      var front := Select(store, keys[..n], marketOf, marketId);
      if marketOf(store[keys[n]]) == marketId then front + [store[keys[n]]] else front
  }

  /** Every value is stored under the key made from its own market and voter. */
  ghost predicate WellKeyed<V>(store: map<string, V>, marketOf: V -> nat, voterOf: V -> string) {
    forall k :: k in store ==> k == MarketVoterKey(marketOf(store[k]), voterOf(store[k]))
  }

  lemma StoreKeeps<V>(store: map<string, V>, key: string, v: V, marketOf: V -> nat, voterOf: V -> string)
    requires WellKeyed(store, marketOf, voterOf) && key == MarketVoterKey(marketOf(v), voterOf(v))
    ensures WellKeyed(store[key := v], marketOf, voterOf)
  {
  }

  /** No key is too short to be sliced. */
  ghost predicate Sliceable(keys: seq<string>, marketId: nat) {
    forall i :: 0 <= i < |keys| ==> keys[i] == "" || |keys[i]| >= |Prefix(marketId)|
  }

  /** The text test on a key made from (m, v) asks exactly whether m is the market. */
  lemma MatchesExact(marketId: nat, m: nat, v: string)
    ensures var key := MarketVoterKey(m, v);
      Matches(key, marketId) == if |key| < |Prefix(marketId)| then None else Some(m == marketId)
  {
    var key := MarketVoterKey(m, v);
    if |key| >= |Prefix(marketId)| && key[..|Prefix(marketId)|] == Prefix(marketId) {
      PrefixDecides(marketId, m, v);
    }
    if m == marketId {
      assert key[..|Prefix(marketId)|] == Prefix(marketId);
    }
  }

  /** The prefix scan is the plain filter, or panics, and it panics exactly when some
      key is shorter than the prefix. */
  lemma {:induction false} ScanExact<V>(store: map<string, V>, keys: seq<string>, marketOf: V -> nat,
                                        voterOf: V -> string, marketId: nat)
    requires forall k :: k in keys ==> k in store
    requires WellKeyed(store, marketOf, voterOf)
    ensures Scan(store, keys, marketId)
         == if Sliceable(keys, marketId) then Some(Select(store, keys, marketOf, marketId)) else None
  {
    if keys != [] {
      var n := |keys| - 1;
      ScanExact(store, keys[..n], marketOf, voterOf, marketId);
      MatchesExact(marketId, marketOf(store[keys[n]]), voterOf(store[keys[n]]));
      assert keys[n] == MarketVoterKey(marketOf(store[keys[n]]), voterOf(store[keys[n]]));
      assert Sliceable(keys, marketId)
        <==> Sliceable(keys[..n], marketId) && (keys[n] == "" || |keys[n]| >= |Prefix(marketId)|);
    }
  }

  /** Voters of 19 characters or more keep every key long enough, whatever the market. */
  lemma LongVotersSliceable<V>(store: map<string, V>, keys: seq<string>, marketOf: V -> nat,
                               voterOf: V -> string, marketId: uint64)
    requires forall k :: k in keys ==> k in store
    requires WellKeyed(store, marketOf, voterOf)
    requires forall k :: k in store ==> |voterOf(store[k])| >= 19
    ensures Sliceable(keys, marketId)
  {
    Uint64Text(marketId);
    forall i | 0 <= i < |keys| ensures |keys[i]| >= |Prefix(marketId)| {
      var v := store[keys[i]];
      assert keys[i] == MarketVoterKey(marketOf(v), voterOf(v));
    }
  }

  /** One short voter makes the scan of another market panic. */
  lemma ShortVoterPanics<V>(v: V)
    ensures Scan(map[MarketVoterKey(1, "al") := v], [MarketVoterKey(1, "al")], 1000) == None
  {
    assert Text(1) == "1";
    assert |Text(1000)| == 4 by {
      assert |Text(1000 / 10)| == 1 + |Text(1000 / 100)|;
      assert |Text(1000 / 100)| == 1 + |Text(1)|;
    }
    assert Matches(MarketVoterKey(1, "al"), 1000) == None;
  }

  // ---------- What the filter yields ----------

  /** The keys, out of keys, whose value belongs to the market. */
  ghost function KeysOf<V>(store: map<string, V>, keys: set<string>, marketOf: V -> nat, marketId: nat): set<string>
    requires keys <= store.Keys
  {
    set k | k in keys && marketOf(store[k]) == marketId
  }

  ghost function Elements<V>(s: seq<V>): set<V> {
    set x | x in s
  }

  /** As many values as keys, over any listing of keys without repeats. */
  lemma {:induction false} SelectCount<V>(store: map<string, V>, keys: seq<string>, marketOf: V -> nat, marketId: nat)
    requires forall k :: k in keys ==> k in store
    requires forall i, j :: 0 <= i < j < |keys| ==> keys[i] != keys[j]
    ensures |Select(store, keys, marketOf, marketId)| == |KeysOf(store, Elements(keys), marketOf, marketId)|
  {
    if keys != [] {
      var n := |keys| - 1;
      SelectCount(store, keys[..n], marketOf, marketId);
      assert Elements(keys) == Elements(keys[..n]) + {keys[n]};
      CountOne(store, Elements(keys[..n]), keys[n], marketOf, marketId);
    }
  }

  lemma CountOne<V>(store: map<string, V>, keys: set<string>, k: string, marketOf: V -> nat, marketId: nat)
    requires keys + {k} <= store.Keys && k !in keys
    ensures |KeysOf(store, keys + {k}, marketOf, marketId)|
         == |KeysOf(store, keys, marketOf, marketId)| + if marketOf(store[k]) == marketId then 1 else 0
  {
    var before := KeysOf(store, keys, marketOf, marketId);
    assert KeysOf(store, keys + {k}, marketOf, marketId)
      == if marketOf(store[k]) == marketId then before + {k} else before;
  }

  /** x is what some of the keys hold for the market. */
  ghost predicate Held<V>(store: map<string, V>, keys: seq<string>, marketOf: V -> nat, marketId: nat, x: V)
    requires forall k :: k in keys ==> k in store
  {
    marketOf(x) == marketId && exists k :: k in keys && store[k] == x
  }

  lemma {:induction false} SelectExact<V>(store: map<string, V>, keys: seq<string>, marketOf: V -> nat,
        marketId: nat, x: V)
    requires forall k :: k in keys ==> k in store
    ensures x in Select(store, keys, marketOf, marketId) <==> Held(store, keys, marketOf, marketId, x)
  {
    if keys != [] {
      var n := |keys| - 1;
      SelectExact(store, keys[..n], marketOf, marketId, x);
      assert keys == keys[..n] + [keys[n]];
    }
  }

  /** No voter twice: distinct keys of one market have distinct voters. */
  lemma {:induction false} SelectVoters<V>(store: map<string, V>, keys: seq<string>, marketOf: V -> nat,
                                           voterOf: V -> string, marketId: nat)
    requires forall k :: k in keys ==> k in store
    requires forall i, j :: 0 <= i < j < |keys| ==> keys[i] != keys[j]
    requires WellKeyed(store, marketOf, voterOf)
    ensures var r := Select(store, keys, marketOf, marketId);
      forall i, j :: 0 <= i < j < |r| ==> voterOf(r[i]) != voterOf(r[j])
  {
    if keys != [] {
      var n := |keys| - 1;
      var front, k := keys[..n], keys[n];
      SelectVoters(store, front, marketOf, voterOf, marketId);
      var r := Select(store, front, marketOf, marketId);
      if marketOf(store[k]) == marketId {
        forall i | 0 <= i < |r| ensures voterOf(r[i]) != voterOf(store[k]) {
          SelectExact(store, front, marketOf, marketId, r[i]);
          var j :| j in front && store[j] == r[i];
          assert j != k;
        }
        var all := Select(store, keys, marketOf, marketId);
        assert all == r + [store[k]];
        forall i, j | 0 <= i < j < |all| ensures voterOf(all[i]) != voterOf(all[j]) {
          assert all[i] == r[i];
        }
      }
    }
  }

  /** The whole store, listed by the key iterator. */
  function All<V>(store: map<string, V>, marketId: nat): Option<seq<V>> {
    Scan(store, StrKeys(store.Keys), marketId)
  }

  ghost function Entries<V>(store: map<string, V>, marketOf: V -> nat, marketId: nat): seq<V> {
    Select(store, StrKeys(store.Keys), marketOf, marketId)
  }

  /** Every key of the store is at least as long as the market's prefix. */
  ghost predicate LongKeys<V>(store: map<string, V>, marketId: nat) {
    forall k :: k in store && k != "" ==> |k| >= |Prefix(marketId)|
  }

  lemma AllExact<V>(store: map<string, V>, marketOf: V -> nat, voterOf: V -> string, marketId: nat)
    requires WellKeyed(store, marketOf, voterOf)
    ensures All(store, marketId) == if LongKeys(store, marketId) then Some(Entries(store, marketOf, marketId)) else None
  {
    var keys := StrKeys(store.Keys);
    ScanExact(store, keys, marketOf, voterOf, marketId);
    assert Sliceable(keys, marketId) <==> LongKeys(store, marketId) by {
      if LongKeys(store, marketId) {
        assert forall i :: 0 <= i < |keys| ==> keys[i] in store;
      }
      if Sliceable(keys, marketId) {
        forall k | k in store && k != "" ensures |k| >= |Prefix(marketId)| {
          assert k in keys;
        }
      }
    }
  }

  /** The entries of a market: exactly its values, one per key and one per voter. */
  lemma EntriesExact<V>(store: map<string, V>, marketOf: V -> nat, voterOf: V -> string, marketId: nat)
    requires WellKeyed(store, marketOf, voterOf)
    ensures var r := Entries(store, marketOf, marketId);
      && |r| == |KeysOf(store, store.Keys, marketOf, marketId)|
      && (forall x :: x in r <==> marketOf(x) == marketId && x in store.Values)
      && (forall i, j :: 0 <= i < j < |r| ==> voterOf(r[i]) != voterOf(r[j]))
  {
    EntriesCount(store, marketOf, marketId);
    EntriesVoters(store, marketOf, voterOf, marketId);
    forall x ensures x in Entries(store, marketOf, marketId) <==> marketOf(x) == marketId && x in store.Values {
      EntryExact(store, marketOf, marketId, x);
    }
  }

  lemma EntriesCount<V>(store: map<string, V>, marketOf: V -> nat, marketId: nat)
    ensures |Entries(store, marketOf, marketId)| == |KeysOf(store, store.Keys, marketOf, marketId)|
  {
    StrKeysAscend(store.Keys);
    var keys := StrKeys(store.Keys);
    SelectCount(store, keys, marketOf, marketId);
    assert Elements(keys) == store.Keys;
  }

  lemma EntriesVoters<V>(store: map<string, V>, marketOf: V -> nat, voterOf: V -> string, marketId: nat)
    requires WellKeyed(store, marketOf, voterOf)
    ensures var r := Entries(store, marketOf, marketId);
      forall i, j :: 0 <= i < j < |r| ==> voterOf(r[i]) != voterOf(r[j])
  {
    StrKeysAscend(store.Keys);
    var keys := StrKeys(store.Keys);
    SelectVoters(store, keys, marketOf, voterOf, marketId);
    assert Entries(store, marketOf, marketId) == Select(store, keys, marketOf, marketId);
  }

  lemma EntryExact<V>(store: map<string, V>, marketOf: V -> nat, marketId: nat, x: V)
    ensures x in Entries(store, marketOf, marketId) <==> marketOf(x) == marketId && x in store.Values
  {
    var keys := StrKeys(store.Keys);
    SelectExact(store, keys, marketOf, marketId, x);
    HeldInStore(store, keys, marketOf, marketId, x);
  }

  lemma HeldInStore<V>(store: map<string, V>, keys: seq<string>, marketOf: V -> nat, marketId: nat, x: V)
    requires forall k :: k in keys <==> k in store
    ensures Held(store, keys, marketOf, marketId, x) <==> marketOf(x) == marketId && x in store.Values
  {
    if x in store.Values {
      var k :| k in store && store[k] == x;
      assert k in keys;
    }
  }
}
