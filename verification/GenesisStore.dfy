/** Exporting the settlement stores to a genesis state and loading one back. */
module GenesisStore {
  import opened GoInt
  import opened Messages
  import opened Decimal
  import opened Ordered
  import opened Scans
  import opened Tally
  import opened Settlement
  import opened SettlementRuns

  /** The three exported stores. */
  datatype Stores = Stores(commits: map<string, Commit>, revealed: map<string, Reveal>, outcomes: map<uint64, string>)

  /** What the iteration over a store collects. */
  function Values<V>(store: map<string, V>, keys: seq<string>): seq<V>
    requires forall k :: k in keys ==> k in store
  {
    if keys == [] then [] else Values(store, keys[..|keys| - 1]) + [store[keys[|keys| - 1]]]
  }

  function Pairs(store: map<uint64, string>, keys: seq<uint64>): seq<MarketOutcome<string>>
    requires forall k :: k in keys ==> k in store
  {
    if keys == [] then []
    else
      var k := keys[|keys| - 1];
      Pairs(store, keys[..|keys| - 1]) + [MarketOutcome(k, store[k])]
  }

  /** SetCommit or SetReveal of each value: the key is made again from the value. */
  function PutAll<V>(store: map<string, V>, values: seq<V>, marketOf: V -> nat, voterOf: V -> string): map<string, V> {
    if values == [] then store
    else
      var v := values[|values| - 1];
      PutAll(store, values[..|values| - 1], marketOf, voterOf)[MarketVoterKey(marketOf(v), voterOf(v)) := v]
  }

  function PutOutcomes(store: map<uint64, string>, values: seq<MarketOutcome<string>>): map<uint64, string> {
    if values == [] then store
    else
      var v := values[|values| - 1];
      PutOutcomes(store, values[..|values| - 1])[v.marketId := v.outcome]
  }

  predicate MarketIdLe(a: uint64, b: uint64) {
    a <= b
  }

  lemma MarketIdOrder()
    ensures TotalOrder(MarketIdLe)
  {
  }

  function MarketIds(s: set<uint64>): (keys: seq<uint64>)
    ensures forall k :: k in keys <==> k in s
  {
    MarketIdOrder();
    AscendingExact(MarketIdLe, s);
    Ascending(MarketIdLe, s)
  }

  function Export(s: Stores): GenesisState<string> {
    GenesisState(Params, Values(s.commits, StrKeys(s.commits.Keys)), Values(s.revealed, StrKeys(s.revealed.Keys)),
                 Pairs(s.outcomes, MarketIds(s.outcomes.Keys)))
  }

  function Import(s: Stores, g: GenesisState<string>): Stores {
    Stores(PutAll(s.commits, g.commits, CommitMarket, CommitVoter),
           PutAll(s.revealed, g.revealed, RevealMarket, RevealVoter),
           PutOutcomes(s.outcomes, g.outcomes))
  }

  function Empty(): Stores {
    Stores(map[], map[], map[])
  }

  lemma {:induction false} PutAllKeyed<V>(values: seq<V>, marketOf: V -> nat, voterOf: V -> string)
    ensures WellKeyed(PutAll(map[], values, marketOf, voterOf), marketOf, voterOf)
  {
    if values != [] {
      var v := values[|values| - 1];
      var front := values[..|values| - 1];
      PutAllKeyed(front, marketOf, voterOf);
      StoreKeeps(PutAll(map[], front, marketOf, voterOf), MarketVoterKey(marketOf(v), voterOf(v)), v,
                 marketOf, voterOf);
    }
  }

  /** The part of a store under some keys. */
  ghost function Under<K, V>(store: map<K, V>, keys: seq<K>): map<K, V> {
    map k | k in keys && k in store :: store[k]
  }

  lemma {:induction false} PutBack<V>(store: map<string, V>, keys: seq<string>, marketOf: V -> nat,
        voterOf: V -> string)
    requires forall k :: k in keys ==> k in store
    requires WellKeyed(store, marketOf, voterOf)
    ensures PutAll(map[], Values(store, keys), marketOf, voterOf) == Under(store, keys)
  {
    if keys == [] {
      assert Under(store, keys) == map[];
    } else {
      var n := |keys| - 1;
      var vs := Values(store, keys);
      PutBack(store, keys[..n], marketOf, voterOf);
      assert vs[..|vs| - 1] == Values(store, keys[..n]) && vs[|vs| - 1] == store[keys[n]];
      UnderOne(store, keys);
      assert keys[n] == MarketVoterKey(marketOf(store[keys[n]]), voterOf(store[keys[n]]));
    }
  }

  lemma UnderOne<K, V>(store: map<K, V>, keys: seq<K>)
    requires keys != [] && keys[|keys| - 1] in store
    ensures var n := |keys| - 1;
      Under(store, keys) == Under(store, keys[..n])[keys[n] := store[keys[n]]]
  {
    assert keys == keys[..|keys| - 1] + [keys[|keys| - 1]];
  }

  lemma {:induction false} PutBackOutcomes(store: map<uint64, string>, keys: seq<uint64>)
    requires forall k :: k in keys ==> k in store
    ensures PutOutcomes(map[], Pairs(store, keys)) == Under(store, keys)
  {
    if keys == [] {
      assert Under(store, keys) == map[];
    } else {
      var n := |keys| - 1;
      var ps := Pairs(store, keys);
      PutBackOutcomes(store, keys[..n]);
      assert ps[..|ps| - 1] == Pairs(store, keys[..n]) && ps[|ps| - 1] == MarketOutcome(keys[n], store[keys[n]]);
      UnderOne(store, keys);
    }
  }

  /** Loading an exported store gives it back exactly when every value is stored under
      the key made from it. */
  lemma StoreRoundTrip<V>(store: map<string, V>, marketOf: V -> nat, voterOf: V -> string)
    ensures PutAll(map[], Values(store, StrKeys(store.Keys)), marketOf, voterOf) == store
       <==> WellKeyed(store, marketOf, voterOf)
  {
    PutAllKeyed(Values(store, StrKeys(store.Keys)), marketOf, voterOf);
    if WellKeyed(store, marketOf, voterOf) {
      PutBack(store, StrKeys(store.Keys), marketOf, voterOf);
      assert Under(store, StrKeys(store.Keys)) == store;
    }
  }

  /** When export and import into empty stores restore all three. */
  lemma GenesisRoundTrips(s: Stores)
    ensures Import(Empty(), Export(s)) == s
       <==> WellKeyed(s.commits, CommitMarket, CommitVoter) && WellKeyed(s.revealed, RevealMarket, RevealVoter)
  {
    StoreRoundTrip(s.commits, CommitMarket, CommitVoter);
    StoreRoundTrip(s.revealed, RevealMarket, RevealVoter);
    PutBackOutcomes(s.outcomes, MarketIds(s.outcomes.Keys));
    assert Under(s.outcomes, MarketIds(s.outcomes.Keys)) == s.outcomes;
  }

  ghost function StoresOf(w: World): Stores {
    Stores(w.commits, w.revealed, w.outcomes)
  }

  /** The stores of every run survive export and import. */
  lemma ReachableRoundTrips(p: Primitives, events: seq<Event>)
    requires Clocked(events)
    ensures Import(Empty(), Export(StoresOf(Run(p, events)))) == StoresOf(Run(p, events))
  {
    RunKeeps(p, events);
    GenesisRoundTrips(StoresOf(Run(p, events)));
  }

  // ---------- Either direction, whatever the lists ----------

  /** values[i] is the last one that is stored under key. */
  ghost predicate LastUnder<V>(values: seq<V>, marketOf: V -> nat, voterOf: V -> string, key: string, i: nat) {
    && i < |values| && Text(marketOf(values[i])) + "/" + voterOf(values[i]) == key
    && forall j :: i < j < |values| ==> Text(marketOf(values[j])) + "/" + voterOf(values[j]) != key
  }

  /** Importing overwrites: under each key is the last value of the list for it. */
  lemma {:induction false} LastWins<V>(store: map<string, V>, values: seq<V>, marketOf: V -> nat, voterOf: V -> string,
        key: string, i: nat)
    requires LastUnder(values, marketOf, voterOf, key, i)
    ensures key in PutAll(store, values, marketOf, voterOf)
    ensures PutAll(store, values, marketOf, voterOf)[key] == values[i]
  {
    var n := |values| - 1;
    if i < n {
      assert LastUnder(values[..n], marketOf, voterOf, key, i);
      LastWins(store, values[..n], marketOf, voterOf, key, i);
      assert MarketVoterKey(marketOf(values[n]), voterOf(values[n])) != key;
    }
  }

  /** What the list has nothing for stays as it was. */
  lemma {:induction false} OthersStay<V>(store: map<string, V>, values: seq<V>, marketOf: V -> nat,
        voterOf: V -> string, key: string)
    requires forall j :: 0 <= j < |values| ==> Text(marketOf(values[j])) + "/" + voterOf(values[j]) != key
    ensures key in PutAll(store, values, marketOf, voterOf) <==> key in store
    ensures key in store ==> PutAll(store, values, marketOf, voterOf)[key] == store[key]
  {
    if values != [] {
      var n := |values| - 1;
      OthersStay(store, values[..n], marketOf, voterOf, key);
      assert MarketVoterKey(marketOf(values[n]), voterOf(values[n])) != key;
    }
  }

  lemma {:induction false} ValuesAt<V>(store: map<string, V>, keys: seq<string>)
    requires forall k :: k in keys ==> k in store
    ensures |Values(store, keys)| == |keys|
    ensures forall i :: 0 <= i < |keys| ==> keys[i] in store && Values(store, keys)[i] == store[keys[i]]
  {
    if keys != [] {
      ValuesAt(store, keys[..|keys| - 1]);
    }
  }

  /** Exporting a store lists every record once, by ascending key. */
  lemma ExportExact<V>(store: map<string, V>) returns (keys: seq<string>)
    ensures IsAscending(StrLe, keys) && |keys| == |store| && forall k :: k in keys <==> k in store
    ensures |Values(store, StrKeys(store.Keys))| == |keys|
    ensures forall i :: 0 <= i < |keys| ==>
      keys[i] in store && Values(store, StrKeys(store.Keys))[i] == store[keys[i]]
  {
    keys := StrKeys(store.Keys);
    StrKeysAscend(store.Keys);
    ValuesAt(store, keys);
  }
}
