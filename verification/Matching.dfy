/** Order matching as functions: which orders a taker meets, in what order, how
    much each one gives, and what that does to the store. */
module Matching {
  import opened Ordered
  import opened PredictionTypes

  type Orders = map<nat, Order>

  /** Every order is stored under its own id. */
  ghost predicate Keyed(orders: Orders) {
    forall k :: k in orders ==> orders[k].id == k
  }

  // ---------- Candidates ----------

  predicate Crosses(env: Env, taker: Order, o: Order) {
    || (taker.side == Buy && Price(env, o) <= Price(env, taker))
    || (taker.side == Sell && Price(env, o) >= Price(env, taker))
  }

  /** A resting order the taker may trade with: OPEN, not partially filled. */
  predicate IsCandidate(env: Env, taker: Order, o: Order) {
    && o.marketId == taker.marketId && o.outcomeIndex == taker.outcomeIndex
    && o.status == Open && o.side != taker.side && Crosses(env, taker, o)
  }

  /** The orders of one book among the given keys. */
  function Select(orders: Orders, keys: seq<nat>, marketId: nat, outcomeIndex: nat): seq<Order> {
    if keys == [] then []
    else
      var n := |keys| - 1;
      Select(orders, keys[..n], marketId, outcomeIndex)
        + if keys[n] in orders && orders[keys[n]].marketId == marketId && orders[keys[n]].outcomeIndex == outcomeIndex
          then [orders[keys[n]]] else []
  }

  /** All orders of one book, by ascending id. */
  function BookOrders(orders: Orders, marketId: nat, outcomeIndex: nat): seq<Order> {
    Select(orders, IdKeys(orders.Keys), marketId, outcomeIndex)
  }

  function Crossing(env: Env, taker: Order, book: seq<Order>): seq<Order> {
    if book == [] then []
    else
      var n := |book| - 1;
      Crossing(env, taker, book[..n])
        + if book[n].status == Open && book[n].side != taker.side && Crosses(env, taker, book[n]) then [book[n]] else []
  }

  /** The orders the taker may trade with, by ascending id. */
  function Candidates(env: Env, orders: Orders, taker: Order): seq<Order> {
    Crossing(env, taker, BookOrders(orders, taker.marketId, taker.outcomeIndex))
  }

  ghost predicate IdsAscend(s: seq<Order>) {
    forall i, j :: 0 <= i < j < |s| ==> s[i].id < s[j].id
  }

  lemma {:induction false} SelectExact(orders: Orders, keys: seq<nat>, marketId: nat, outcomeIndex: nat)
    requires Keyed(orders) && IsAscending(IdLe, keys) && forall k :: k in keys ==> k in orders
    ensures var r := Select(orders, keys, marketId, outcomeIndex);
      && IdsAscend(r)
      && (forall o :: o in r <==>
            o.id in keys && orders[o.id] == o && o.marketId == marketId && o.outcomeIndex == outcomeIndex)
  {
    if keys != [] {
      var n := |keys| - 1;
      var front, last := keys[..n], orders[keys[n]];
      SelectExact(orders, front, marketId, outcomeIndex);
      assert forall k :: k in keys <==> k in front || k == keys[n];
      var r := Select(orders, front, marketId, outcomeIndex);
      assert forall i :: 0 <= i < |r| ==> r[i] in r;
      assert forall i :: 0 <= i < n ==> keys[i] == front[i] && keys[i] < keys[n];
    }
  }

  lemma {:induction false} CrossingExact(env: Env, taker: Order, book: seq<Order>)
    requires IdsAscend(book)
    ensures var r := Crossing(env, taker, book);
      && IdsAscend(r)
      && (forall o :: o in r <==> o in book && o.status == Open && o.side != taker.side && Crosses(env, taker, o))
  {
    if book != [] {
      var n := |book| - 1;
      var front := book[..n];
      CrossingExact(env, taker, front);
      var r := Crossing(env, taker, front);
      assert forall o :: o in book <==> o in front || o == book[n];
      assert forall i :: 0 <= i < |r| ==> r[i] in r;
    }
  }

  /** The candidates are exactly the stored orders that qualify, each once, by ascending id. */
  lemma CandidatesExact(env: Env, orders: Orders, taker: Order)
    requires Keyed(orders)
    ensures var r := Candidates(env, orders, taker);
      && IdsAscend(r)
      && (forall o :: o in r <==> o.id in orders && orders[o.id] == o && IsCandidate(env, taker, o))
  {
    IdKeysAscend(orders.Keys);
    SelectExact(orders, IdKeys(orders.Keys), taker.marketId, taker.outcomeIndex);
    CrossingExact(env, taker, BookOrders(orders, taker.marketId, taker.outcomeIndex));
  }

  // ---------- Price-time priority ----------

  /** The price as the taker ranks it: lowest ask first, highest bid first. */
  function Rank(env: Env, taker: Order, o: Order): int {
    if taker.side == Buy then Price(env, o) else -Price(env, o)
  }

  /** The comparator handed to the stable sort. */
  predicate Less(env: Env, taker: Order, a: Order, b: Order) {
    if Rank(env, taker, a) != Rank(env, taker, b) then Rank(env, taker, a) < Rank(env, taker, b)
    else a.createdAt < b.createdAt
  }

  function Insert(env: Env, taker: Order, x: Order, s: seq<Order>): seq<Order> {
    if s == [] || !Less(env, taker, s[0], x) then [x] + s else [s[0]] + Insert(env, taker, x, s[1..])
  }

  /** sort.SliceStable. */
  function StableSort(env: Env, taker: Order, s: seq<Order>): seq<Order> {
    if s == [] then [] else Insert(env, taker, s[0], StableSort(env, taker, s[1..]))
  }

  /** Priority: price, then creation time, then id. */
  predicate Before(env: Env, taker: Order, a: Order, b: Order) {
    || Less(env, taker, a, b)
    || (!Less(env, taker, b, a) && a.id < b.id)
  }

  ghost predicate ByPriority(env: Env, taker: Order, s: seq<Order>) {
    forall i, j :: 0 <= i < j < |s| ==> Before(env, taker, s[i], s[j])
  }

  lemma {:induction false} InsertContents(env: Env, taker: Order, x: Order, s: seq<Order>)
    ensures multiset(Insert(env, taker, x, s)) == multiset(s) + multiset{x}
  {
    if s != [] && Less(env, taker, s[0], x) {
      assert s == [s[0]] + s[1..];
      InsertContents(env, taker, x, s[1..]);
    }
  }

  lemma {:induction false} InsertKeeps(env: Env, taker: Order, x: Order, s: seq<Order>)
    requires ByPriority(env, taker, s)
    requires forall k :: 0 <= k < |s| ==> x.id < s[k].id
    ensures ByPriority(env, taker, Insert(env, taker, x, s))
  {
    if s != [] && Less(env, taker, s[0], x) {
      var rest := s[1..];
      assert forall k :: 0 <= k < |rest| ==> rest[k] == s[k + 1];
      InsertKeeps(env, taker, x, rest);
      InsertContents(env, taker, x, rest);
      var t := Insert(env, taker, x, rest);
      forall i | 0 <= i < |t| ensures Before(env, taker, s[0], t[i]) {
        assert t[i] in multiset(t);
        if t[i] != x {
          assert t[i] in rest;
        }
      }
    }
  }

  /** The sort puts orders with ascending ids in price-time-id order, and loses none. */
  lemma {:induction false} SortByPriority(env: Env, taker: Order, s: seq<Order>)
    requires IdsAscend(s)
    ensures ByPriority(env, taker, StableSort(env, taker, s))
    ensures multiset(StableSort(env, taker, s)) == multiset(s)
    ensures forall o :: o in StableSort(env, taker, s) <==> o in s
  {
    if s != [] {
      SortByPriority(env, taker, s[1..]);
      var t := StableSort(env, taker, s[1..]);
      FirstIsLeast(s, t);
      InsertKeeps(env, taker, s[0], t);
      InsertContents(env, taker, s[0], t);
      assert s == [s[0]] + s[1..];
      SameElements(StableSort(env, taker, s), s);
    }
  }

  lemma FirstIsLeast(s: seq<Order>, t: seq<Order>)
    requires s != [] && IdsAscend(s) && forall o :: o in t ==> o in s[1..]
    ensures forall k :: 0 <= k < |t| ==> s[0].id < t[k].id
  {
    forall k | 0 <= k < |t| ensures s[0].id < t[k].id {
      assert t[k] in t;
      var i :| 0 <= i < |s[1..]| && s[1..][i] == t[k];
      assert s[i + 1] == t[k];
    }
  }

  lemma SameElements(s: seq<Order>, t: seq<Order>)
    requires multiset(s) == multiset(t)
    ensures forall o :: o in s <==> o in t
  {
    assert forall o :: o in s <==> o in multiset(s);
    assert forall o :: o in t <==> o in multiset(t);
  }

  /** There is only one such order, so any stable sort gives this one. */
  lemma {:induction false} PriorityIsUnique(env: Env, taker: Order, s: seq<Order>, t: seq<Order>)
    requires ByPriority(env, taker, s) && ByPriority(env, taker, t)
    requires multiset(s) == multiset(t)
    ensures s == t
  {
    assert |s| == |multiset(s)| == |multiset(t)| == |t|;
    if s != [] {
      SameFirst(env, taker, s, t);
      RestContents(s);
      RestContents(t);
      RestByPriority(env, taker, s);
      RestByPriority(env, taker, t);
      PriorityIsUnique(env, taker, s[1..], t[1..]);
      assert s == [s[0]] + s[1..] && t == [t[0]] + t[1..];
    }
  }

  lemma SameFirst(env: Env, taker: Order, s: seq<Order>, t: seq<Order>)
    requires ByPriority(env, taker, s) && ByPriority(env, taker, t)
    requires multiset(s) == multiset(t) && s != [] && t != []
    ensures s[0] == t[0]
  {
    SameElements(s, t);
    assert s[0] in t && t[0] in s;
    var i :| 0 <= i < |t| && t[i] == s[0];
    var j :| 0 <= j < |s| && s[j] == t[0];
  }

  lemma RestContents(s: seq<Order>)
    requires s != []
    ensures multiset(s[1..]) == multiset(s) - multiset{s[0]}
  {
    assert s == [s[0]] + s[1..];
  }

  lemma RestByPriority(env: Env, taker: Order, s: seq<Order>)
    requires s != [] && ByPriority(env, taker, s)
    ensures ByPriority(env, taker, s[1..])
  {
    assert forall k :: 0 <= k < |s| - 1 ==> s[1..][k] == s[k + 1];
  }
}
