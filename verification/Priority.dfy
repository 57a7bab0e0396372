/** Price-time priority on the fields of the orders: what MatchOrder owes to whoever
    offers the better price, and at one price to whoever came first. */
module Priority {
  import opened Results
  import opened PredictionTypes
  import opened Matching
  import opened Execution
  import opened OrderBook

  /** a comes before b: a better price for the taker, or at the same price an earlier
      creation time, or in the same second a lower id. */
  predicate Precedes(env: Env, taker: Order, a: Order, b: Order) {
    var (pa, pb) := (ParsePrice(env, a.price), ParsePrice(env, b.price));
    || (taker.side == Buy && pa < pb)
    || (taker.side != Buy && pa > pb)
    || (pa == pb && a.createdAt < b.createdAt)
    || (pa == pb && a.createdAt == b.createdAt && a.id < b.id)
  }

  /** The makers are met in that order. */
  lemma MakersByPriceAndTime(env: Env, orders: Orders, taker: Order, i: nat, j: nat)
    requires Keyed(orders) && i < j < |Makers(env, orders, taker)|
    ensures Precedes(env, taker, Makers(env, orders, taker)[i], Makers(env, orders, taker)[j])
  {
    MakersExact(env, orders, taker);
    assert Before(env, taker, Makers(env, orders, taker)[i], Makers(env, orders, taker)[j]);
  }

  /** At one price the maker met first is the older one, or as old with a lower id. */
  lemma OldestFirst(env: Env, orders: Orders, taker: Order, i: nat, j: nat)
    requires Keyed(orders) && i < j < |Makers(env, orders, taker)|
    requires var ms := Makers(env, orders, taker);
      ParsePrice(env, ms[i].price) == ParsePrice(env, ms[j].price)
    ensures var ms := Makers(env, orders, taker);
      ms[i].createdAt < ms[j].createdAt || (ms[i].createdAt == ms[j].createdAt && ms[i].id < ms[j].id)
  {
    MakersByPriceAndTime(env, orders, taker, i, j);
  }

  lemma NotBothWays(env: Env, taker: Order, a: Order, b: Order)
    requires Precedes(env, taker, a, b)
    ensures !Precedes(env, taker, b, a) && a != b
  {
  }

  /** On the store: of two orders the taker may trade with, the later one changes only if
      the earlier one ends FILLED. */
  lemma PriorityRespected(env: Env, ctx: Ctx, orders: Orders, taker: Order, m: Match, first: nat, second: nat)
    requires Fresh(orders, taker) && MatchTaker(env, ctx, orders, taker) == Some(m)
    requires first in orders && second in orders
    requires IsCandidate(env, taker, orders[first]) && IsCandidate(env, taker, orders[second])
    requires Precedes(env, taker, orders[first], orders[second])
    ensures first in m.orders && second in m.orders
    ensures m.orders[second] != orders[second] ==> m.orders[first].status == Filled
  {
    var p := MatchIsGreedy(env, ctx, orders, taker, m);
    var i := MakerPlace(env, orders, taker, first);
    var j := MakerPlace(env, orders, taker, second);
    NotBothWays(env, taker, orders[first], orders[second]);
    if j < i {
      MakersByPriceAndTime(env, orders, taker, j, i);
    }
    GreedyPlaces(m.orders, Makers(env, orders, taker), p, i, j);
  }

  /** Where a candidate is met. */
  lemma MakerPlace(env: Env, orders: Orders, taker: Order, k: nat) returns (i: nat)
    requires Keyed(orders) && k in orders && IsCandidate(env, taker, orders[k])
    ensures i < |Makers(env, orders, taker)| && Makers(env, orders, taker)[i] == orders[k]
  {
    MakersExact(env, orders, taker);
    assert orders[k] in Makers(env, orders, taker);
    i :| 0 <= i < |Makers(env, orders, taker)| && Makers(env, orders, taker)[i] == orders[k];
  }

  lemma GreedyPlaces(orders: Orders, makers: seq<Order>, p: nat, i: nat, j: nat)
    requires GreedyStore(orders, makers, p) && i < j < |makers|
    ensures makers[i].id in orders && makers[j].id in orders
    ensures orders[makers[j].id] != makers[j] ==> orders[makers[i].id].status == Filled
  {
  }

  /** A price that does not parse counts as zero: a BUY at it may only take what is offered for
      nothing or less, a SELL at it anything bid at zero or more. */
  lemma BadPrice(env: Env, taker: Order, o: Order)
    requires env.decFromStr(taker.price) == None
    requires o.marketId == taker.marketId && o.outcomeIndex == taker.outcomeIndex && o.status == Open
    ensures taker.side == Buy && o.side == Sell ==>
      (IsCandidate(env, taker, o) <==> ParsePrice(env, o.price) <= 0)
    ensures taker.side == Sell && o.side == Buy ==>
      (IsCandidate(env, taker, o) <==> ParsePrice(env, o.price) >= 0)
  {
  }
}
