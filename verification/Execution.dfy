/** The greedy fill over the sorted candidates, its effect on orders and store,
    and its optimality. */
module Execution {
  import opened GoInt
  import opened Results
  import opened PredictionTypes
  import opened Matching

  function Available(o: Order): int {
    o.amount.amount - o.filled.amount
  }

  /** How much each maker gives, in priority order, while the taker still wants `remaining`. */
  function Fills(remaining: int, makers: seq<Order>): (fs: seq<int>)
    ensures |fs| == |makers|
    decreases |makers|
  {
    if makers == [] then []
    else
      var f := if remaining == 0 then 0
               else if remaining <= Available(makers[0]) then remaining
               else Available(makers[0]);
      [f] + Fills(remaining - f, makers[1..])
  }

  function Sum(s: seq<int>): int {
    if s == [] then 0 else s[0] + Sum(s[1..])
  }

  /** An order after a fill of f. */
  function FillBy(o: Order, f: int): Order {
    var filled := Coin(o.filled.denom, o.filled.amount + f);
    o.(filled := filled, status := if filled.amount == o.amount.amount then Filled else PartiallyFilled)
  }

  function After(o: Order, f: int): Order {
    if f == 0 then o else FillBy(o, f)
  }

  /** The taker after its fills, one after the other. */
  function FillAll(o: Order, fs: seq<int>): Order
    decreases |fs|
  {
    if fs == [] then o else FillAll(After(o, fs[0]), fs[1..])
  }

  /** The store after the makers' fills. */
  function Settle(orders: Orders, makers: seq<Order>, fs: seq<int>): Orders
    requires |makers| == |fs|
    decreases |makers|
  {
    if makers == [] then orders
    else
      var orders' := if fs[0] == 0 then orders else orders[makers[0].id := FillBy(makers[0], fs[0])];
      Settle(orders', makers[1..], fs[1..])
  }

  function TradeOf(ctx: Ctx, taker: Order, maker: Order, f: int): Trade {
    Trade(
      ToUint64(ctx.height),
      taker.marketId,
      taker.outcomeIndex,
      if taker.side == Buy then taker.creator else maker.creator,
      if taker.side == Sell then taker.creator else maker.creator,
      maker.price,
      Coin(taker.amount.denom, f),
      ctx.time)
  }

  function TradesOf(ctx: Ctx, taker: Order, makers: seq<Order>, fs: seq<int>): seq<Trade>
    requires |makers| == |fs|
  {
    if makers == [] then []
    else (if fs[0] == 0 then [] else [TradeOf(ctx, taker, makers[0], fs[0])])
         + TradesOf(ctx, taker, makers[1..], fs[1..])
  }

  /** No fill makes sdk.NewCoin panic. */
  predicate Tradable(env: Env, taker: Order, fs: seq<int>) {
    forall k :: 0 <= k < |fs| ==> fs[k] == 0 || (fs[k] > 0 && env.validDenom(taker.amount.denom))
  }

  /** The makers a taker meets, in priority order. */
  function Makers(env: Env, orders: Orders, taker: Order): seq<Order> {
    StableSort(env, taker, Candidates(env, orders, taker))
  }

  datatype Match = Match(orders: Orders, trades: seq<Trade>)

  /** MatchOrder: the new store and the trades, or None when it panics. */
  function MatchTaker(env: Env, ctx: Ctx, orders: Orders, taker: Order): Option<Match> {
    var makers := Makers(env, orders, taker);
    var fs := Fills(taker.amount.amount, makers);
    if Tradable(env, taker, fs) then
      Some(Match(Settle(orders, makers, fs)[taker.id := FillAll(taker, fs)], TradesOf(ctx, taker, makers, fs)))
    else None
  }

  // ---------- What the loop leaves alone ----------

  lemma {:induction false} NothingLeft(env: Env, ctx: Ctx, orders: Orders, taker: Order, now: Order, makers: seq<Order>)
    ensures var fs := Fills(0, makers);
      && Sum(fs) == 0 && Tradable(env, taker, fs)
      && Settle(orders, makers, fs) == orders && FillAll(now, fs) == now && TradesOf(ctx, taker, makers, fs) == []
  {
    if makers != [] {
      NothingLeft(env, ctx, orders, taker, now, makers[1..]);
    }
  }

  ghost predicate DistinctIds(makers: seq<Order>) {
    forall i, j :: 0 <= i < j < |makers| ==> makers[i].id != makers[j].id
  }

  /** Each maker is stored as it is in the list. */
  ghost predicate Stored(orders: Orders, makers: seq<Order>) {
    forall k :: 0 <= k < |makers| ==> makers[k].id in orders && orders[makers[k].id] == makers[k]
  }

  /** The re-reads in the loop see what a single pass over the list would:
      each maker changes by its own fill, nothing else changes. */
  lemma {:induction false} SettleExact(orders: Orders, makers: seq<Order>, fs: seq<int>)
    requires |makers| == |fs| && DistinctIds(makers) && Stored(orders, makers)
    ensures var r := Settle(orders, makers, fs);
      && r.Keys == orders.Keys
      && (forall k :: 0 <= k < |makers| ==> r[makers[k].id] == After(makers[k], fs[k]))
      && (forall id :: id in orders && (forall k :: 0 <= k < |makers| ==> makers[k].id != id) ==> r[id] == orders[id])
    decreases |makers|
  {
    if makers != [] {
      var orders' := if fs[0] == 0 then orders else orders[makers[0].id := FillBy(makers[0], fs[0])];
      var ms, gs := makers[1..], fs[1..];
      assert forall k :: 0 <= k < |ms| ==> ms[k] == makers[k + 1];
      SettleExact(orders', ms, gs);
      var r := Settle(orders, makers, fs);
      forall k | 0 <= k < |makers| ensures r[makers[k].id] == After(makers[k], fs[k]) {
        if k == 0 {
          assert forall j :: 0 <= j < |ms| ==> ms[j].id != makers[0].id;
        } else {
          assert makers[k] == ms[k - 1] && fs[k] == gs[k - 1];
        }
      }
      forall id | id in orders && forall k :: 0 <= k < |makers| ==> makers[k].id != id
        ensures r[id] == orders[id]
      {
        assert id != makers[0].id;
      }
    }
  }

  /** The taker's fills add up. */
  lemma {:induction false} FillAllIsSum(o: Order, fs: seq<int>)
    requires forall k :: 0 <= k < |fs| ==> fs[k] >= 0
    ensures Sum(fs) >= 0 && FillAll(o, fs) == After(o, Sum(fs))
    decreases |fs|
  {
    if fs != [] {
      FillAllIsSum(After(o, fs[0]), fs[1..]);
    }
  }

  // ---------- Exact greedy prefix ----------

  /** The first p makers give all they have, the next one gives part or nothing,
      the others nothing; and unless p is all of them the taker gets all it wants. */
  ghost predicate GreedyAt(remaining: int, makers: seq<Order>, p: nat) {
    var fs := Fills(remaining, makers);
    && p <= |makers|
    && (forall k :: 0 <= k < p ==> fs[k] == Available(makers[k]))
    && (p < |makers| ==> fs[p] == 0 || 0 < fs[p] < Available(makers[p]))
    && (forall k :: p < k < |makers| ==> fs[k] == 0)
    && Sum(fs) <= remaining
    && (p < |makers| ==> Sum(fs) == remaining)
  }

  /** The fills of a match that does not panic are a greedy prefix. */
  lemma {:induction false} GreedyPrefix(env: Env, taker: Order, remaining: int, makers: seq<Order>) returns (p: nat)
    requires Tradable(env, taker, Fills(remaining, makers)) && remaining >= 0
    ensures GreedyAt(remaining, makers, p)
    decreases |makers|
  {
    p := 0;
    if makers != [] {
      if remaining == 0 || remaining < Available(makers[0]) {
        GreedyStop(remaining, makers);
      } else {
        GreedyRest(env, taker, remaining, makers);
        var q := GreedyPrefix(env, taker, remaining - Available(makers[0]), makers[1..]);
        GreedyStep(remaining, makers, q);
        p := q + 1;
      }
    }
  }

  /** A first maker that is used up, and a match that does not panic, leave such a match over the rest. */
  lemma GreedyRest(env: Env, taker: Order, remaining: int, makers: seq<Order>)
    requires makers != [] && remaining > 0 && remaining >= Available(makers[0])
    requires Tradable(env, taker, Fills(remaining, makers))
    ensures Available(makers[0]) >= 0
    ensures Tradable(env, taker, Fills(remaining - Available(makers[0]), makers[1..]))
  {
    var fs := Fills(remaining, makers);
    assert fs[0] == Available(makers[0]);
    var rest := Fills(remaining - fs[0], makers[1..]);
    forall k | 0 <= k < |rest| ensures rest[k] == fs[k + 1] {
      assert fs == [fs[0]] + rest;
    }
  }

  lemma GreedyStop(remaining: int, makers: seq<Order>)
    requires makers != [] && remaining >= 0 && (remaining == 0 || remaining < Available(makers[0]))
    ensures GreedyAt(remaining, makers, 0)
  {
    var fs, ms := Fills(remaining, makers), makers[1..];
    assert fs[0] == remaining;
    NoneFilled(ms);
    assert fs[1..] == Fills(0, ms);
    assert forall k :: 0 < k < |fs| ==> fs[k] == fs[1..][k - 1];
  }

  lemma GreedyStep(remaining: int, makers: seq<Order>, q: nat)
    requires makers != [] && remaining > 0 && remaining >= Available(makers[0])
    requires GreedyAt(remaining - Available(makers[0]), makers[1..], q)
    ensures GreedyAt(remaining, makers, q + 1)
  {
    var fs, ms := Fills(remaining, makers), makers[1..];
    assert fs[0] == Available(makers[0]);
    assert fs[1..] == Fills(remaining - fs[0], ms);
    assert forall k :: 0 < k < |fs| ==> fs[k] == fs[1..][k - 1] && makers[k] == ms[k - 1];
  }

  lemma {:induction false} NoneFilled(makers: seq<Order>)
    ensures forall k :: 0 <= k < |makers| ==> Fills(0, makers)[k] == 0
    ensures Sum(Fills(0, makers)) == 0
  {
    if makers != [] {
      NoneFilled(makers[1..]);
    }
  }

  // ---------- Best execution ----------

  /** An allocation gives each maker, by id, a quantity. */
  type Allocation = map<nat, int>

  function Given(a: Allocation, o: Order): int {
    if o.id in a then a[o.id] else 0
  }

  /** Nobody gives more than available, or less than nothing. */
  ghost predicate Feasible(a: Allocation, makers: seq<Order>) {
    forall o :: o in makers ==> 0 <= Given(a, o) && (Given(a, o) == 0 || Given(a, o) <= Available(o))
  }

  function Quantity(a: Allocation, makers: seq<Order>): int {
    if makers == [] then 0 else Given(a, makers[0]) + Quantity(a, makers[1..])
  }

  /** The total of price times quantity. */
  function Value(env: Env, a: Allocation, makers: seq<Order>): int {
    if makers == [] then 0 else Price(env, makers[0]) * Given(a, makers[0]) + Value(env, a, makers[1..])
  }

  /** The total of price times quantity over trades. */
  function Turnover(env: Env, trades: seq<Trade>): int {
    if trades == [] then 0
    else ParsePrice(env, trades[0].price) * trades[0].amount.amount + Turnover(env, trades[1..])
  }

  function Volume(trades: seq<Trade>): int {
    if trades == [] then 0 else trades[0].amount.amount + Volume(trades[1..])
  }

  function RankedCost(env: Env, taker: Order, makers: seq<Order>, fs: seq<int>): int
    requires |fs| == |makers|
  {
    if makers == [] then 0
    else Rank(env, taker, makers[0]) * fs[0] + RankedCost(env, taker, makers[1..], fs[1..])
  }

  ghost predicate Ranked(env: Env, taker: Order, makers: seq<Order>) {
    forall i, j :: 0 <= i < j < |makers| ==> Rank(env, taker, makers[i]) <= Rank(env, taker, makers[j])
  }

  /** What each maker gives under the allocation, in list order. */
  function Shares(a: Allocation, makers: seq<Order>): (s: seq<int>)
    ensures |s| == |makers|
  {
    if makers == [] then [] else [Given(a, makers[0])] + Shares(a, makers[1..])
  }

  /** Any shares cost at least their quantity at the first maker's rank. */
  lemma {:induction false} CostAtLeast(env: Env, taker: Order, makers: seq<Order>, a: Allocation, rank: int)
    requires Feasible(a, makers)
    requires forall k :: 0 <= k < |makers| ==> rank <= Rank(env, taker, makers[k])
    ensures RankedCost(env, taker, makers, Shares(a, makers)) >= rank * Quantity(a, makers)
    ensures Quantity(a, makers) >= 0
  {
    if makers != [] {
      var m := makers[0];
      assert m in makers;
      assert forall o :: o in makers[1..] ==> o in makers;
      assert forall k :: 0 <= k < |makers[1..]| ==> makers[1..][k] == makers[k + 1];
      CostAtLeast(env, taker, makers[1..], a, rank);
      ScaleUp(rank, Rank(env, taker, m), Given(a, m));
      Distribute(rank, Given(a, m), Quantity(a, makers[1..]));
    }
  }

  lemma ScaleUp(x: int, y: int, q: int)
    requires x <= y && 0 <= q
    ensures x * q <= y * q
  {
  }

  lemma Distribute(r: int, p: int, q: int)
    ensures r * (p + q) == r * p + r * q
  {
  }

  /** The allocation costs more than the fills by at least `rank` for each unit it gives more. */
  ghost predicate Surplus(env: Env, taker: Order, makers: seq<Order>, a: Allocation, fs: seq<int>, rank: int)
    requires |fs| == |makers|
  {
    RankedCost(env, taker, makers, Shares(a, makers)) - RankedCost(env, taker, makers, fs)
    >= rank * (Quantity(a, makers) - Sum(fs))
  }

  /** The exchange argument, with the surplus that keeps it inductive: moving quantity
      off the greedy fills never gets cheaper than `rank` a unit, for a rank no maker beats. */
  lemma {:induction false} Exchange(env: Env, taker: Order, remaining: int, makers: seq<Order>, a: Allocation,
        rank: int)
    requires remaining >= 0 && Tradable(env, taker, Fills(remaining, makers))
    requires Ranked(env, taker, makers) && Feasible(a, makers)
    requires forall k :: 0 <= k < |makers| ==> rank <= Rank(env, taker, makers[k])
    requires Quantity(a, makers) >= Sum(Fills(remaining, makers))
    ensures Surplus(env, taker, makers, a, Fills(remaining, makers), rank)
  {
    if makers != [] {
      var m, ms, fs := makers[0], makers[1..], Fills(remaining, makers);
      ExchangeRest(env, taker, remaining, makers, a);
      ExchangeHead(env, taker, makers, a, fs);
      if remaining == fs[0] {
        ExchangeStop(env, taker, ms, a, Rank(env, taker, m));
      } else {
        Exchange(env, taker, remaining - fs[0], ms, a, Rank(env, taker, m));
      }
      ExchangeJoin(env, taker, makers, a, fs, rank);
    }
  }

  /** From the surplus over the later makers to the surplus over all. */
  lemma ExchangeJoin(env: Env, taker: Order, makers: seq<Order>, a: Allocation, fs: seq<int>, rank: int)
    requires makers != [] && |fs| == |makers| && rank <= Rank(env, taker, makers[0])
    requires Quantity(a, makers) >= Sum(fs)
    requires Surplus(env, taker, makers[1..], a, fs[1..], Rank(env, taker, makers[0]))
    ensures Surplus(env, taker, makers, a, fs, rank)
  {
    var m, ms := makers[0], makers[1..];
    ExchangeHead(env, taker, makers, a, fs);
    ExchangeStep(rank, Rank(env, taker, m), fs[0], Given(a, m), Quantity(a, ms), Sum(fs[1..]),
                 RankedCost(env, taker, ms, Shares(a, ms)), RankedCost(env, taker, ms, fs[1..]));
  }

  /** The sums over the makers, one step unfolded. */
  lemma ExchangeHead(env: Env, taker: Order, makers: seq<Order>, a: Allocation, fs: seq<int>)
    requires makers != [] && |fs| == |makers|
    ensures var m, ms := makers[0], makers[1..];
      && Quantity(a, makers) == Given(a, m) + Quantity(a, ms) && Sum(fs) == fs[0] + Sum(fs[1..])
      && RankedCost(env, taker, makers, Shares(a, makers))
         == Rank(env, taker, m) * Given(a, m) + RankedCost(env, taker, ms, Shares(a, ms))
      && RankedCost(env, taker, makers, fs) == Rank(env, taker, m) * fs[0] + RankedCost(env, taker, ms, fs[1..])
  {
    assert Shares(a, makers)[1..] == Shares(a, makers[1..]);
  }

  /** With nothing left to want, the rest costs nothing and any shares of it at least their rank. */
  lemma ExchangeStop(env: Env, taker: Order, makers: seq<Order>, a: Allocation, rank: int)
    requires Feasible(a, makers) && forall k :: 0 <= k < |makers| ==> rank <= Rank(env, taker, makers[k])
    ensures Surplus(env, taker, makers, a, Fills(0, makers), rank)
  {
    NoneFilled(makers);
    NoCost(env, taker, makers);
    CostAtLeast(env, taker, makers, a, rank);
  }

  /** After the first maker the rest is the same problem. */
  lemma ExchangeRest(env: Env, taker: Order, remaining: int, makers: seq<Order>, a: Allocation)
    requires remaining >= 0 && makers != [] && Tradable(env, taker, Fills(remaining, makers))
    requires Ranked(env, taker, makers) && Feasible(a, makers)
    ensures var m, ms, fs := makers[0], makers[1..], Fills(remaining, makers);
      && fs[1..] == Fills(remaining - fs[0], ms) && Tradable(env, taker, fs[1..])
      && Ranked(env, taker, ms) && Feasible(a, ms) && m in makers
      && forall k :: 0 <= k < |ms| ==> Rank(env, taker, m) <= Rank(env, taker, ms[k])
  {
    var ms, fs := makers[1..], Fills(remaining, makers);
    assert forall k :: 0 <= k < |ms| ==> ms[k] == makers[k + 1];
    assert forall k :: 0 <= k < |ms| ==> fs[1..][k] == fs[k + 1];
    assert forall o :: o in ms ==> o in makers;
  }

  lemma ExchangeStep(rank: int, r: int, f: int, g: int, qa: int, qf: int, ca: int, cf: int)
    requires rank <= r && g + qa >= f + qf
    requires ca - cf >= r * (qa - qf)
    ensures (r * g + ca) - (r * f + cf) >= rank * ((g + qa) - (f + qf))
  {
    Distribute(r, g - f, qa - qf);
    ScaleUp(rank, r, g - f + (qa - qf));
    assert r * g - r * f == r * (g - f);
  }

  lemma {:induction false} NoCost(env: Env, taker: Order, makers: seq<Order>)
    ensures RankedCost(env, taker, makers, Fills(0, makers)) == 0
  {
    if makers != [] {
      NoCost(env, taker, makers[1..]);
    }
  }

  lemma {:induction false} InsertSums(env: Env, taker: Order, a: Allocation, x: Order, s: seq<Order>)
    ensures Quantity(a, Insert(env, taker, x, s)) == Given(a, x) + Quantity(a, s)
    ensures Value(env, a, Insert(env, taker, x, s)) == Price(env, x) * Given(a, x) + Value(env, a, s)
  {
    var r := Insert(env, taker, x, s);
    if s == [] || !Less(env, taker, s[0], x) {
      assert r[1..] == s;
    } else {
      assert r[1..] == Insert(env, taker, x, s[1..]);
      InsertSums(env, taker, a, x, s[1..]);
    }
  }

  /** Sums over the candidates do not depend on their order. */
  lemma {:induction false} SortSums(env: Env, taker: Order, a: Allocation, s: seq<Order>)
    ensures Quantity(a, StableSort(env, taker, s)) == Quantity(a, s)
    ensures Value(env, a, StableSort(env, taker, s)) == Value(env, a, s)
  {
    if s != [] {
      SortSums(env, taker, a, s[1..]);
      InsertSums(env, taker, a, s[0], StableSort(env, taker, s[1..]));
    }
  }

  function Signed(taker: Order, x: int): int {
    if taker.side == Buy then x else -x
  }

  lemma {:induction false} ValueIsRankedCost(env: Env, taker: Order, a: Allocation, makers: seq<Order>)
    ensures Signed(taker, Value(env, a, makers)) == RankedCost(env, taker, makers, Shares(a, makers))
  {
    if makers != [] {
      ValueIsRankedCost(env, taker, a, makers[1..]);
      Negate(Price(env, makers[0]), Given(a, makers[0]));
    }
  }

  lemma Negate(x: int, y: int)
    ensures -(x * y) == (-x) * y
  {
  }

  /** The trades move what the fills say, at the makers' prices. */
  lemma {:induction false} TradesAddUp(env: Env, ctx: Ctx, taker: Order, makers: seq<Order>, fs: seq<int>)
    requires |makers| == |fs|
    ensures var ts := TradesOf(ctx, taker, makers, fs);
      Volume(ts) == Sum(fs) && Signed(taker, Turnover(env, ts)) == RankedCost(env, taker, makers, fs)
  {
    if makers != [] {
      TradesAddUp(env, ctx, taker, makers[1..], fs[1..]);
      Negate(Price(env, makers[0]), fs[0]);
      var rest := TradesOf(ctx, taker, makers[1..], fs[1..]);
      var ts := TradesOf(ctx, taker, makers, fs);
      if fs[0] == 0 {
        assert ts == rest;
      } else {
        assert ts[1..] == rest;
      }
    }
  }

  /** What MatchOrder works on: the candidates, ranked, distinct, as stored. */
  lemma MakersExact(env: Env, orders: Orders, taker: Order)
    requires Keyed(orders)
    ensures var ms := Makers(env, orders, taker);
      && ByPriority(env, taker, ms) && Ranked(env, taker, ms)
      && DistinctIds(ms) && Stored(orders, ms)
      && (forall o :: o in ms <==> o.id in orders && orders[o.id] == o && IsCandidate(env, taker, o))
  {
    CandidatesExact(env, orders, taker);
    SortByPriority(env, taker, Candidates(env, orders, taker));
    var ms := Makers(env, orders, taker);
    forall i, j | 0 <= i < j < |ms|
      ensures Rank(env, taker, ms[i]) <= Rank(env, taker, ms[j]) && ms[i].id != ms[j].id
    {
      assert Before(env, taker, ms[i], ms[j]);
      assert ms[i] in ms && ms[j] in ms;
    }
    forall k | 0 <= k < |ms| ensures ms[k].id in orders && orders[ms[k].id] == ms[k] {
      assert ms[k] in ms;
    }
  }

  /** Best execution. Of all ways to trade the same total quantity with the crossing
      OPEN opposite orders, within what each has available, no other costs a buyer
      less or brings a seller more. */
  lemma BestExecution(env: Env, ctx: Ctx, orders: Orders, taker: Order, a: Allocation)
    requires Keyed(orders) && MatchTaker(env, ctx, orders, taker).Some?
    requires Feasible(a, Candidates(env, orders, taker))
    requires Quantity(a, Candidates(env, orders, taker)) == Volume(MatchTaker(env, ctx, orders, taker).value.trades)
    ensures var cost, other := Turnover(env, MatchTaker(env, ctx, orders, taker).value.trades),
                               Value(env, a, Candidates(env, orders, taker));
      if taker.side == Buy then cost <= other else cost >= other
  {
    var book, ms := Candidates(env, orders, taker), Makers(env, orders, taker);
    MakersExact(env, orders, taker);
    CandidatesExact(env, orders, taker);
    SortSums(env, taker, a, book);
    assert forall o :: o in ms ==> o in book;
    GreedyIsBest(env, ctx, taker, ms, a);
  }

  lemma GreedyIsBest(env: Env, ctx: Ctx, taker: Order, ms: seq<Order>, a: Allocation)
    requires Ranked(env, taker, ms) && Feasible(a, ms)
    requires Tradable(env, taker, Fills(taker.amount.amount, ms))
    requires Quantity(a, ms) == Volume(TradesOf(ctx, taker, ms, Fills(taker.amount.amount, ms)))
    ensures Signed(taker, Turnover(env, TradesOf(ctx, taker, ms, Fills(taker.amount.amount, ms))))
         <= Signed(taker, Value(env, a, ms))
  {
    var q := taker.amount.amount;
    var fs := Fills(q, ms);
    TradesAddUp(env, ctx, taker, ms, fs);
    ValueIsRankedCost(env, taker, a, ms);
    if ms != [] {
      assert fs[0] == 0 || fs[0] > 0;
      Exchange(env, taker, q, ms, a, Rank(env, taker, ms[0]));
      ZeroTimes(Rank(env, taker, ms[0]), Quantity(a, ms) - Sum(fs));
    }
  }

  lemma ZeroTimes(x: int, y: int)
    requires y == 0
    ensures x * y == 0
  {
  }

  function AllocationOf(makers: seq<Order>, fs: seq<int>): Allocation
    requires |makers| == |fs|
  {
    if makers == [] then map[] else AllocationOf(makers[1..], fs[1..])[makers[0].id := fs[0]]
  }

  lemma {:induction false} AllocationExact(env: Env, taker: Order, makers: seq<Order>, fs: seq<int>)
    requires |makers| == |fs| && DistinctIds(makers)
    ensures forall k :: 0 <= k < |makers| ==> Given(AllocationOf(makers, fs), makers[k]) == fs[k]
  {
    if makers != [] {
      AllocationExact(env, taker, makers[1..], fs[1..]);
      forall k | 0 < k < |makers| ensures Given(AllocationOf(makers, fs), makers[k]) == fs[k] {
        assert makers[k] == makers[1..][k - 1] && fs[k] == fs[1..][k - 1];
      }
    }
  }

  lemma {:induction false} SharesExact(a: Allocation, makers: seq<Order>, fs: seq<int>)
    requires |makers| == |fs| && forall k :: 0 <= k < |makers| ==> Given(a, makers[k]) == fs[k]
    ensures Shares(a, makers) == fs && Quantity(a, makers) == Sum(fs)
  {
    if makers != [] {
      assert forall k :: 0 <= k < |makers[1..]| ==> makers[1..][k] == makers[k + 1] && fs[1..][k] == fs[k + 1];
      SharesExact(a, makers[1..], fs[1..]);
      assert fs == [fs[0]] + fs[1..];
    }
  }

  /** The bound of best execution is attained: the trades are such an allocation. */
  lemma ExecutionIsFeasible(env: Env, ctx: Ctx, orders: Orders, taker: Order) returns (a: Allocation)
    requires Keyed(orders) && MatchTaker(env, ctx, orders, taker).Some?
    ensures Feasible(a, Candidates(env, orders, taker))
    ensures Quantity(a, Candidates(env, orders, taker)) == Volume(MatchTaker(env, ctx, orders, taker).value.trades)
    ensures Value(env, a, Candidates(env, orders, taker))
         == Turnover(env, MatchTaker(env, ctx, orders, taker).value.trades)
  {
    var q, ms := taker.amount.amount, Makers(env, orders, taker);
    var fs := Fills(q, ms);
    a := AllocationOf(ms, fs);
    MakersExact(env, orders, taker);
    CandidatesExact(env, orders, taker);
    SortByPriority(env, taker, Candidates(env, orders, taker));
    AllocationExact(env, taker, ms, fs);
    SharesExact(a, ms, fs);
    SortSums(env, taker, a, Candidates(env, orders, taker));
    TradesAddUp(env, ctx, taker, ms, fs);
    ValueIsRankedCost(env, taker, a, ms);
    forall o | o in Candidates(env, orders, taker)
      ensures 0 <= Given(a, o) && (Given(a, o) == 0 || Given(a, o) <= Available(o))
    {
      var k :| 0 <= k < |ms| && ms[k] == o;
      FillsWithin(q, ms, k);
    }
  }

  lemma {:induction false} FillsWithin(remaining: int, makers: seq<Order>, k: nat)
    requires k < |makers|
    ensures Fills(remaining, makers)[k] == 0 || Fills(remaining, makers)[k] <= Available(makers[k])
    decreases k
  {
    if k > 0 {
      var fs := Fills(remaining, makers);
      assert fs[k] == fs[1..][k - 1] && fs[1..] == Fills(remaining - fs[0], makers[1..]);
      FillsWithin(remaining - fs[0], makers[1..], k - 1);
    }
  }
}
