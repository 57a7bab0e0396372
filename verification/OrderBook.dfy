/** The order book as a state machine: one function per message, and what every
    run from the empty book keeps. */
module OrderBook {
  import opened GoInt
  import opened Results
  import opened PredictionTypes
  import opened Markets
  import opened Matching
  import opened Execution

  datatype Book = Book(markets: MarketTable, orders: Orders, next: nat)

  const EMPTY_BOOK: Book := Book(MarketTable(map[], 0), map[], 0)

  datatype PostMsg = PostMsg(
    creator: string,
    marketId: nat,
    side: string,
    outcomeIndex: nat,
    price: string,
    amount: Option<Coin>)

  datatype Msg =
    | Create(create: CreateMsg)
    | Post(post: PostMsg)
    | Cancel(creator: string, orderId: nat)
    | Fill(filler: string, orderId: nat, amount: Option<Coin>)

  datatype Receipt =
    | MarketCreated(marketId: nat)
    | OrderPosted(orderId: nat, trades: seq<Trade>)
    | OrderCancelled
    | OrderFilled(side: Side, trade: Trade)

  // ---------- Handlers ----------

  function NewOrder(ctx: Ctx, id: nat, msg: PostMsg, coin: Coin): Order {
    Order(id, msg.marketId, msg.creator, if msg.side == "BUY" then Buy else Sell, msg.outcomeIndex, msg.price,
          coin, Coin(coin.denom, 0), Open, ctx.time)
  }

  /** What is left of a post once the message is in order: the order is stored and matched. */
  function PlaceOrder(env: Env, ctx: Ctx, b: Book, msg: PostMsg, amount: Coin): (Book, Reply<Receipt>) {
    if NewCoin(env, amount.denom, 0).None? then (b, Failed(Panic))
    else
      var order := NewOrder(ctx, ToUint64(b.next), msg, amount);
      match MatchTaker(env, ctx, b.orders[order.id := order], order)
      case None => (b, Failed(Panic))
      case Some(m) => (b.(orders := m.orders, next := b.next + 1), Done(OrderPosted(order.id, m.trades)))
  }

  function PostOrder(env: Env, ctx: Ctx, b: Book, msg: PostMsg): (Book, Reply<Receipt>) {
    if msg.marketId !in b.markets.byId then (b, Failed(ErrMarketNotFound))
    else if msg.outcomeIndex >= |b.markets.byId[msg.marketId].outcomes| % 0x1_0000_0000
    then (b, Failed(ErrInvalidOutcome))
    else if msg.side != "BUY" && msg.side != "SELL" then (b, Failed(ErrInvalidRequest))
    else if msg.price == "" then (b, Failed(ErrInvalidRequest))
    else if msg.amount.None? || msg.amount.value.amount == 0 then (b, Failed(ErrInvalidAmount))
    else PlaceOrder(env, ctx, b, msg, msg.amount.value)
  }

  function CancelOrder(b: Book, creator: string, orderId: nat): (Book, Reply<Receipt>) {
    if orderId !in b.orders then (b, Failed(OrderNotFound))
    else
      var o := b.orders[orderId];
      if o.creator != creator then (b, Failed(NotCreator))
      else if o.status == Filled || o.status == Cancelled then (b, Failed(NotCancellable))
      else if o.filled.amount < o.amount.amount && CoinSub(o.amount, o.filled).None? then (b, Failed(Panic))
      else (b.(orders := b.orders[o.id := o.(status := Cancelled)]), Done(OrderCancelled))
  }

  /** The keeper's FillOrder: the order after the fill and the trade, None on a panic. */
  function FillDirectly(env: Env, ctx: Ctx, o: Order, filler: string, amount: Coin): Option<(Order, Trade)> {
    var f := if amount.amount > Available(o) then Available(o) else amount.amount;
    match NewCoin(env, amount.denom, f)
    case None => None
    case Some(coin) =>
      if NewCoin(env, o.filled.denom, o.filled.amount + f).None? then None
      else
        var trade := Trade(ToUint64(ctx.height), o.marketId, o.outcomeIndex, filler, o.creator, o.price, coin,
                           ctx.time);
        Some((FillBy(o, f), trade))
  }

  function FillOrder(env: Env, ctx: Ctx, b: Book, filler: string, orderId: nat, amount: Option<Coin>):
    (Book, Reply<Receipt>)
  {
    if orderId !in b.orders then (b, Failed(OrderNotFound))
    else
      var o := b.orders[orderId];
      if o.status != Open && o.status != PartiallyFilled then (b, Failed(NotFillable))
      else if amount.None? || amount.value.amount == 0 then (b, Failed(ZeroAmount))
      else
        match CoinSub(o.amount, o.filled)
        case None => (b, Failed(Panic))
        case Some(rest) =>
          if amount.value.amount > rest.amount then (b, Failed(ExceedsRemaining))
          else
            match FillDirectly(env, ctx, o, filler, amount.value)
            case None => (b, Failed(Panic))
            case Some((o', trade)) => (b.(orders := b.orders[o'.id := o']), Done(OrderFilled(o.side, trade)))
  }

  ghost function Step(env: Env, ctx: Ctx, b: Book, msg: Msg): (Book, Reply<Receipt>) {
    match msg
    case Create(m) =>
      var (t, r) := CreateMarket(ctx, b.markets, m);
      (b.(markets := t), match r case Done(id) => Done(MarketCreated(id)) case Failed(e) => Failed(e))
    case Post(m) => PostOrder(env, ctx, b, m)
    case Cancel(creator, id) => CancelOrder(b, creator, id)
    case Fill(filler, id, amount) => FillOrder(env, ctx, b, filler, id, amount)
  }

  // ---------- Invariants ----------

  /** Status is determined by the filled amount, unless the order was cancelled. */
  ghost predicate OrderOk(o: Order) {
    && (o.side == Buy || o.side == Sell)
    && o.amount.amount != 0 && o.filled.denom == o.amount.denom && o.filled.amount >= 0
    && (o.amount.amount > 0 ==> o.filled.amount <= o.amount.amount)
    && (o.amount.amount < 0 ==> o.filled.amount == 0)
    && (o.status == Open ==> o.filled.amount == 0)
    && (o.status == PartiallyFilled ==> 0 < o.filled.amount < o.amount.amount)
    && (o.status == Filled ==> 0 < o.filled.amount == o.amount.amount)
    && (o.status == Cancelled ==> o.filled.amount != o.amount.amount)
    && o.status != StatusUnspecified
  }

  ghost predicate BookOk(b: Book) {
    && MarketsOk(b.markets)
    && (forall k :: k in b.orders ==> k < b.next && b.orders[k].id == k && OrderOk(b.orders[k]))
  }

  /** No OPEN buy meets an OPEN sell of the same market and outcome. */
  ghost predicate NotCrossed(env: Env, orders: Orders) {
    forall i, j :: i in orders && j in orders
      && orders[i].status == Open && orders[j].status == Open
      && orders[i].side == Buy && orders[j].side == Sell
      && orders[i].marketId == orders[j].marketId && orders[i].outcomeIndex == orders[j].outcomeIndex
      ==> Price(env, orders[i]) < Price(env, orders[j])
  }

  /** How one order may change: never its identity, never a fill back, and never
      once it is filled or cancelled. */
  ghost predicate Evolves(o: Order, o': Order) {
    && o'.(filled := o.filled, status := o.status) == o
    && o'.filled.denom == o.filled.denom && o.filled.amount <= o'.filled.amount
    && (o.status == Filled || o.status == Cancelled ==> o' == o)
  }

  ghost predicate OrdersEvolve(orders: Orders, orders': Orders) {
    forall k :: k in orders ==> k in orders' && Evolves(orders[k], orders'[k])
  }

  // ---------- One match ----------

  /** A freshly posted order, stored and about to be matched. */
  ghost predicate Fresh(orders: Orders, taker: Order) {
    && Keyed(orders) && (forall k :: k in orders ==> OrderOk(orders[k]))
    && taker.id in orders && orders[taker.id] == taker && taker.status == Open
  }

  /** What one order goes through when the taker is matched. */
  ghost predicate MatchedOnce(env: Env, taker: Order, o: Order, o': Order) {
    if IsCandidate(env, taker, o) then
      o' == o || (o' == FillBy(o, o'.filled.amount) && 0 < o'.filled.amount <= o.amount.amount)
    else o' == o
  }

  /** A match seen as its makers, in priority order, and their fills. */
  ghost predicate Plan(env: Env, ctx: Ctx, orders: Orders, taker: Order, makers: seq<Order>, fs: seq<int>, m: Match) {
    && fs == Fills(taker.amount.amount, makers) && Tradable(env, taker, fs)
    && m == Match(Settle(orders, makers, fs)[taker.id := FillAll(taker, fs)], TradesOf(ctx, taker, makers, fs))
    && DistinctIds(makers) && Stored(orders, makers)
    && (forall o :: o in makers <==> o.id in orders && orders[o.id] == o && IsCandidate(env, taker, o))
  }

  lemma MatchPlan(env: Env, ctx: Ctx, orders: Orders, taker: Order, m: Match) returns (makers: seq<Order>, fs: seq<int>)
    requires Keyed(orders) && MatchTaker(env, ctx, orders, taker) == Some(m)
    ensures Plan(env, ctx, orders, taker, makers, fs, m) && makers == Makers(env, orders, taker)
  {
    makers := Makers(env, orders, taker);
    fs := Fills(taker.amount.amount, makers);
    MakersExact(env, orders, taker);
  }

  lemma MatchOthers(env: Env, ctx: Ctx, orders: Orders, taker: Order, makers: seq<Order>, fs: seq<int>, m: Match)
    requires Fresh(orders, taker) && Plan(env, ctx, orders, taker, makers, fs, m)
    ensures m.orders.Keys == orders.Keys
    ensures forall k :: k in orders && k != taker.id ==> MatchedOnce(env, taker, orders[k], m.orders[k])
  {
    SettleExact(orders, makers, fs);
    var r := Settle(orders, makers, fs);
    forall k | k in orders && k != taker.id
      ensures MatchedOnce(env, taker, orders[k], m.orders[k])
    {
      if j :| 0 <= j < |makers| && makers[j].id == k {
        assert makers[j] in makers;
        FillsWithin(taker.amount.amount, makers, j);
        MakerMatched(env, taker, makers[j], fs[j]);
      } else {
        assert r[k] == orders[k];
      }
    }
  }

  lemma MakerMatched(env: Env, taker: Order, o: Order, f: int)
    requires IsCandidate(env, taker, o) && OrderOk(o) && 0 <= f && (f == 0 || f <= Available(o))
    ensures MatchedOnce(env, taker, o, After(o, f))
  {
  }

  /** The taker is filled by the traded volume, which is at most what it wants; it
      stays OPEN only if there was no candidate at all, and if it wants more at the
      end then every candidate is FILLED. */
  lemma MatchTakerExact(env: Env, ctx: Ctx, orders: Orders, taker: Order, makers: seq<Order>, fs: seq<int>, m: Match)
    requires Fresh(orders, taker) && Plan(env, ctx, orders, taker, makers, fs, m)
    ensures
      && 0 <= Volume(m.trades) && (Volume(m.trades) > 0 ==> Volume(m.trades) <= taker.amount.amount)
      && m.orders[taker.id] == After(taker, Volume(m.trades))
      && (Volume(m.trades) == 0 ==> forall k :: k in orders ==> !IsCandidate(env, taker, orders[k]))
      && (Volume(m.trades) < taker.amount.amount ==>
            forall k :: k in orders && IsCandidate(env, taker, orders[k]) ==>
              k in m.orders && m.orders[k].status == Filled)
  {
    MeetMakers(env, ctx, taker, makers);
    forall k | k in orders && IsCandidate(env, taker, orders[k])
      ensures makers != []
    {
      assert orders[k] in makers;
    }
    if Volume(m.trades) < taker.amount.amount {
      AllTaken(orders, taker, makers, fs);
      forall k | k in orders && IsCandidate(env, taker, orders[k])
        ensures k in m.orders && m.orders[k].status == Filled
      {
        assert orders[k] in makers && k != taker.id;
      }
    }
  }

  lemma AllTaken(orders: Orders, taker: Order, makers: seq<Order>, fs: seq<int>)
    requires |makers| == |fs| && DistinctIds(makers) && Stored(orders, makers)
    requires forall j :: 0 <= j < |makers| ==> fs[j] == Available(makers[j]) != 0
    ensures forall o :: o in makers ==>
      o.id in Settle(orders, makers, fs) && Settle(orders, makers, fs)[o.id].status == Filled
  {
    SettleExact(orders, makers, fs);
    forall o | o in makers
      ensures o.id in Settle(orders, makers, fs) && Settle(orders, makers, fs)[o.id].status == Filled
    {
      var j :| 0 <= j < |makers| && makers[j] == o;
    }
  }

  /** The fills of a list of OPEN orders. */
  lemma MeetMakers(env: Env, ctx: Ctx, taker: Order, makers: seq<Order>)
    requires taker.amount.amount != 0 && Tradable(env, taker, Fills(taker.amount.amount, makers))
    requires forall o :: o in makers ==> Available(o) != 0
    ensures var fs := Fills(taker.amount.amount, makers);
      var v := Volume(TradesOf(ctx, taker, makers, fs));
      && FillAll(taker, fs) == After(taker, v)
      && (makers == [] ==> v == 0)
      && (makers != [] ==> 0 < v <= taker.amount.amount)
      && (v < taker.amount.amount ==> forall j :: 0 <= j < |makers| ==> fs[j] == Available(makers[j]))
  {
    var q := taker.amount.amount;
    var fs := Fills(q, makers);
    FillAllIsSum(taker, fs);
    TradesAddUp(env, ctx, taker, makers, fs);
    if makers != [] {
      assert makers[0] in makers;
      assert fs[0] > 0;
      SumAtLeast(fs);
      var p := GreedyPrefix(env, taker, q, makers);
    }
  }

  lemma SumAtLeast(fs: seq<int>)
    requires fs != [] && forall k :: 0 <= k < |fs| ==> fs[k] >= 0
    ensures Sum(fs) >= fs[0]
  {
    SumNonNegative(fs[1..]);
  }

  lemma {:induction false} SumNonNegative(fs: seq<int>)
    requires forall k :: 0 <= k < |fs| ==> fs[k] >= 0
    ensures Sum(fs) >= 0
  {
    if fs != [] {
      SumNonNegative(fs[1..]);
    }
  }

  // ---------- A match in numbers ----------

  function AtLeastZero(x: int): nat {
    if x < 0 then 0 else x
  }

  /** What the makers have to give; an order with a negative amount has nothing. */
  function TotalAvailable(makers: seq<Order>): nat {
    if makers == [] then 0 else AtLeastZero(Available(makers[0])) + TotalAvailable(makers[1..])
  }

  lemma {:induction false} SumAgainstTotal(makers: seq<Order>, fs: seq<int>)
    requires |makers| == |fs| && forall k :: 0 <= k < |fs| ==> fs[k] <= AtLeastZero(Available(makers[k]))
    ensures Sum(fs) <= TotalAvailable(makers)
    ensures (forall k :: 0 <= k < |fs| ==> fs[k] == AtLeastZero(Available(makers[k]))) ==>
      Sum(fs) == TotalAvailable(makers)
  {
    if fs != [] {
      assert forall k :: 0 <= k < |fs| - 1 ==> fs[1..][k] == fs[k + 1] && makers[1..][k] == makers[k + 1];
      SumAgainstTotal(makers[1..], fs[1..]);
    }
  }

  /** The smaller of what the taker wants and what the makers have, and never negative. */
  function Tradeable(wanted: int, makers: seq<Order>): nat {
    if wanted <= TotalAvailable(makers) then AtLeastZero(wanted) else TotalAvailable(makers)
  }

  /** Given part of its amount, or nothing. */
  ghost predicate LeftShort(o: Order, o': Order) {
    o' == o || (o' == FillBy(o, o'.filled.amount) && o'.status == PartiallyFilled)
  }

  /** What MatchOrder leaves of the makers, in priority order: the first p are FILLED, the
      next one has given part or nothing, the others are untouched. */
  ghost predicate GreedyStore(orders: Orders, makers: seq<Order>, p: nat) {
    && p <= |makers|
    && (forall k :: 0 <= k < |makers| ==> makers[k].id in orders)
    && (forall k :: 0 <= k < p ==> orders[makers[k].id] == makers[k].(filled := makers[k].amount, status := Filled))
    && (p < |makers| ==> LeftShort(makers[p], orders[makers[p].id]))
    && (forall k :: p < k < |makers| ==> orders[makers[k].id] == makers[k])
  }

  /** Every match that does not panic, whatever the amounts in the store. */
  lemma MatchIsGreedy(env: Env, ctx: Ctx, orders: Orders, taker: Order, m: Match) returns (p: nat)
    requires Fresh(orders, taker) && MatchTaker(env, ctx, orders, taker) == Some(m)
    ensures ByPriority(env, taker, Makers(env, orders, taker))
    ensures GreedyStore(m.orders, Makers(env, orders, taker), p)
    ensures Volume(m.trades) == Tradeable(taker.amount.amount, Makers(env, orders, taker))
  {
    var makers, fs := MatchPlan(env, ctx, orders, taker, m);
    p := PlanIsGreedy(env, ctx, orders, taker, makers, fs, m);
    MakersExact(env, orders, taker);
  }

  lemma NegativeFill(env: Env, taker: Order, wanted: int, makers: seq<Order>)
    requires wanted < 0 && makers != []
    ensures !Tradable(env, taker, Fills(wanted, makers))
  {
    assert Fills(wanted, makers)[0] < 0;
  }

  lemma PlanIsGreedy(env: Env, ctx: Ctx, orders: Orders, taker: Order, makers: seq<Order>, fs: seq<int>, m: Match)
    returns (p: nat)
    requires Fresh(orders, taker) && Plan(env, ctx, orders, taker, makers, fs, m)
    ensures GreedyStore(m.orders, makers, p) && Volume(m.trades) == Tradeable(taker.amount.amount, makers)
  {
    p := 0;
    if taker.amount.amount >= 0 {
      p := GreedyPrefix(env, taker, taker.amount.amount, makers);
      GreedySum(taker.amount.amount, makers, fs, p);
    } else if makers != [] {
      NegativeFill(env, taker, taker.amount.amount, makers);
    }
    TradesAddUp(env, ctx, taker, makers, fs);
    AllUntouched(env, orders, taker, makers);
    GreedySettles(orders, taker, makers, fs, p);
    StoreOther(Settle(orders, makers, fs), makers, p, taker.id, FillAll(taker, fs));
  }

  /** An OPEN maker that no fill has touched, and that is not the taker. */
  ghost predicate Untouched(taker: Order, o: Order) {
    o.id != taker.id && o.filled == Coin(o.amount.denom, 0) && o.amount.amount != 0 && o.status == Open
  }

  lemma AllUntouched(env: Env, orders: Orders, taker: Order, makers: seq<Order>)
    requires Fresh(orders, taker)
    requires forall o :: o in makers ==> o.id in orders && orders[o.id] == o && IsCandidate(env, taker, o)
    ensures forall k :: 0 <= k < |makers| ==> Untouched(taker, makers[k])
  {
    assert forall k :: 0 <= k < |makers| ==> makers[k] in makers;
  }

  lemma StoreOther(orders: Orders, makers: seq<Order>, p: nat, id: nat, o: Order)
    requires GreedyStore(orders, makers, p) && forall k :: 0 <= k < |makers| ==> makers[k].id != id
    ensures GreedyStore(orders[id := o], makers, p)
  {
  }

  lemma GreedySettles(orders: Orders, taker: Order, makers: seq<Order>, fs: seq<int>, p: nat)
    requires fs == Fills(taker.amount.amount, makers) && forall k :: 0 <= k < |fs| ==> fs[k] >= 0
    requires GreedyAt(taker.amount.amount, makers, p) || (makers == [] && p == 0)
    requires DistinctIds(makers) && Stored(orders, makers)
    requires forall k :: 0 <= k < |makers| ==> Untouched(taker, makers[k])
    ensures GreedyStore(Settle(orders, makers, fs), makers, p)
  {
    SettleExact(orders, makers, fs);
    var r := Settle(orders, makers, fs);
    forall k | 0 <= k < p
      ensures r[makers[k].id] == makers[k].(filled := makers[k].amount, status := Filled)
    {
      FilledAfter(taker, makers[k]);
    }
    if p < |makers| {
      ShortAfter(taker, makers[p], fs[p]);
    }
  }

  lemma FilledAfter(taker: Order, o: Order)
    requires Untouched(taker, o)
    ensures After(o, Available(o)) == o.(filled := o.amount, status := Filled)
  {
  }

  lemma ShortAfter(taker: Order, o: Order, f: int)
    requires Untouched(taker, o) && (f == 0 || 0 < f < Available(o))
    ensures LeftShort(o, After(o, f))
  {
  }

  lemma GreedySum(wanted: int, makers: seq<Order>, fs: seq<int>, p: nat)
    requires fs == Fills(wanted, makers) && forall k :: 0 <= k < |fs| ==> fs[k] >= 0
    requires wanted >= 0 && GreedyAt(wanted, makers, p)
    ensures Sum(fs) == Tradeable(wanted, makers)
  {
    SumAgainstTotal(makers, fs);
  }

  // ---------- When a match panics ----------

  /** The taker, or a maker it reaches, has a negative amount: a fill would be negative. */
  ghost predicate MeetsNegative(wanted: int, makers: seq<Order>) {
    if wanted < 0 then makers != []
    else exists k :: 0 <= k < |makers| && Available(makers[k]) < 0 && TotalAvailable(makers[..k]) < wanted
  }

  lemma MeetsLater(wanted: int, makers: seq<Order>)
    requires wanted > 0 && makers != [] && Available(makers[0]) > 0
    ensures MeetsNegative(wanted, makers)
       <==> wanted > Available(makers[0]) && MeetsNegative(wanted - Available(makers[0]), makers[1..])
  {
    var a, ms := Available(makers[0]), makers[1..];
    forall k | 0 < k <= |makers| ensures TotalAvailable(makers[..k]) == a + TotalAvailable(ms[..k - 1]) {
      assert makers[..k][1..] == ms[..k - 1];
    }
    if MeetsNegative(wanted, makers) {
      var k :| 0 <= k < |makers| && Available(makers[k]) < 0 && TotalAvailable(makers[..k]) < wanted;
      assert Available(ms[k - 1]) < 0 && TotalAvailable(ms[..k - 1]) < wanted - a;
    }
    if wanted > a && MeetsNegative(wanted - a, ms) {
      var k :| 0 <= k < |ms| && Available(ms[k]) < 0 && TotalAvailable(ms[..k]) < wanted - a;
      assert Available(makers[k + 1]) < 0 && TotalAvailable(makers[..k + 1]) < wanted;
    }
  }

  lemma {:induction false} TradableExact(env: Env, taker: Order, wanted: int, makers: seq<Order>)
    requires env.validDenom(taker.amount.denom) && wanted != 0
    requires forall k :: 0 <= k < |makers| ==> Available(makers[k]) != 0
    ensures Tradable(env, taker, Fills(wanted, makers)) <==> !MeetsNegative(wanted, makers)
  {
    if makers != [] {
      var a, ms, fs := Available(makers[0]), makers[1..], Fills(wanted, makers);
      assert fs[1..] == Fills(wanted - fs[0], ms);
      assert forall k :: 0 <= k < |ms| ==> ms[k] == makers[k + 1];
      if wanted < 0 {
        NegativeFill(env, taker, wanted, makers);
      } else if a < 0 {
        assert fs[0] < 0 && TotalAvailable(makers[..0]) == 0;
      } else {
        MeetsLater(wanted, makers);
        HeadTradable(env, taker, fs);
        if wanted <= a {
          NoneFilled(ms);
        } else {
          TradableExact(env, taker, wanted - a, ms);
        }
      }
    }
  }

  lemma HeadTradable(env: Env, taker: Order, fs: seq<int>)
    requires fs != []
    ensures Tradable(env, taker, fs) <==> Tradable(env, taker, fs[..1]) && Tradable(env, taker, fs[1..])
  {
    if Tradable(env, taker, fs) {
      assert forall k :: 0 <= k < |fs[1..]| ==> fs[1..][k] == fs[k + 1];
    }
    if Tradable(env, taker, fs[..1]) && Tradable(env, taker, fs[1..]) {
      assert fs[..1][0] == fs[0];
      assert forall k :: 0 < k < |fs| ==> fs[k] == fs[1..][k - 1];
    }
  }

  /** A match in a denomination the SDK accepts panics exactly when a fill would be negative. */
  lemma MatchPanics(env: Env, ctx: Ctx, orders: Orders, taker: Order)
    requires Fresh(orders, taker) && env.validDenom(taker.amount.denom)
    ensures MatchTaker(env, ctx, orders, taker) == None
       <==> MeetsNegative(taker.amount.amount, Makers(env, orders, taker))
  {
    var makers := Makers(env, orders, taker);
    MakersExact(env, orders, taker);
    assert forall k :: 0 <= k < |makers| ==> makers[k] in makers;
    TradableExact(env, taker, taker.amount.amount, makers);
  }

  // ---------- One trade ----------

  lemma {:induction false} TradeSource(ctx: Ctx, taker: Order, makers: seq<Order>, fs: seq<int>, t: Trade)
    returns (k: nat)
    requires |makers| == |fs| && t in TradesOf(ctx, taker, makers, fs)
    ensures k < |makers| && fs[k] != 0 && t == TradeOf(ctx, taker, makers[k], fs[k])
    decreases |makers|
  {
    if fs[0] != 0 && t == TradeOf(ctx, taker, makers[0], fs[0]) {
      k := 0;
    } else {
      var j := TradeSource(ctx, taker, makers[1..], fs[1..], t);
      k := j + 1;
    }
  }

  /** Every trade is with one OPEN order of the other side, at that order's price, which is
      no worse than the taker's limit, and for no more than it had left; the BUY side's
      creator is the buyer and the SELL side's the seller. It is stamped with the block: its
      time, and its height as the trade's id. */
  lemma TradesAreFair(env: Env, ctx: Ctx, orders: Orders, taker: Order, m: Match, t: Trade) returns (o: Order)
    requires Fresh(orders, taker) && MatchTaker(env, ctx, orders, taker) == Some(m) && t in m.trades
    ensures o.id in orders && orders[o.id] == o && IsCandidate(env, taker, o)
    ensures t.price == o.price && 0 < t.amount.amount <= Available(o) && t.amount.denom == taker.amount.denom
    ensures t.marketId == o.marketId == taker.marketId && t.outcomeIndex == o.outcomeIndex == taker.outcomeIndex
    ensures t.timestamp == ctx.time && t.tradeId == ToUint64(ctx.height)
    ensures taker.side == Buy ==>
      && ParsePrice(env, t.price) <= Price(env, taker)
      && t.buyer == taker.creator && t.seller == o.creator && o.side == Sell
    ensures taker.side == Sell ==>
      && ParsePrice(env, t.price) >= Price(env, taker)
      && t.seller == taker.creator && t.buyer == o.creator && o.side == Buy
  {
    var makers, fs := MatchPlan(env, ctx, orders, taker, m);
    o := PlannedTrade(env, ctx, orders, taker, makers, fs, m, t);
  }

  /** The order behind a trade is filled by exactly that trade. */
  lemma TradeIsTheFill(env: Env, ctx: Ctx, orders: Orders, taker: Order, m: Match, t: Trade) returns (o: Order)
    requires Fresh(orders, taker) && MatchTaker(env, ctx, orders, taker) == Some(m) && t in m.trades
    ensures o.id in orders && orders[o.id] == o && IsCandidate(env, taker, o) && OrderOk(o)
    ensures 0 < t.amount.amount <= Available(o) && t == TradeOf(ctx, taker, o, t.amount.amount)
    ensures o.id in m.orders && m.orders[o.id] == FillBy(o, t.amount.amount)
  {
    var makers, fs := MatchPlan(env, ctx, orders, taker, m);
    var k := TradeSource(ctx, taker, makers, fs, t);
    o := makers[k];
    assert o in makers && o.id != taker.id;
    FillsWithin(taker.amount.amount, makers, k);
    SettleExact(orders, makers, fs);
  }

  lemma PlannedTrade(env: Env, ctx: Ctx, orders: Orders, taker: Order, makers: seq<Order>, fs: seq<int>, m: Match,
        t: Trade)
    returns (o: Order)
    requires Fresh(orders, taker) && Plan(env, ctx, orders, taker, makers, fs, m) && t in m.trades
    ensures o.id in orders && orders[o.id] == o && IsCandidate(env, taker, o) && OrderOk(o)
    ensures 0 < t.amount.amount <= Available(o) && t == TradeOf(ctx, taker, o, t.amount.amount)
  {
    var k := TradeSource(ctx, taker, makers, fs, t);
    o := makers[k];
    assert o in makers;
    FillsWithin(taker.amount.amount, makers, k);
  }
}
