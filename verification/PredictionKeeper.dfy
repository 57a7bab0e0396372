/** The prediction keeper and its message handlers as they update the stores. A
    handler that panics ends with the stores as they were: the SDK discards the
    writes of an aborted transaction. */
module PredictionKeeper {
  import opened GoInt
  import opened Results
  import opened Ordered
  import opened PredictionTypes
  import opened Markets
  import opened Matching
  import opened Execution
  import opened OrderBook

  class Keeper {
    const env: Env
    var markets: map<nat, Market>
    var marketSeq: nat
    var orders: Orders
    var orderSeq: nat

    constructor (env: Env)
      ensures this.env == env && State() == EMPTY_BOOK
    {
      this.env := env;
      markets, marketSeq, orders, orderSeq := map[], 0, map[], 0;
    }

    function State(): Book
      reads this
    {
      Book(MarketTable(markets, marketSeq), orders, orderSeq)
    }

    method CreateMarket(ctx: Ctx, msg: CreateMsg) returns (r: Reply<nat>)
      modifies this
      ensures State() == old(State()).(markets := Markets.CreateMarket(ctx, old(State()).markets, msg).0)
      ensures r == Markets.CreateMarket(ctx, old(State()).markets, msg).1
    {
      if |msg.outcomes| < 2 { return Failed(ErrInvalidRequest); }
      if msg.question == "" { return Failed(ErrInvalidRequest); }
      if msg.deadline <= ctx.time { return Failed(ErrInvalidRequest); }
      var outcomeSet: set<string> := {};
      for i := 0 to |msg.outcomes|
        invariant forall j :: 0 <= j < i ==> msg.outcomes[j] != ""
        invariant forall j, k :: 0 <= j < k < i ==> msg.outcomes[j] != msg.outcomes[k]
        invariant outcomeSet == set j | 0 <= j < i :: msg.outcomes[j]
      {
        var o := msg.outcomes[i];
        if o == "" { return Failed(ErrInvalidRequest); }
        if o in outcomeSet { return Failed(ErrInvalidRequest); }
        outcomeSet := outcomeSet + {o};
      }
      var marketID := ToUint64(marketSeq);
      marketSeq := marketSeq + 1;
      markets := markets[marketID := NewMarket(ctx, marketID, msg)];
      r := Done(marketID);
    }

    method GetOrdersByMarketAndOutcome(marketId: nat, outcomeIndex: nat) returns (r: seq<Order>)
      ensures r == BookOrders(orders, marketId, outcomeIndex)
    {
      var keys := IdKeys(orders.Keys);
      r := [];
      for i := 0 to |keys|
        invariant r == Select(orders, keys[..i], marketId, outcomeIndex)
      {
        assert keys[..i + 1][..i] == keys[..i];
        assert keys[i] in keys;
        var order := orders[keys[i]];
        if order.marketId == marketId && order.outcomeIndex == outcomeIndex {
          r := r + [order];
        }
      }
      assert keys[..|keys|] == keys;
    }

    /** Matches the new order against the store and stores it; None when it panics
        halfway, with the store half written. */
    method MatchOrder(ctx: Ctx, taker: Order) returns (r: Option<seq<Trade>>)
      requires Keyed(orders)
      modifies this`orders
      ensures match MatchTaker(env, ctx, old(orders), taker)
        case None => r == None
        case Some(m) => r == Some(m.trades) && orders == m.orders
    {
      var allOrders := GetOrdersByMarketAndOutcome(taker.marketId, taker.outcomeIndex);
      var candidates := [];
      for i := 0 to |allOrders|
        invariant candidates == Crossing(env, taker, allOrders[..i])
      {
        assert allOrders[..i + 1][..i] == allOrders[..i];
        var o := allOrders[i];
        if o.status == Open && o.side != taker.side {
          if (taker.side == Buy && Price(env, o) <= Price(env, taker)) ||
             (taker.side == Sell && Price(env, o) >= Price(env, taker)) {
            candidates := candidates + [o];
          }
        }
      }
      assert allOrders[..|allOrders|] == allOrders;
      candidates := StableSort(env, taker, candidates);
      MakersExact(env, orders, taker);
      r := FillLoop(ctx, taker, candidates);
    }

    /** The new order is stored and matched at once. */
    method StoreAndMatch(ctx: Ctx, order: Order) returns (trades: Option<seq<Trade>>)
      requires Keyed(orders)
      modifies this`orders
      ensures match MatchTaker(env, ctx, old(orders)[order.id := order], order)
        case None => trades == None
        case Some(m) => trades == Some(m.trades) && orders == m.orders
    {
      orders := orders[order.id := order];
      trades := MatchOrder(ctx, order);
    }

    /** From the new id on; a panic leaves everything as it was. */
    method PlaceOrder(ctx: Ctx, msg: PostMsg, amount: Coin) returns (r: Reply<Receipt>)
      requires Keyed(orders)
      modifies this
      ensures (State(), r) == OrderBook.PlaceOrder(env, ctx, old(State()), msg, amount)
    {
      var savedOrders, savedSeq := orders, orderSeq;
      var orderID := ToUint64(orderSeq);
      orderSeq := orderSeq + 1;
      var zeroCoin := NewCoin(env, amount.denom, 0);
      if zeroCoin.None? {
        orders, orderSeq := savedOrders, savedSeq;
        return Failed(Panic);
      }
      var side := if msg.side == "BUY" then Buy else Sell;
      var order := Order(orderID, msg.marketId, msg.creator, side, msg.outcomeIndex, msg.price,
                         amount, zeroCoin.value, Open, ctx.time);
      var trades := StoreAndMatch(ctx, order);
      if trades.None? {
        orders, orderSeq := savedOrders, savedSeq;
        return Failed(Panic);
      }
      r := Done(OrderPosted(orderID, trades.value));
    }

    method PostOrder(ctx: Ctx, msg: PostMsg) returns (r: Reply<Receipt>)
      requires Keyed(orders)
      modifies this
      ensures (State(), r) == OrderBook.PostOrder(env, ctx, old(State()), msg)
    {
      if msg.marketId !in markets { return Failed(ErrMarketNotFound); }
      var market := markets[msg.marketId];
      if msg.outcomeIndex >= |market.outcomes| % 0x1_0000_0000 { return Failed(ErrInvalidOutcome); }
      if msg.side != "BUY" && msg.side != "SELL" { return Failed(ErrInvalidRequest); }
      if msg.price == "" { return Failed(ErrInvalidRequest); }
      if msg.amount.None? || msg.amount.value.amount == 0 { return Failed(ErrInvalidAmount); }
      r := PlaceOrder(ctx, msg, msg.amount.value);
    }

    method CancelOrder(creator: string, orderId: nat) returns (r: Reply<Receipt>)
      modifies this
      ensures (State(), r) == OrderBook.CancelOrder(old(State()), creator, orderId)
    {
      if orderId !in orders { return Failed(OrderNotFound); }
      var order := orders[orderId];
      if order.creator != creator { return Failed(NotCreator); }
      if order.status == Filled || order.status == Cancelled { return Failed(NotCancellable); }
      var saved := orders;
      order := order.(status := Cancelled);
      orders := orders[order.id := order];
      if order.filled.amount < order.amount.amount {
        var refund := CoinSub(order.amount, order.filled);
        if refund.None? {
          orders := saved;
          return Failed(Panic);
        }
      }
      r := Done(OrderCancelled);
    }

    /** The keeper's fill. An order that is not overfilled stays so, whatever positive
        amount is offered. */
    method FillDirect(ctx: Ctx, order: Order, filler: string, amount: Coin) returns (r: Option<Trade>)
      modifies this`orders
      ensures match FillDirectly(env, ctx, order, filler, amount)
        case None => r == None && orders == old(orders)
        case Some((o, trade)) => r == Some(trade) && orders == old(orders)[order.id := o]
      ensures r.Some? ==> 0 <= r.value.amount.amount <= Available(order)
      ensures r.Some? ==> order.filled.amount <= orders[order.id].filled.amount <= order.amount.amount
    {
      var remainingAmount := order.amount.amount - order.filled.amount;
      var fillAmount := amount.amount;
      if amount.amount > remainingAmount {
        fillAmount := remainingAmount;
      }
      var tradeCoin := NewCoin(env, amount.denom, fillAmount);
      if tradeCoin.None? { return None; }
      var trade := Trade(ToUint64(ctx.height), order.marketId, order.outcomeIndex, filler, order.creator,
                         order.price, tradeCoin.value, ctx.time);
      var filledCoin := NewCoin(env, order.filled.denom, order.filled.amount + fillAmount);
      if filledCoin.None? { return None; }
      var updated := RecordFill(order, fillAmount);
      orders := orders[order.id := updated];
      r := Some(trade);
    }

    method FillOrder(ctx: Ctx, filler: string, orderId: nat, amount: Option<Coin>) returns (r: Reply<Receipt>)
      modifies this
      ensures (State(), r) == OrderBook.FillOrder(env, ctx, old(State()), filler, orderId, amount)
    {
      if orderId !in orders { return Failed(OrderNotFound); }
      var order := orders[orderId];
      if order.status != Open && order.status != PartiallyFilled { return Failed(NotFillable); }
      if amount.None? || amount.value.amount == 0 { return Failed(ZeroAmount); }
      var remainingAmount := CoinSub(order.amount, order.filled);
      if remainingAmount.None? { return Failed(Panic); }
      if amount.value.amount > remainingAmount.value.amount { return Failed(ExceedsRemaining); }
      var trade := FillDirect(ctx, order, filler, amount.value);
      if trade.None? { return Failed(Panic); }
      r := Done(OrderFilled(order.side, trade.value));
    }

    /** The update of an order's filled amount and status, written out three times in the keeper. */
    method RecordFill(order: Order, fill: int) returns (o: Order)
      ensures o == FillBy(order, fill)
    {
      o := order.(filled := Coin(order.filled.denom, order.filled.amount + fill));
      if o.filled.amount == o.amount.amount {
        o := o.(status := Filled);
      } else {
        o := o.(status := PartiallyFilled);
      }
    }

    method RecordTrade(ctx: Ctx, newOrder: Order, oppOrder: Order, coin: Coin) returns (trade: Trade)
      requires coin.denom == newOrder.amount.denom
      ensures trade == TradeOf(ctx, newOrder, oppOrder, coin.amount)
    {
      trade := Trade(
        ToUint64(ctx.height), newOrder.marketId, newOrder.outcomeIndex,
        if newOrder.side == Buy then newOrder.creator else oppOrder.creator,
        if newOrder.side == Sell then newOrder.creator else oppOrder.creator,
        oppOrder.price, coin, ctx.time);
    }

    /** One turn of the matching loop, on the candidate at i; None when it panics. */
    method Turn(ctx: Ctx, taker: Order, candidates: seq<Order>, i: nat, remaining: int, newOrder: Order,
          trades: seq<Trade>, ghost before: Orders)
      returns (r: Option<(Order, seq<Trade>, int)>)
      requires i < |candidates| && remaining != 0 && candidates[i].status == Open
      requires LoopOk(env, ctx, taker, candidates, i, remaining, orders, newOrder, trades, before)
      modifies this`orders
      ensures match r
        case None => !Tradable(env, taker, Fills(taker.amount.amount, candidates))
        case Some((o, ts, rest)) => LoopOk(env, ctx, taker, candidates, i + 1, rest, orders, o, ts, before)
    {
      NextStored(orders, candidates, i);
      var id := candidates[i].id;
      if id !in orders || orders[id].status != Open {
        return Some((newOrder, trades, remaining));
      }
      var oppOrder := orders[id];
      var available := oppOrder.amount.amount - oppOrder.filled.amount;
      var fill := if remaining <= available then remaining else available;
      if fill == 0 {
        SkipStep(env, ctx, taker, candidates, i, remaining, orders, newOrder, trades, before);
        return Some((newOrder, trades, remaining));
      }
      var tradeCoin := NewCoin(env, newOrder.amount.denom, fill);
      if tradeCoin.None? {
        PanicStep(env, ctx, taker, candidates, i, remaining, orders, newOrder, trades, before);
        return None;
      }
      FillStep(env, ctx, taker, candidates, i, remaining, orders, newOrder, trades, before, fill);
      var trade := RecordTrade(ctx, newOrder, oppOrder, tradeCoin.value);
      oppOrder := RecordFill(oppOrder, fill);
      orders := orders[oppOrder.id := oppOrder];
      var filled := RecordFill(newOrder, fill);
      r := Some((filled, trades + [trade], remaining - fill));
    }

    /** The matching loop of MatchOrder, and the final store of the new order. */
    method FillLoop(ctx: Ctx, taker: Order, candidates: seq<Order>) returns (r: Option<seq<Trade>>)
      requires DistinctIds(candidates) && Stored(orders, candidates)
      requires forall o :: o in candidates ==> o.status == Open
      modifies this`orders
      ensures var fs := Fills(taker.amount.amount, candidates);
        if Tradable(env, taker, fs) then
          && r == Some(TradesOf(ctx, taker, candidates, fs))
          && orders == Settle(old(orders), candidates, fs)[taker.id := FillAll(taker, fs)]
        else r == None
    {
      var newOrder, trades, remaining := taker, [], taker.amount.amount;
      var i := 0;
      while i < |candidates|
        invariant 0 <= i <= |candidates|
        invariant LoopOk(env, ctx, taker, candidates, i, remaining, orders, newOrder, trades, old(orders))
      {
        if remaining == 0 {
          break;
        }
        var next := Turn(ctx, taker, candidates, i, remaining, newOrder, trades, old(orders));
        if next.None? { return None; }
        newOrder, trades, remaining := next.value.0, next.value.1, next.value.2;
        i := i + 1;
      }
      EndStep(env, ctx, taker, candidates, i, remaining, orders, newOrder, trades, old(orders));
      orders := orders[newOrder.id := newOrder];
      r := Some(trades);
    }
  }

  // ---------- One turn of the matching loop ----------

  /** What is left to do amounts to what was to be done at the start. */
  ghost predicate LoopInv(env: Env, ctx: Ctx, taker: Order, cs: seq<Order>, i: nat, remaining: int,
                          now: Orders, newOrder: Order, trades: seq<Trade>, before: Orders)
    requires i <= |cs|
  {
    var all, rest := Fills(taker.amount.amount, cs), Fills(remaining, cs[i..]);
    && (Tradable(env, taker, all) <==> Tradable(env, taker, rest))
    && Settle(now, cs[i..], rest) == Settle(before, cs, all)
    && FillAll(newOrder, rest) == FillAll(taker, all)
    && trades + TradesOf(ctx, taker, cs[i..], rest) == TradesOf(ctx, taker, cs, all)
  }

  /** With what the loop still relies on: the candidates to come are stored as they were read. */
  ghost predicate LoopOk(env: Env, ctx: Ctx, taker: Order, cs: seq<Order>, i: nat, remaining: int,
                         now: Orders, newOrder: Order, trades: seq<Trade>, before: Orders)
    requires i <= |cs|
  {
    && newOrder.(filled := taker.filled, status := taker.status) == taker
    && Stored(now, cs[i..]) && DistinctIds(cs[i..])
    && LoopInv(env, ctx, taker, cs, i, remaining, now, newOrder, trades, before)
  }

  function NextFill(remaining: int, o: Order): int {
    if remaining <= Available(o) then remaining else Available(o)
  }

  /** The fills from i on: the one at i, then those from i + 1 on. */
  lemma Unfold(env: Env, taker: Order, cs: seq<Order>, i: nat, remaining: int)
    requires i < |cs| && remaining != 0
    ensures var rest, f := Fills(remaining, cs[i..]), NextFill(remaining, cs[i]);
      && cs[i..][0] == cs[i] && cs[i..][1..] == cs[i + 1..]
      && rest[0] == f && rest[1..] == Fills(remaining - f, cs[i + 1..])
      && (Tradable(env, taker, rest)
          <==> (f == 0 || (f > 0 && env.validDenom(taker.amount.denom))) && Tradable(env, taker, rest[1..]))
  {
    var rest := Fills(remaining, cs[i..]);
    assert forall k :: 0 <= k < |rest[1..]| ==> rest[1..][k] == rest[k + 1];
  }

  lemma NextStored(orders: Orders, cs: seq<Order>, i: nat)
    requires i < |cs| && Stored(orders, cs[i..]) && DistinctIds(cs[i..])
    ensures cs[i].id in orders && orders[cs[i].id] == cs[i] && cs[i] in cs
    ensures Stored(orders, cs[i + 1..]) && DistinctIds(cs[i + 1..])
    ensures forall o: Order :: o.id == cs[i].id ==> Stored(orders[o.id := o], cs[i + 1..])
  {
    assert cs[i..][0] == cs[i];
    var here, later := cs[i..], cs[i + 1..];
    assert forall k :: 0 <= k < |later| ==> later[k] == here[k + 1];
  }

  lemma SkipStep(env: Env, ctx: Ctx, taker: Order, cs: seq<Order>, i: nat, remaining: int,
                 now: Orders, newOrder: Order, trades: seq<Trade>, before: Orders)
    requires i < |cs| && remaining != 0 && NextFill(remaining, cs[i]) == 0
    requires LoopInv(env, ctx, taker, cs, i, remaining, now, newOrder, trades, before)
    ensures LoopInv(env, ctx, taker, cs, i + 1, remaining, now, newOrder, trades, before)
  {
    Unfold(env, taker, cs, i, remaining);
    var rest, more := Fills(remaining, cs[i..]), Fills(remaining, cs[i + 1..]);
    assert rest[1..] == more;
    assert Settle(now, cs[i..], rest) == Settle(now, cs[i + 1..], more);
    assert FillAll(newOrder, rest) == FillAll(newOrder, more);
    var ts := TradesOf(ctx, taker, cs[i + 1..], more);
    assert TradesOf(ctx, taker, cs[i..], rest) == [] + ts == ts;
  }

  lemma PanicStep(env: Env, ctx: Ctx, taker: Order, cs: seq<Order>, i: nat, remaining: int,
                  now: Orders, newOrder: Order, trades: seq<Trade>, before: Orders)
    requires i < |cs| && remaining != 0 && NextFill(remaining, cs[i]) != 0
    requires NewCoin(env, taker.amount.denom, NextFill(remaining, cs[i])).None?
    requires LoopInv(env, ctx, taker, cs, i, remaining, now, newOrder, trades, before)
    ensures !Tradable(env, taker, Fills(taker.amount.amount, cs))
  {
    Unfold(env, taker, cs, i, remaining);
  }

  lemma FillStep(env: Env, ctx: Ctx, taker: Order, cs: seq<Order>, i: nat, remaining: int,
                 now: Orders, newOrder: Order, trades: seq<Trade>, before: Orders, f: int)
    requires i < |cs| && remaining != 0 && f == NextFill(remaining, cs[i]) != 0
    requires NewCoin(env, taker.amount.denom, f).Some?
    requires LoopInv(env, ctx, taker, cs, i, remaining, now, newOrder, trades, before)
    ensures LoopInv(env, ctx, taker, cs, i + 1, remaining - f, now[cs[i].id := FillBy(cs[i], f)],
                    FillBy(newOrder, f), trades + [TradeOf(ctx, taker, cs[i], f)], before)
  {
    Unfold(env, taker, cs, i, remaining);
    var t, ts := TradeOf(ctx, taker, cs[i], f), TradesOf(ctx, taker, cs[i + 1..], Fills(remaining - f, cs[i + 1..]));
    assert trades + ([t] + ts) == trades + [t] + ts;
  }

  lemma EndStep(env: Env, ctx: Ctx, taker: Order, cs: seq<Order>, i: nat, remaining: int,
                now: Orders, newOrder: Order, trades: seq<Trade>, before: Orders)
    requires i <= |cs| && (i == |cs| || remaining == 0)
    requires LoopOk(env, ctx, taker, cs, i, remaining, now, newOrder, trades, before)
    ensures var all := Fills(taker.amount.amount, cs);
      && Tradable(env, taker, all) && now == Settle(before, cs, all)
      && newOrder == FillAll(taker, all) && trades == TradesOf(ctx, taker, cs, all)
  {
    if i < |cs| {
      NothingLeft(env, ctx, now, taker, newOrder, cs[i..]);
    }
  }
}
