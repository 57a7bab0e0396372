/** What a post will do, told from the book before it: refused, aborted by a panic, or
    accepted, and how much of the new order is left. */
module Posting {
  import opened Results
  import opened PredictionTypes
  import opened Matching
  import opened Execution
  import opened OrderBook
  import opened BookRuns

  /** The tests of the handler. */
  predicate WellFormed(b: Book, msg: PostMsg) {
    && msg.marketId in b.markets.byId
    && msg.outcomeIndex < |b.markets.byId[msg.marketId].outcomes| % 0x1_0000_0000
    && (msg.side == "BUY" || msg.side == "SELL") && msg.price != ""
    && msg.amount.Some? && msg.amount.value.amount != 0
  }

  /** The order a post would add. */
  function Taker(ctx: Ctx, b: Book, msg: PostMsg): Order
    requires msg.amount.Some?
  {
    NewOrder(ctx, b.next, msg, msg.amount.value)
  }

  /** The makers it would meet, in priority order. */
  function MakersOf(env: Env, ctx: Ctx, b: Book, msg: PostMsg): seq<Order>
    requires msg.amount.Some?
  {
    Makers(env, b.orders[b.next := Taker(ctx, b, msg)], Taker(ctx, b, msg))
  }

  /** The denomination is bad, or a fill would be negative. */
  ghost predicate Aborts(env: Env, ctx: Ctx, b: Book, msg: PostMsg)
    requires msg.amount.Some?
  {
    || !env.validDenom(msg.amount.value.denom)
    || MeetsNegative(msg.amount.value.amount, MakersOf(env, ctx, b, msg))
  }

  lemma PlaceAnswers(env: Env, ctx: Ctx, b: Book, msg: PostMsg, taker: Order)
    requires BookOk(b) && b.next < 0x1_0000_0000_0000_0000 && WellFormed(b, msg) && taker == Taker(ctx, b, msg)
    ensures PlaceOrder(env, ctx, b, msg, msg.amount.value).1
         == if Aborts(env, ctx, b, msg) then Failed(Panic)
            else
              Done(OrderPosted(b.next, TradesOf(ctx, taker, MakersOf(env, ctx, b, msg),
                                                Fills(taker.amount.amount, MakersOf(env, ctx, b, msg)))))
  {
    if env.validDenom(taker.amount.denom) {
      MatchPanics(env, ctx, b.orders[b.next := taker], taker);
    }
  }

  /** A post aborts exactly when it is well formed but its denomination is bad, it wants a
      negative amount and meets a maker, or it reaches a maker with a negative amount before
      it is satisfied; and it is accepted exactly when it is well formed and does not abort. */
  lemma PostAnswers(env: Env, ctx: Ctx, b: Book, msg: PostMsg)
    requires BookOk(b) && b.next < 0x1_0000_0000_0000_0000
    ensures PostOrder(env, ctx, b, msg).1 == Failed(Panic) <==> WellFormed(b, msg) && Aborts(env, ctx, b, msg)
    ensures PostOrder(env, ctx, b, msg).1.Done? <==> WellFormed(b, msg) && !Aborts(env, ctx, b, msg)
  {
    if WellFormed(b, msg) {
      PlaceAnswers(env, ctx, b, msg, Taker(ctx, b, msg));
    }
  }

  /** Whether a taker wants more than it can get. */
  predicate WantsMore(wanted: int, makers: seq<Order>) {
    wanted < 0 || TotalAvailable(makers) < wanted
  }

  /** The new order is filled by what the makers have for it, and ends FILLED exactly when
      that is all it wants. */
  lemma PostFills(env: Env, ctx: Ctx, b: Book, msg: PostMsg)
    requires BookOk(b) && b.next < 0x1_0000_0000_0000_0000
    requires PostOrder(env, ctx, b, msg).1.Done?
    ensures var b' := PostOrder(env, ctx, b, msg).0;
      var makers := MakersOf(env, ctx, b, msg);
      && b.next in b'.orders
      && b'.orders[b.next] == After(Taker(ctx, b, msg), Tradeable(msg.amount.value.amount, makers))
      && (b'.orders[b.next].status != Filled <==> WantsMore(msg.amount.value.amount, makers))
  {
    var taker, orders, m := PostIsFresh(env, ctx, b, msg);
    MatchFills(env, ctx, orders, taker, m);
  }

  lemma MatchFills(env: Env, ctx: Ctx, orders: Orders, taker: Order, m: Match)
    requires Fresh(orders, taker) && taker.filled.amount == 0 && MatchTaker(env, ctx, orders, taker) == Some(m)
    ensures taker.id in m.orders
    ensures m.orders[taker.id] == After(taker, Tradeable(taker.amount.amount, Makers(env, orders, taker)))
    ensures m.orders[taker.id].status != Filled <==> WantsMore(taker.amount.amount, Makers(env, orders, taker))
  {
    var p := MatchIsGreedy(env, ctx, orders, taker, m);
    TakerFilled(env, ctx, orders, taker, m);
    FilledExactly(taker, Makers(env, orders, taker));
  }

  lemma TakerFilled(env: Env, ctx: Ctx, orders: Orders, taker: Order, m: Match)
    requires Fresh(orders, taker) && MatchTaker(env, ctx, orders, taker) == Some(m)
    ensures taker.id in m.orders && m.orders[taker.id] == After(taker, Volume(m.trades))
  {
    var makers, fs := MatchPlan(env, ctx, orders, taker, m);
    MatchTakerExact(env, ctx, orders, taker, makers, fs, m);
  }

  lemma FilledExactly(taker: Order, makers: seq<Order>)
    requires taker.filled.amount == 0 && taker.status == Open && taker.amount.amount != 0
    ensures After(taker, Tradeable(taker.amount.amount, makers)).status != Filled
       <==> WantsMore(taker.amount.amount, makers)
  {
  }
}
