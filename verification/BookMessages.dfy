/** The prediction module's messages told on the fields, in every state that messages can reach:
    when each is accepted, what it is refused with, and every field of what it stores. */
module BookMessages {
  import opened GoInt
  import opened Results
  import opened PredictionTypes
  import opened Markets
  import opened Matching
  import opened Execution
  import opened OrderBook
  import opened BookRuns
  import opened Posting
  import opened Priority

  /** A state that messages can reach. */
  ghost predicate Reached(env: Env, b: Book, evs: seq<Event>) {
    |evs| < 0x1_0000_0000_0000_0000 && b == Run(env, EMPTY_BOOK, evs)
  }

  /** Every stored order is in a denomination that the SDK accepts. */
  ghost predicate DenomsOk(env: Env, orders: Orders) {
    forall k :: k in orders ==> env.validDenom(orders[k].amount.denom)
  }

  lemma StepDenoms(env: Env, ctx: Ctx, b: Book, msg: Msg)
    requires Inv(env, b) && b.next < 0x1_0000_0000_0000_0000 && b.markets.next < 0x1_0000_0000_0000_0000
    requires DenomsOk(env, b.orders)
    ensures DenomsOk(env, Step(env, ctx, b, msg).0.orders)
  {
    if msg.Post? {
      PostDenoms(env, ctx, b, msg.post);
    } else {
      StepKeeps(env, ctx, b, msg);
      NoNewOrder(env, ctx, b, msg);
    }
  }

  lemma NoNewOrder(env: Env, ctx: Ctx, b: Book, msg: Msg)
    requires BookOk(b) && !msg.Post?
    ensures Step(env, ctx, b, msg).0.orders.Keys == b.orders.Keys
  {
  }

  lemma PostDenoms(env: Env, ctx: Ctx, b: Book, msg: PostMsg)
    requires BookOk(b) && b.next < 0x1_0000_0000_0000_0000 && DenomsOk(env, b.orders)
    ensures DenomsOk(env, PostOrder(env, ctx, b, msg).0.orders)
  {
    if PostOrder(env, ctx, b, msg).1.Done? {
      var taker, b', trades := PostShape(env, ctx, b, msg);
      forall k | k in b.orders ensures b'.orders[k].amount == b.orders[k].amount {
        assert MatchedOnce(env, taker, b.orders[k], b'.orders[k]);
      }
    } else {
      PostRefused(env, ctx, b, msg);
    }
  }

  lemma {:induction false} RunDenoms(env: Env, evs: seq<Event>)
    requires |evs| < 0x1_0000_0000_0000_0000
    ensures DenomsOk(env, Run(env, EMPTY_BOOK, evs).orders)
  {
    if evs != [] {
      var n := |evs| - 1;
      RunKeeps(env, evs[..n]);
      RunDenoms(env, evs[..n]);
      StepDenoms(env, evs[n].ctx, Run(env, EMPTY_BOOK, evs[..n]), evs[n].msg);
    }
  }

  lemma ReachedIsOk(env: Env, b: Book, evs: seq<Event>)
    requires Reached(env, b, evs)
    ensures BookOk(b) && DenomsOk(env, b.orders) && b.next <= |evs| && b.markets.next <= |evs|
  {
    RunKeeps(env, evs);
    RunDenoms(env, evs);
  }

  // ---------- CreateMarket ----------

  /** A market needs two outcomes or more, all different and none empty, a question, and a
      deadline after the block's time. */
  lemma CreateAnswers(env: Env, b: Book, evs: seq<Event>, ctx: Ctx, msg: CreateMsg)
    requires Reached(env, b, evs)
    ensures var (b', reply) := Step(env, ctx, b, Create(msg));
      && (reply.Done? <==>
          && |msg.outcomes| >= 2 && msg.question != "" && msg.deadline > ctx.time
          && (forall i :: 0 <= i < |msg.outcomes| ==> msg.outcomes[i] != "")
          && (forall i, j :: 0 <= i < j < |msg.outcomes| ==> msg.outcomes[i] != msg.outcomes[j]))
      && (reply.Done? ==> reply.value == MarketCreated(b.markets.next))
      && (!reply.Done? ==> reply == Failed(ErrInvalidRequest) && b' == b)
  {
    ReachedIsOk(env, b, evs);
  }

  /** The stored market is the message's, created open and now; no other changes. */
  lemma CreateStores(env: Env, b: Book, evs: seq<Event>, ctx: Ctx, msg: CreateMsg)
    requires Reached(env, b, evs) && Step(env, ctx, b, Create(msg)).1.Done?
    ensures var (t, t', id) := (b.markets, Step(env, ctx, b, Create(msg)).0.markets, b.markets.next);
      && Step(env, ctx, b, Create(msg)).0.orders == b.orders && t'.next == t.next + 1
      && t'.byId.Keys == t.byId.Keys + {id}
      && (forall k :: k in t.byId && k != id ==> t'.byId[k] == t.byId[k])
      && var m := t'.byId[id];
        && m.id == id && m.question == msg.question && m.outcomes == msg.outcomes && m.groupId == msg.groupId
        && m.deadline == msg.deadline && m.creator == msg.creator && m.createdAt == ctx.time
        && m.status == "open" && m.totalPool == 0 && m.outcomePools == []
  {
    ReachedIsOk(env, b, evs);
  }

  // ---------- PostOrder ----------

  /** What a post is refused with is the first test that it fails; if it fails none it is
      accepted, or panics on its denomination or on a negative fill. */
  lemma PostRefusals(env: Env, b: Book, evs: seq<Event>, ctx: Ctx, msg: PostMsg)
    requires Reached(env, b, evs)
    ensures var reply := PostOrder(env, ctx, b, msg).1;
      if msg.marketId !in b.markets.byId then reply == Failed(ErrMarketNotFound)
      else if msg.outcomeIndex >= |b.markets.byId[msg.marketId].outcomes| % 0x1_0000_0000
      then reply == Failed(ErrInvalidOutcome)
      else if !(msg.side == "BUY" || msg.side == "SELL") || msg.price == "" then reply == Failed(ErrInvalidRequest)
      else if msg.amount.None? || msg.amount.value.amount == 0 then reply == Failed(ErrInvalidAmount)
      else if !env.validDenom(msg.amount.value.denom) then reply == Failed(Panic)
      else if MeetsNegative(msg.amount.value.amount, MakersOf(env, ctx, b, msg)) then reply == Failed(Panic)
      else reply.Done?
    ensures !PostOrder(env, ctx, b, msg).1.Done? ==> PostOrder(env, ctx, b, msg).0 == b
  {
    ReachedIsOk(env, b, evs);
    PostAnswers(env, ctx, b, msg);
  }

  /** The new order is the message's: on the side it names, for its amount, filled by what the
      trades add up to. */
  lemma PostStores(env: Env, b: Book, evs: seq<Event>, ctx: Ctx, msg: PostMsg)
    requires Reached(env, b, evs) && PostOrder(env, ctx, b, msg).1.Done?
    ensures var (b', reply) := PostOrder(env, ctx, b, msg);
      && reply.value.OrderPosted? && reply.value.orderId == b.next
      && b'.markets == b.markets && b'.next == b.next + 1 && b'.orders.Keys == b.orders.Keys + {b.next}
      && msg.amount.Some? && var o := b'.orders[b.next];
        && o.id == b.next && o.marketId == msg.marketId && o.creator == msg.creator
        && o.outcomeIndex == msg.outcomeIndex && o.price == msg.price && o.createdAt == ctx.time
        && (msg.side == "BUY" ==> o.side == Buy) && (msg.side != "BUY" ==> o.side == Sell)
        && o.amount == msg.amount.value
        && o.filled == Coin(msg.amount.value.denom, Volume(reply.value.trades))
        && o.status == (if o.filled.amount == 0 then Open
                        else if o.filled.amount == o.amount.amount then Filled else PartiallyFilled)
  {
    ReachedIsOk(env, b, evs);
    var taker, b', trades := PostShape(env, ctx, b, msg);
  }

  /** What an order still wants. */
  function Left(o: Order): int {
    o.amount.amount - o.filled.amount
  }

  /** A resting order that a post may trade with: OPEN, of the same book and the other side, at
      a price that the message's limit allows. */
  predicate Meets(env: Env, msg: PostMsg, o: Order) {
    && o.marketId == msg.marketId && o.outcomeIndex == msg.outcomeIndex && o.status == Open
    && var (limit, price) := (ParsePrice(env, msg.price), ParsePrice(env, o.price));
      if msg.side == "BUY" then o.side == Sell && price <= limit else o.side == Buy && price >= limit
  }

  lemma MeetsIsCandidate(env: Env, ctx: Ctx, id: nat, msg: PostMsg, o: Order)
    requires msg.amount.Some? && OrderOk(o)
    ensures Meets(env, msg, o) <==> IsCandidate(env, NewOrder(ctx, id, msg, msg.amount.value), o)
  {
  }

  /** A post changes only orders that it meets; of two that it meets the one with the worse
      price, or the later one at the same price, changes only if the other is then FILLED; and
      if the new order wants more at the end, all of them are. */
  lemma PostPriority(env: Env, b: Book, evs: seq<Event>, ctx: Ctx, msg: PostMsg, first: nat, second: nat)
    requires Reached(env, b, evs) && PostOrder(env, ctx, b, msg).1.Done?
    requires first in b.orders && second in b.orders
    ensures var orders := PostOrder(env, ctx, b, msg).0.orders;
      && b.next in orders && first in orders && second in orders
      && (!Meets(env, msg, b.orders[first]) ==> orders[first] == b.orders[first])
      && (Meets(env, msg, b.orders[first]) && orders[b.next].status != Filled ==> orders[first].status == Filled)
      && (Meets(env, msg, b.orders[first]) && Meets(env, msg, b.orders[second])
          && Precedes(env, orders[b.next], b.orders[first], b.orders[second]) ==>
            orders[second] == b.orders[second] || orders[first].status == Filled)
  {
    ReachedIsOk(env, b, evs);
    var taker, orders, m := PostIsFresh(env, ctx, b, msg);
    MatchShape(env, ctx, b, orders, taker, m);
    MeetsIsCandidate(env, ctx, b.next, msg, b.orders[first]);
    MeetsIsCandidate(env, ctx, b.next, msg, b.orders[second]);
    MatchPriority(env, ctx, b, orders, taker, m, first, second);
  }

  lemma MatchPriority(env: Env, ctx: Ctx, b: Book, orders: Orders, taker: Order, m: Match, first: nat, second: nat)
    requires Fresh(orders, taker) && orders == b.orders[taker.id := taker] && taker.id !in b.orders
    requires MatchTaker(env, ctx, orders, taker) == Some(m) && first in b.orders && second in b.orders
    requires PostedAs(env, b, Book(b.markets, m.orders, b.next + 1), taker, m.trades)
    ensures taker.id in m.orders && m.orders[taker.id].side == taker.side && first in m.orders && second in m.orders
    ensures !IsCandidate(env, taker, b.orders[first]) ==> m.orders[first] == b.orders[first]
    ensures IsCandidate(env, taker, b.orders[first]) && m.orders[taker.id].status != Filled ==>
      m.orders[first].status == Filled
    ensures IsCandidate(env, taker, b.orders[first]) ==> IsCandidate(env, taker, b.orders[second]) ==>
      Precedes(env, taker, b.orders[first], b.orders[second]) ==>
        m.orders[second] == b.orders[second] || m.orders[first].status == Filled
  {
    assert MatchedOnce(env, taker, b.orders[first], m.orders[first]);
    if IsCandidate(env, taker, b.orders[first]) && IsCandidate(env, taker, b.orders[second])
      && Precedes(env, taker, b.orders[first], b.orders[second])
    {
      PriorityRespected(env, ctx, orders, taker, m, first, second);
    }
  }

  /** Every trade of a post is with one order that it meets, at that order's price and for no
      more than it has left, which fills it by just that; the buyer is who posted or had posted
      the BUY. */
  lemma PostTrades(env: Env, b: Book, evs: seq<Event>, ctx: Ctx, msg: PostMsg, t: Trade) returns (o: Order)
    requires Reached(env, b, evs) && PostOrder(env, ctx, b, msg).1.Done?
    requires PostOrder(env, ctx, b, msg).1.value.OrderPosted? && t in PostOrder(env, ctx, b, msg).1.value.trades
    ensures o.id in b.orders && b.orders[o.id] == o && Meets(env, msg, o)
    ensures 0 < t.amount.amount <= Left(o) && msg.amount.Some?
    ensures var (buyer, seller) := if msg.side == "BUY" then (msg.creator, o.creator) else (o.creator, msg.creator);
      t == Trade(ToUint64(ctx.height), msg.marketId, msg.outcomeIndex, buyer, seller, o.price,
                 Coin(msg.amount.value.denom, t.amount.amount), ctx.time)
    ensures var orders := PostOrder(env, ctx, b, msg).0.orders;
      && o.id in orders && orders[o.id].filled == Coin(o.filled.denom, t.amount.amount)
      && orders[o.id].status == if t.amount.amount == Left(o) then Filled else PartiallyFilled
  {
    ReachedIsOk(env, b, evs);
    var taker, orders, m := PostIsFresh(env, ctx, b, msg);
    o := TradeIsTheFill(env, ctx, orders, taker, m, t);
    MeetsIsCandidate(env, ctx, b.next, msg, o);
  }

  // ---------- CancelOrder ----------

  /** Only the creator cancels, and only what is not FILLED or CANCELLED; in a state that
      messages can reach, taking the fill off the amount never panics. */
  lemma CancelAnswers(env: Env, b: Book, evs: seq<Event>, creator: string, orderId: nat)
    requires Reached(env, b, evs)
    ensures var (b', reply) := CancelOrder(b, creator, orderId);
      if orderId !in b.orders then reply == Failed(OrderNotFound) && b' == b
      else if b.orders[orderId].creator != creator then reply == Failed(NotCreator) && b' == b
      else if b.orders[orderId].status in {Filled, Cancelled} then reply == Failed(NotCancellable) && b' == b
      else reply == Done(OrderCancelled)
  {
    ReachedIsOk(env, b, evs);
  }

  /** An accepted cancel makes that order CANCELLED, and changes nothing else. */
  lemma CancelStores(env: Env, b: Book, evs: seq<Event>, creator: string, orderId: nat)
    requires Reached(env, b, evs) && CancelOrder(b, creator, orderId).1.Done?
    ensures orderId in b.orders && b.orders[orderId].creator == creator
    ensures var (b', o) := (CancelOrder(b, creator, orderId).0, b.orders[orderId]);
      && b'.markets == b.markets && b'.next == b.next && b'.orders.Keys == b.orders.Keys
      && (forall k :: k in b.orders && k != orderId ==> b'.orders[k] == b.orders[k])
      && b'.orders[orderId].status == Cancelled
      && b'.orders[orderId].(status := o.status) == o
  {
    ReachedIsOk(env, b, evs);
  }

  // ---------- FillOrder ----------

  /** A direct fill takes a positive amount, up to what is left of an OPEN or PARTIALLY_FILLED
      order; a negative one panics. */
  lemma FillAnswers(env: Env, b: Book, evs: seq<Event>, ctx: Ctx, filler: string, orderId: nat, amount: Option<Coin>)
    requires Reached(env, b, evs)
    ensures var reply := FillOrder(env, ctx, b, filler, orderId, amount).1;
      if orderId !in b.orders then reply == Failed(OrderNotFound)
      else
        var o := b.orders[orderId];
        if o.status !in {Open, PartiallyFilled} then reply == Failed(NotFillable)
        else if amount.None? || amount.value.amount == 0 then reply == Failed(ZeroAmount)
        else if o.amount.amount < 0 then reply == Failed(Panic)
        else if amount.value.amount > Left(o) then reply == Failed(ExceedsRemaining)
        else if amount.value.amount < 0 || !env.validDenom(amount.value.denom)
        then reply == Failed(Panic)
        else reply.Done?
    ensures !FillOrder(env, ctx, b, filler, orderId, amount).1.Done? ==>
      FillOrder(env, ctx, b, filler, orderId, amount).0 == b
  {
    ReachedIsOk(env, b, evs);
  }

  /** An accepted direct fill adds exactly the offered amount to that order's fill, in one
      trade at the order's price with its creator; nothing else changes. */
  lemma FillStores(env: Env, b: Book, evs: seq<Event>, ctx: Ctx, filler: string, orderId: nat, amount: Option<Coin>)
    requires Reached(env, b, evs) && FillOrder(env, ctx, b, filler, orderId, amount).1.Done?
    ensures orderId in b.orders && amount.Some? && 0 < amount.value.amount <= Left(b.orders[orderId])
    ensures var (b', reply) := FillOrder(env, ctx, b, filler, orderId, amount);
      var (o, q) := (b.orders[orderId], amount.value);
      && b'.markets == b.markets && b'.next == b.next && b'.orders.Keys == b.orders.Keys
      && (forall k :: k in b.orders && k != orderId ==> b'.orders[k] == b.orders[k])
      && b'.orders[orderId] == o.(filled := Coin(o.filled.denom, o.filled.amount + q.amount),
                                  status := if q.amount == Left(o) then Filled else PartiallyFilled)
      && reply.value == OrderFilled(o.side, Trade(ToUint64(ctx.height), o.marketId, o.outcomeIndex, filler, o.creator,
                                                  o.price, q, ctx.time))
  {
    ReachedIsOk(env, b, evs);
  }
}
