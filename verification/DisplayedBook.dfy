/** The displayed book: the orders still open to fills, OPEN or PARTIALLY_FILLED.
    The repository's testing guide lists both as matching conditions, but MatchOrder
    looks at OPEN orders alone, so the displayed book can stay crossed. */
module DisplayedBook {
  import opened Results
  import opened PredictionTypes
  import opened Markets
  import opened Matching
  import opened Execution
  import opened OrderBook
  import opened BookRuns
  import opened Posting

  predicate Live(o: Order) {
    o.status == Open || o.status == PartiallyFilled
  }

  /** A candidate but for its status. */
  predicate Meets(env: Env, taker: Order, o: Order) {
    && o.marketId == taker.marketId && o.outcomeIndex == taker.outcomeIndex
    && o.side != taker.side && Crosses(env, taker, o)
  }

  /** Some displayed order could trade with the taker. */
  ghost predicate MeetsLive(env: Env, taker: Order, orders: Orders) {
    exists k :: k in orders && Live(orders[k]) && Meets(env, taker, orders[k])
  }

  ghost predicate MeetsPartial(env: Env, taker: Order, orders: Orders) {
    exists k :: k in orders && orders[k].status == PartiallyFilled && Meets(env, taker, orders[k])
  }

  lemma MetBefore(env: Env, taker: Order, o: Order, o': Order)
    requires MatchedOnce(env, taker, o, o')
    requires IsCandidate(env, taker, o) ==> o'.status == Filled
    ensures Live(o') && Meets(env, taker, o') <==> o.status == PartiallyFilled && Meets(env, taker, o)
  {
  }

  lemma CrossedAfter(env: Env, b: Book, b': Book, taker: Order, trades: seq<Trade>)
    requires BookOk(b) && PostedAs(env, b, b', taker, trades) && Live(b'.orders[taker.id])
    ensures MeetsLive(env, taker, b'.orders) <==> MeetsPartial(env, taker, b.orders)
  {
    forall k | k in b.orders
      ensures Live(b'.orders[k]) && Meets(env, taker, b'.orders[k])
         <==> b.orders[k].status == PartiallyFilled && Meets(env, taker, b.orders[k])
    {
      assert MatchedOnce(env, taker, b.orders[k], b'.orders[k]);
      MetBefore(env, taker, b.orders[k], b'.orders[k]);
    }
    if MeetsLive(env, taker, b'.orders) {
      var k :| k in b'.orders && Live(b'.orders[k]) && Meets(env, taker, b'.orders[k]);
      assert k != taker.id;
      assert b.orders[k].status == PartiallyFilled;
    }
    if MeetsPartial(env, taker, b.orders) {
      var k :| k in b.orders && b.orders[k].status == PartiallyFilled && Meets(env, taker, b.orders[k]);
      assert k in b'.orders && Live(b'.orders[k]);
    }
  }

  /** A posted order that stays on display faces a displayed order it could have traded
      with exactly when a PARTIALLY_FILLED one was there before. */
  lemma DisplayedCrossing(env: Env, ctx: Ctx, evs: seq<BookRuns.Event>, msg: PostMsg)
    requires |evs| < 0x1_0000_0000_0000_0000
    requires PostOrder(env, ctx, Run(env, EMPTY_BOOK, evs), msg).1.Done?
    ensures var b := Run(env, EMPTY_BOOK, evs);
      var b' := PostOrder(env, ctx, b, msg).0;
      var taker := NewOrder(ctx, b.next, msg, msg.amount.value);
      && b.next in b'.orders
      && (Live(b'.orders[b.next]) ==> (MeetsLive(env, taker, b'.orders) <==> MeetsPartial(env, taker, b.orders)))
  {
    RunKeeps(env, evs);
    var b := Run(env, EMPTY_BOOK, evs);
    var taker, b', trades := PostShape(env, ctx, b, msg);
    if Live(b'.orders[taker.id]) {
      CrossedAfter(env, b, b', taker, trades);
    }
  }

  // ---------- The whole displayed book ----------

  /** No displayed buy meets a displayed sell of the same market and outcome. */
  ghost predicate Uncrossed(env: Env, orders: Orders) {
    forall i, j :: i in orders && j in orders && Live(orders[i]) && Live(orders[j])
      && orders[i].side == Buy && orders[j].side == Sell
      && orders[i].marketId == orders[j].marketId && orders[i].outcomeIndex == orders[j].outcomeIndex
      ==> Price(env, orders[i]) < Price(env, orders[j])
  }

  /** What an order may become without crossing anything it did not cross. */
  ghost predicate Fades(o: Order, o': Order) {
    o'.(filled := o.filled, status := o.status) == o && (Live(o') ==> Live(o))
  }

  lemma MatchedFades(env: Env, taker: Order, o: Order, o': Order)
    requires MatchedOnce(env, taker, o, o')
    ensures Fades(o, o')
  {
  }

  /** If the old orders only fade and nothing displayed meets the new one, no pair crosses. */
  lemma UncrossedWith(env: Env, orders: Orders, orders': Orders, taker: Order)
    requires Uncrossed(env, orders) && orders'.Keys == orders.Keys + {taker.id} && taker.id !in orders
    requires forall k :: k in orders ==> Fades(orders[k], orders'[k])
    requires Live(orders'[taker.id]) ==> SameBut(taker, orders'[taker.id]) && !MeetsLive(env, taker, orders')
    ensures Uncrossed(env, orders')
  {
    forall i, j | i in orders' && j in orders' && Live(orders'[i]) && Live(orders'[j])
      && orders'[i].side == Buy && orders'[j].side == Sell
      && orders'[i].marketId == orders'[j].marketId && orders'[i].outcomeIndex == orders'[j].outcomeIndex
      ensures Price(env, orders'[i]) < Price(env, orders'[j])
    {
      if i == taker.id {
        assert !Meets(env, taker, orders'[j]);
      } else if j == taker.id {
        assert !Meets(env, taker, orders'[i]);
      } else {
        assert Fades(orders[i], orders'[i]) && Fades(orders[j], orders'[j]);
      }
    }
  }

  /** The same order up to what is filled of it. */
  predicate SameBut(o: Order, o': Order) {
    o'.(filled := o.filled, status := o.status) == o
  }

  lemma CrossedBy(env: Env, orders: Orders, taker: Order, o: Order)
    requires taker.id in orders && orders[taker.id] == o && SameBut(taker, o) && Live(o)
    requires taker.side == Buy || taker.side == Sell
    requires forall k :: k in orders ==> orders[k].side == Buy || orders[k].side == Sell
    requires MeetsLive(env, taker, orders)
    ensures !Uncrossed(env, orders)
  {
    var k :| k in orders && Live(orders[k]) && Meets(env, taker, orders[k]);
    var (buy, sell) := if taker.side == Buy then (taker.id, k) else (k, taker.id);
    assert Price(env, orders[buy]) >= Price(env, orders[sell]);
  }

  /** An uncrossed displayed book stays so through a post, unless the new order stays on
      display and a PARTIALLY_FILLED order it could have traded with was there before. */
  lemma PostedDisplay(env: Env, b: Book, b': Book, taker: Order, trades: seq<Trade>)
    requires Inv(env, b) && PostedAs(env, b, b', taker, trades) && Uncrossed(env, b.orders)
    ensures Uncrossed(env, b'.orders) <==> !(Live(b'.orders[taker.id]) && MeetsPartial(env, taker, b.orders))
  {
    var o := b'.orders[taker.id];
    forall k | k in b.orders ensures Fades(b.orders[k], b'.orders[k]) {
      assert MatchedOnce(env, taker, b.orders[k], b'.orders[k]);
      MatchedFades(env, taker, b.orders[k], b'.orders[k]);
    }
    if Live(o) {
      CrossedAfter(env, b, b', taker, trades);
    }
    if Live(o) && MeetsPartial(env, taker, b.orders) {
      PostedKeeps(env, b, b', taker, trades);
      CrossedBy(env, b'.orders, taker, o);
    } else {
      UncrossedWith(env, b.orders, b'.orders, taker);
    }
  }

  /** A post that will leave a crossed pair on display, told from the book before it: it is
      accepted, it wants more than its makers have, and it could trade with a PARTIALLY_FILLED
      order, which the matching does not look at. */
  ghost predicate LeavesCrossed(env: Env, ctx: Ctx, b: Book, msg: PostMsg) {
    && WellFormed(b, msg) && !Aborts(env, ctx, b, msg)
    && WantsMore(msg.amount.value.amount, MakersOf(env, ctx, b, msg))
    && MeetsPartial(env, Taker(ctx, b, msg), b.orders)
  }

  lemma PostDisplay(env: Env, ctx: Ctx, b: Book, msg: PostMsg)
    requires Inv(env, b) && b.next < 0x1_0000_0000_0000_0000 && Uncrossed(env, b.orders)
    ensures Uncrossed(env, PostOrder(env, ctx, b, msg).0.orders) <==> !LeavesCrossed(env, ctx, b, msg)
  {
    PostAnswers(env, ctx, b, msg);
    if PostOrder(env, ctx, b, msg).1.Done? {
      PostFills(env, ctx, b, msg);
      var taker, b', trades := PostShape(env, ctx, b, msg);
      PostedDisplay(env, b, b', taker, trades);
      assert Live(b'.orders[taker.id]) <==> b'.orders[taker.id].status != Filled;
    } else {
      PostRefused(env, ctx, b, msg);
    }
  }

  ghost predicate Spoils(env: Env, ctx: Ctx, b: Book, msg: Msg) {
    msg.Post? && LeavesCrossed(env, ctx, b, msg.post)
  }

  /** Only such posts cross the displayed book. */
  lemma StepDisplay(env: Env, ctx: Ctx, b: Book, msg: Msg)
    requires Inv(env, b) && b.next < 0x1_0000_0000_0000_0000 && Uncrossed(env, b.orders)
    ensures Uncrossed(env, Step(env, ctx, b, msg).0.orders) <==> !Spoils(env, ctx, b, msg)
  {
    match msg
    case Create(m) =>
    case Post(m) => PostDisplay(env, ctx, b, m);
    case Cancel(creator, id) => CancelDisplay(env, b, creator, id);
    case Fill(filler, id, amount) => FillDisplay(env, ctx, b, filler, id, amount);
  }

  lemma CancelDisplay(env: Env, b: Book, creator: string, orderId: nat)
    requires Inv(env, b) && Uncrossed(env, b.orders)
    ensures Uncrossed(env, CancelOrder(b, creator, orderId).0.orders)
  {
    FadeDisplay(env, b.orders, CancelOrder(b, creator, orderId).0.orders);
  }

  lemma FillDisplay(env: Env, ctx: Ctx, b: Book, filler: string, orderId: nat, amount: Option<Coin>)
    requires Inv(env, b) && Uncrossed(env, b.orders)
    ensures Uncrossed(env, FillOrder(env, ctx, b, filler, orderId, amount).0.orders)
  {
    FadeDisplay(env, b.orders, FillOrder(env, ctx, b, filler, orderId, amount).0.orders);
  }

  lemma FadeDisplay(env: Env, orders: Orders, orders': Orders)
    requires Uncrossed(env, orders) && orders'.Keys == orders.Keys
    requires forall k :: k in orders ==> Fades(orders[k], orders'[k])
    ensures Uncrossed(env, orders')
  {
    forall k | k in orders ensures Fades(orders[k], orders'[k]) {
    }
  }

  /** After every prefix of the run. */
  ghost predicate AlwaysUncrossed(env: Env, evs: seq<BookRuns.Event>) {
    && Uncrossed(env, Run(env, EMPTY_BOOK, evs).orders)
    && (evs == [] || AlwaysUncrossed(env, evs[..|evs| - 1]))
  }

  /** No message of the run, in the book it met. */
  ghost predicate NeverSpoilt(env: Env, evs: seq<BookRuns.Event>) {
    evs == []
    || var (front, last) := (evs[..|evs| - 1], evs[|evs| - 1]);
      NeverSpoilt(env, front) && !Spoils(env, last.ctx, Run(env, EMPTY_BOOK, front), last.msg)
  }

  /** Over any run: the displayed book is uncrossed at every point exactly when no message
      was a post that leaves it crossed. */
  lemma {:induction false} DisplayOverRuns(env: Env, evs: seq<BookRuns.Event>)
    requires |evs| < 0x1_0000_0000_0000_0000
    ensures AlwaysUncrossed(env, evs) <==> NeverSpoilt(env, evs)
  {
    if evs != [] {
      var front, last := evs[..|evs| - 1], evs[|evs| - 1];
      DisplayOverRuns(env, front);
      RunKeeps(env, front);
      if AlwaysUncrossed(env, front) {
        StepDisplay(env, last.ctx, Run(env, EMPTY_BOOK, front), last.msg);
      }
    }
  }

  // ---------- A crossed book ----------

  /** A post that finds no candidate is stored as it is, without trades. */
  lemma QuietPost(env: Env, ctx: Ctx, b: Book, msg: PostMsg, taker: Order)
    requires BookOk(b) && b.next < 0x1_0000_0000_0000_0000
    requires msg.marketId in b.markets.byId
    requires msg.outcomeIndex < |b.markets.byId[msg.marketId].outcomes| < 0x1_0000_0000
    requires (msg.side == "BUY" || msg.side == "SELL") && msg.price != ""
    requires msg.amount.Some? && msg.amount.value.amount != 0
    requires env.validDenom(msg.amount.value.denom)
    requires taker == NewOrder(ctx, b.next, msg, msg.amount.value)
    requires forall k :: k in b.orders ==> !IsCandidate(env, taker, b.orders[k])
    ensures PostOrder(env, ctx, b, msg)
         == (Book(b.markets, b.orders[b.next := taker], b.next + 1), Done(OrderPosted(b.next, [])))
  {
    var orders := b.orders[b.next := taker];
    QuietStored(env, b, orders, taker);
    QuietMatch(env, ctx, orders, taker);
    QuietPlace(env, ctx, b, msg, orders, taker);
    PostPlaces(env, ctx, b, msg);
  }

  lemma QuietStored(env: Env, b: Book, orders: Orders, taker: Order)
    requires BookOk(b) && orders == b.orders[b.next := taker] && taker.id == b.next
    requires forall k :: k in b.orders ==> !IsCandidate(env, taker, b.orders[k])
    ensures Keyed(orders) && forall k :: k in orders ==> !IsCandidate(env, taker, orders[k])
  {
  }

  lemma QuietPlace(env: Env, ctx: Ctx, b: Book, msg: PostMsg, orders: Orders, taker: Order)
    requires b.next < 0x1_0000_0000_0000_0000 && msg.amount.Some? && env.validDenom(msg.amount.value.denom)
    requires taker == NewOrder(ctx, b.next, msg, msg.amount.value) && orders == b.orders[b.next := taker]
    requires MatchTaker(env, ctx, orders, taker) == Some(Match(orders, []))
    ensures PlaceOrder(env, ctx, b, msg, msg.amount.value)
         == (Book(b.markets, orders, b.next + 1), Done(OrderPosted(b.next, [])))
  {
  }

  lemma PostPlaces(env: Env, ctx: Ctx, b: Book, msg: PostMsg)
    requires WellFormed(b, msg)
    ensures PostOrder(env, ctx, b, msg) == PlaceOrder(env, ctx, b, msg, msg.amount.value)
  {
  }

  lemma QuietMatch(env: Env, ctx: Ctx, orders: Orders, taker: Order)
    requires Keyed(orders) && taker.id in orders && orders[taker.id] == taker
    requires forall k :: k in orders ==> !IsCandidate(env, taker, orders[k])
    ensures MatchTaker(env, ctx, orders, taker) == Some(Match(orders, []))
  {
    NoMakers(env, orders, taker);
    assert Fills(taker.amount.amount, []) == [];
    assert orders[taker.id := taker] == orders;
  }

  lemma NoMakers(env: Env, orders: Orders, taker: Order)
    requires Keyed(orders) && forall k :: k in orders ==> !IsCandidate(env, taker, orders[k])
    ensures Makers(env, orders, taker) == []
  {
    CandidatesExact(env, orders, taker);
    HasFirst(Candidates(env, orders, taker));
  }

  lemma HasFirst(s: seq<Order>)
    ensures s != [] ==> exists o :: o in s
  {
    if s != [] {
      assert s[0] in s;
    }
  }

  const CTX: Ctx := Ctx(1, 1)
  const MARKET: CreateMsg := CreateMsg("a", "q", ["yes", "no"], "g", 2)
  const SELL: PostMsg := PostMsg("a", 0, "SELL", 0, "1", Some(Coin("usd", 10)))
  const BUY: PostMsg := PostMsg("c", 0, "BUY", 0, "1", Some(Coin("usd", 5)))

  /** A market, a sell of 10, a direct fill of 4 of it and a buy of 5 at the same price. */
  function Example(): seq<BookRuns.Event> {
    [BookRuns.Event(CTX, Create(MARKET)), BookRuns.Event(CTX, Post(SELL)),
     BookRuns.Event(CTX, Fill("b", 0, Some(Coin("usd", 4)))), BookRuns.Event(CTX, Post(BUY))]
  }

  function Table(): MarketTable {
    MarketTable(map[0 := NewMarket(CTX, 0, MARKET)], 1)
  }

  function SellOrder(filled: nat, status: Status): Order {
    Order(0, 0, "a", Sell, 0, "1", Coin("usd", 10), Coin("usd", filled), status, 1)
  }

  lemma AfterMarket(env: Env)
    ensures Run(env, EMPTY_BOOK, Example()[..1]) == Book(Table(), map[], 0)
  {
    RunOne(env, Example()[..1]);
    assert Example()[..1][..0] == [];
    assert DistinctNonEmpty(MARKET.outcomes);
  }

  lemma TableOk()
    ensures MarketsOk(Table())
  {
    assert DistinctNonEmpty(MARKET.outcomes);
  }

  lemma AfterSell(env: Env)
    requires env.validDenom("usd")
    ensures Run(env, EMPTY_BOOK, Example()[..2]) == Book(Table(), map[0 := SellOrder(0, Open)], 1)
  {
    AfterMarket(env);
    TableOk();
    RunOne(env, Example()[..2]);
    assert Example()[..2][..1] == Example()[..1];
    QuietPost(env, CTX, Book(Table(), map[], 0), SELL, SellOrder(0, Open));
    assert map[][0 := SellOrder(0, Open)] == map[0 := SellOrder(0, Open)];
  }

  lemma AfterFill(env: Env)
    requires env.validDenom("usd")
    ensures Run(env, EMPTY_BOOK, Example()[..3]) == Book(Table(), map[0 := SellOrder(4, PartiallyFilled)], 1)
  {
    AfterSell(env);
    RunOne(env, Example()[..3]);
    assert Example()[..3][..2] == Example()[..2];
    FillOfSell(env);
  }

  lemma FillOfSell(env: Env)
    requires env.validDenom("usd")
    ensures FillOrder(env, CTX, Book(Table(), map[0 := SellOrder(0, Open)], 1), "b", 0, Some(Coin("usd", 4))).0
         == Book(Table(), map[0 := SellOrder(4, PartiallyFilled)], 1)
  {
    assert FillBy(SellOrder(0, Open), 4) == SellOrder(4, PartiallyFilled);
    assert map[0 := SellOrder(0, Open)][0 := SellOrder(4, PartiallyFilled)] == map[0 := SellOrder(4, PartiallyFilled)];
  }

  /** Both orders are left on display, crossed, and nothing was traded between them. */
  lemma CrossedBookExample(env: Env)
    requires env.validDenom("usd")
    ensures Run(env, EMPTY_BOOK, Example()).orders
         == map[0 := SellOrder(4, PartiallyFilled), 1 := NewOrder(CTX, 1, BUY, Coin("usd", 5))]
  {
    AfterFill(env);
    TableOk();
    RunOne(env, Example());
    var orders := map[0 := SellOrder(4, PartiallyFilled)];
    var buy := NewOrder(CTX, 1, BUY, Coin("usd", 5));
    QuietPost(env, CTX, Book(Table(), orders, 1), BUY, buy);
    assert orders[1 := buy] == map[0 := SellOrder(4, PartiallyFilled), 1 := buy];
  }

  lemma RunOne(env: Env, evs: seq<BookRuns.Event>)
    requires evs != []
    ensures var n := |evs| - 1;
      Run(env, EMPTY_BOOK, evs) == Step(env, evs[n].ctx, Run(env, EMPTY_BOOK, evs[..n]), evs[n].msg).0
  {
  }
}
