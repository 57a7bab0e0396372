/** What every run of the order book from the empty state keeps. */
module BookRuns {
  import opened GoInt
  import opened Results
  import opened PredictionTypes
  import opened Markets
  import opened Matching
  import opened Execution
  import opened OrderBook

  ghost predicate Inv(env: Env, b: Book) {
    BookOk(b) && NotCrossed(env, b.orders)
  }

  // ---------- One step ----------

  /** What a successful PostOrder amounts to: the new order filled by the traded
      volume, and every old order matched at most once. */
  ghost predicate PostedAs(env: Env, b: Book, b': Book, taker: Order, trades: seq<Trade>) {
    var v := Volume(trades);
    && b'.markets == b.markets && b'.next == b.next + 1
    && taker.id == b.next && b.next !in b.orders && taker.filled.amount == 0 && taker.status == Open && OrderOk(taker)
    && b'.orders.Keys == b.orders.Keys + {taker.id}
    && 0 <= v && (v > 0 ==> v <= taker.amount.amount)
    && b'.orders[taker.id] == After(taker, v)
    && (forall k :: k in b.orders ==> MatchedOnce(env, taker, b.orders[k], b'.orders[k]))
    && (v == 0 ==> forall k :: k in b.orders ==> !IsCandidate(env, taker, b.orders[k]))
    && (v < taker.amount.amount ==>
          forall k :: k in b.orders && IsCandidate(env, taker, b.orders[k]) ==> b'.orders[k].status == Filled)
  }

  lemma PostIsFresh(env: Env, ctx: Ctx, b: Book, msg: PostMsg) returns (taker: Order, orders: Orders, m: Match)
    requires BookOk(b) && b.next < 0x1_0000_0000_0000_0000 && PostOrder(env, ctx, b, msg).1.Done?
    ensures taker == NewOrder(ctx, ToUint64(b.next), msg, msg.amount.value) && orders == b.orders[taker.id := taker]
    ensures Fresh(orders, taker) && taker.id == b.next && b.next !in b.orders && taker.filled.amount == 0
    ensures MatchTaker(env, ctx, orders, taker) == Some(m)
    ensures PostOrder(env, ctx, b, msg)
         == (Book(b.markets, m.orders, b.next + 1), Done(OrderPosted(taker.id, m.trades)))
  {
    taker := NewOrder(ctx, ToUint64(b.next), msg, msg.amount.value);
    orders := b.orders[taker.id := taker];
    m := MatchTaker(env, ctx, orders, taker).value;
  }

  lemma PostShape(env: Env, ctx: Ctx, b: Book, msg: PostMsg) returns (taker: Order, b': Book, trades: seq<Trade>)
    requires BookOk(b) && b.next < 0x1_0000_0000_0000_0000 && PostOrder(env, ctx, b, msg).1.Done?
    ensures taker == NewOrder(ctx, ToUint64(b.next), msg, msg.amount.value)
    ensures PostOrder(env, ctx, b, msg) == (b', Done(OrderPosted(taker.id, trades)))
    ensures PostedAs(env, b, b', taker, trades)
  {
    var orders, m;
    taker, orders, m := PostIsFresh(env, ctx, b, msg);
    b', trades := PostOrder(env, ctx, b, msg).0, m.trades;
    MatchShape(env, ctx, b, orders, taker, m);
  }

  lemma MatchShape(env: Env, ctx: Ctx, b: Book, orders: Orders, taker: Order, m: Match)
    requires Fresh(orders, taker) && taker.id == b.next && b.next !in b.orders && taker.filled.amount == 0
    requires orders == b.orders[taker.id := taker] && MatchTaker(env, ctx, orders, taker) == Some(m)
    ensures PostedAs(env, b, Book(b.markets, m.orders, b.next + 1), taker, m.trades)
  {
    var makers, fs := MatchPlan(env, ctx, orders, taker, m);
    PlanShape(env, ctx, b, orders, taker, makers, fs, m);
  }

  lemma PlanShape(env: Env, ctx: Ctx, b: Book, orders: Orders, taker: Order, makers: seq<Order>, fs: seq<int>, m: Match)
    requires Fresh(orders, taker) && taker.id == b.next && b.next !in b.orders && taker.filled.amount == 0
    requires orders == b.orders[taker.id := taker] && Plan(env, ctx, orders, taker, makers, fs, m)
    ensures PostedAs(env, b, Book(b.markets, m.orders, b.next + 1), taker, m.trades)
  {
    MatchTakerExact(env, ctx, orders, taker, makers, fs, m);
    MatchOthers(env, ctx, orders, taker, makers, fs, m);
    forall k | k in b.orders ensures k in orders && k != taker.id && orders[k] == b.orders[k] {
    }
  }

  lemma PostKeeps(env: Env, ctx: Ctx, b: Book, msg: PostMsg)
    requires Inv(env, b) && b.next < 0x1_0000_0000_0000_0000
    ensures var b' := PostOrder(env, ctx, b, msg).0;
      Inv(env, b') && b.next <= b'.next <= b.next + 1 && b'.markets == b.markets && OrdersEvolve(b.orders, b'.orders)
  {
    if PostOrder(env, ctx, b, msg).1.Done? {
      var taker, b', trades := PostShape(env, ctx, b, msg);
      PostedKeeps(env, b, b', taker, trades);
    } else {
      PostRefused(env, ctx, b, msg);
    }
  }

  lemma PostRefused(env: Env, ctx: Ctx, b: Book, msg: PostMsg)
    requires !PostOrder(env, ctx, b, msg).1.Done?
    ensures PostOrder(env, ctx, b, msg).0 == b
  {
  }

  lemma PostedKeeps(env: Env, b: Book, b': Book, taker: Order, trades: seq<Trade>)
    requires Inv(env, b) && PostedAs(env, b, b', taker, trades)
    ensures Inv(env, b') && OrdersEvolve(b.orders, b'.orders)
  {
    AfterOk(taker, Volume(trades));
    UncrossedAfter(env, b.orders, b'.orders, taker);
    forall k | k in b.orders ensures Evolves(b.orders[k], b'.orders[k]) && OrderOk(b'.orders[k]) {
      assert MatchedOnce(env, taker, b.orders[k], b'.orders[k]);
    }
  }

  lemma AfterOk(o: Order, f: int)
    requires OrderOk(o) && o.status == Open && f >= 0 && (f > 0 ==> f <= o.amount.amount)
    ensures OrderOk(After(o, f)) && Evolves(o, After(o, f))
  {
  }

  /** Matching cannot leave a crossed pair: old orders stay OPEN only untouched, and
      the new one stays OPEN only if it met no candidate. */
  lemma UncrossedAfter(env: Env, orders: Orders, orders': Orders, taker: Order)
    requires NotCrossed(env, orders) && taker.id !in orders
    requires orders'.Keys == orders.Keys + {taker.id}
    requires forall k :: k in orders ==> MatchedOnce(env, taker, orders[k], orders'[k])
    requires taker.side == Buy || taker.side == Sell
    requires orders'[taker.id].status == Open ==>
      orders'[taker.id] == taker && forall k :: k in orders ==> !IsCandidate(env, taker, orders[k])
    ensures NotCrossed(env, orders')
  {
    forall i, j | i in orders' && j in orders'
      && orders'[i].status == Open && orders'[j].status == Open
      && orders'[i].side == Buy && orders'[j].side == Sell
      && orders'[i].marketId == orders'[j].marketId && orders'[i].outcomeIndex == orders'[j].outcomeIndex
      ensures Price(env, orders'[i]) < Price(env, orders'[j])
    {
      if i == taker.id {
        assert MatchedOnce(env, taker, orders[j], orders'[j]);
      } else if j == taker.id {
        assert MatchedOnce(env, taker, orders[i], orders'[i]);
      } else {
        assert MatchedOnce(env, taker, orders[i], orders'[i]) && MatchedOnce(env, taker, orders[j], orders'[j]);
      }
    }
  }

  /** An order that changes as orders may, and does not stay OPEN, cannot cross another. */
  lemma ReplaceKeeps(env: Env, b: Book, k: nat, o: Order)
    requires Inv(env, b) && k in b.orders && OrderOk(o) && Evolves(b.orders[k], o) && o.status != Open
    ensures var b' := b.(orders := b.orders[k := o]);
      Inv(env, b') && b'.next == b.next && b'.markets == b.markets && OrdersEvolve(b.orders, b'.orders)
  {
    var orders' := b.orders[k := o];
    assert forall j :: j in b.orders && orders'[j].status == Open ==> orders'[j] == b.orders[j];
  }

  lemma CancelKeeps(env: Env, b: Book, creator: string, orderId: nat)
    requires Inv(env, b)
    ensures var b' := CancelOrder(b, creator, orderId).0;
      Inv(env, b') && b'.next == b.next && b'.markets == b.markets && OrdersEvolve(b.orders, b'.orders)
  {
    if CancelOrder(b, creator, orderId).1.Done? {
      ReplaceKeeps(env, b, orderId, b.orders[orderId].(status := Cancelled));
    }
  }

  lemma FillKeeps(env: Env, ctx: Ctx, b: Book, filler: string, orderId: nat, amount: Option<Coin>)
    requires Inv(env, b)
    ensures var b' := FillOrder(env, ctx, b, filler, orderId, amount).0;
      Inv(env, b') && b'.next == b.next && b'.markets == b.markets && OrdersEvolve(b.orders, b'.orders)
  {
    if FillOrder(env, ctx, b, filler, orderId, amount).1.Done? {
      var o := b.orders[orderId];
      var o' := FillDirectly(env, ctx, o, filler, amount.value).value.0;
      assert o'.id == orderId && OrderOk(o') && Evolves(o, o') && o'.status != Open;
      ReplaceKeeps(env, b, orderId, o');
    }
  }

  lemma CreateKeepsBook(env: Env, ctx: Ctx, b: Book, msg: CreateMsg)
    requires Inv(env, b) && b.markets.next < 0x1_0000_0000_0000_0000
    ensures var b' := b.(markets := CreateMarket(ctx, b.markets, msg).0);
      Inv(env, b') && b'.markets.next <= b.markets.next + 1 && Extends(b.markets, b'.markets)
  {
    CreateKeeps(ctx, b.markets, msg);
  }

  lemma StepKeeps(env: Env, ctx: Ctx, b: Book, msg: Msg)
    requires Inv(env, b) && b.next < 0x1_0000_0000_0000_0000 && b.markets.next < 0x1_0000_0000_0000_0000
    ensures var b' := Step(env, ctx, b, msg).0;
      && Inv(env, b') && b'.next <= b.next + 1 && b'.markets.next <= b.markets.next + 1
      && OrdersEvolve(b.orders, b'.orders) && Extends(b.markets, b'.markets)
  {
    match msg
    case Create(m) => CreateKeepsBook(env, ctx, b, m);
    case Post(m) => PostKeeps(env, ctx, b, m);
    case Cancel(creator, id) => CancelKeeps(env, b, creator, id);
    case Fill(filler, id, amount) => FillKeeps(env, ctx, b, filler, id, amount);
  }

  // ---------- Runs ----------

  datatype Event = Event(ctx: Ctx, msg: Msg)

  ghost function Run(env: Env, b: Book, evs: seq<Event>): Book {
    if evs == [] then b
    else
      var n := |evs| - 1;
      Step(env, evs[n].ctx, Run(env, b, evs[..n]), evs[n].msg).0
  }

  /** The replies of a run. */
  ghost function Log(env: Env, b: Book, evs: seq<Event>): seq<Reply<Receipt>> {
    if evs == [] then []
    else
      var n := |evs| - 1;
      Log(env, b, evs[..n]) + [Step(env, evs[n].ctx, Run(env, b, evs[..n]), evs[n].msg).1]
  }

  lemma {:induction false} RunKeeps(env: Env, evs: seq<Event>)
    requires |evs| < 0x1_0000_0000_0000_0000
    ensures var b := Run(env, EMPTY_BOOK, evs);
      Inv(env, b) && b.next <= |evs| && b.markets.next <= |evs|
  {
    if evs != [] {
      var n := |evs| - 1;
      RunKeeps(env, evs[..n]);
      StepKeeps(env, evs[n].ctx, Run(env, EMPTY_BOOK, evs[..n]), evs[n].msg);
    }
  }

  /** No crossed OPEN orders, in any state any messages can reach. */
  lemma NeverCrossed(env: Env, evs: seq<Event>, buy: nat, sell: nat)
    requires |evs| < 0x1_0000_0000_0000_0000
    requires buy in Run(env, EMPTY_BOOK, evs).orders && sell in Run(env, EMPTY_BOOK, evs).orders
    requires var os := Run(env, EMPTY_BOOK, evs).orders;
      && os[buy].status == Open && os[sell].status == Open && os[buy].side == Buy && os[sell].side == Sell
      && os[buy].marketId == os[sell].marketId && os[buy].outcomeIndex == os[sell].outcomeIndex
    ensures var os := Run(env, EMPTY_BOOK, evs).orders;
      Price(env, os[buy]) < Price(env, os[sell])
  {
    RunKeeps(env, evs);
  }

  /** If a posted order ends unfilled or partly filled, every opposite order that was
      OPEN and crossing is now FILLED. */
  lemma PostExhausts(env: Env, ctx: Ctx, evs: seq<Event>, msg: PostMsg, k: nat)
    requires |evs| < 0x1_0000_0000_0000_0000
    requires var b := Run(env, EMPTY_BOOK, evs);
      && PostOrder(env, ctx, b, msg).1.Done? && k in b.orders
      && IsCandidate(env, NewOrder(ctx, ToUint64(b.next), msg, msg.amount.value), b.orders[k])
    ensures var b := Run(env, EMPTY_BOOK, evs);
      var b' := PostOrder(env, ctx, b, msg).0;
      && b.next in b'.orders && k in b'.orders
      && (b'.orders[b.next].status != Filled ==> b'.orders[k].status == Filled)
  {
    RunKeeps(env, evs);
    var taker, b', trades := PostShape(env, ctx, Run(env, EMPTY_BOOK, evs), msg);
  }

  lemma EvolvesThrough(a: Orders, b: Orders, c: Orders)
    requires OrdersEvolve(a, b) && OrdersEvolve(b, c)
    ensures OrdersEvolve(a, c)
  {
    forall k | k in a ensures k in c && Evolves(a[k], c[k]) {
      assert Evolves(a[k], b[k]) && Evolves(b[k], c[k]);
    }
  }

  /** The life of an order over any run: it never disappears, its identity never
      changes, fills never shrink, FILLED and CANCELLED are final, and at every
      point its status says how much is filled. */
  lemma {:induction false} Lifecycle(env: Env, evs: seq<Event>, n: nat)
    requires n <= |evs| < 0x1_0000_0000_0000_0000
    ensures OrdersEvolve(Run(env, EMPTY_BOOK, evs[..n]).orders, Run(env, EMPTY_BOOK, evs).orders)
    ensures forall k :: k in Run(env, EMPTY_BOOK, evs).orders ==> OrderOk(Run(env, EMPTY_BOOK, evs).orders[k])
    decreases |evs|
  {
    RunKeeps(env, evs);
    if n == |evs| {
      assert evs[..n] == evs;
    } else {
      var last := |evs| - 1;
      Lifecycle(env, evs[..last], n);
      assert evs[..last][..n] == evs[..n];
      RunKeeps(env, evs[..last]);
      StepKeeps(env, evs[last].ctx, Run(env, EMPTY_BOOK, evs[..last]), evs[last].msg);
      EvolvesThrough(Run(env, EMPTY_BOOK, evs[..n]).orders, Run(env, EMPTY_BOOK, evs[..last]).orders,
                     Run(env, EMPTY_BOOK, evs).orders);
    }
  }

  // ---------- Volume conservation ----------

  predicate InBook(o: Order, marketId: nat, outcomeIndex: nat, side: Side) {
    o.marketId == marketId && o.outcomeIndex == outcomeIndex && o.side == side
  }

  function FilledIn(o: Order, marketId: nat, outcomeIndex: nat, side: Side): int {
    if InBook(o, marketId, outcomeIndex, side) then o.filled.amount else 0
  }

  /** The filled amounts of one side of one book, over the orders with ids below n. */
  function FilledTotal(orders: Orders, n: nat, marketId: nat, outcomeIndex: nat, side: Side): int {
    if n == 0 then 0
    else FilledTotal(orders, n - 1, marketId, outcomeIndex, side)
         + if n - 1 in orders then FilledIn(orders[n - 1], marketId, outcomeIndex, side) else 0
  }

  lemma {:induction false} TotalUpdate(orders: Orders, n: nat, k: nat, o: Order, marketId: nat, outcomeIndex: nat,
        side: Side)
    requires k in orders
    ensures FilledTotal(orders[k := o], n, marketId, outcomeIndex, side)
         == FilledTotal(orders, n, marketId, outcomeIndex, side)
            + if k < n
              then FilledIn(o, marketId, outcomeIndex, side) - FilledIn(orders[k], marketId, outcomeIndex, side)
              else 0
  {
    if n > 0 {
      TotalUpdate(orders, n - 1, k, o, marketId, outcomeIndex, side);
    }
  }

  lemma {:induction false} TotalAdd(orders: Orders, n: nat, k: nat, o: Order, marketId: nat, outcomeIndex: nat,
        side: Side)
    requires k !in orders && o.filled.amount == 0
    ensures FilledTotal(orders[k := o], n, marketId, outcomeIndex, side)
         == FilledTotal(orders, n, marketId, outcomeIndex, side)
  {
    if n > 0 {
      TotalAdd(orders, n - 1, k, o, marketId, outcomeIndex, side);
    }
  }

  /** Settling adds the fills to the makers' side of the makers' book. */
  lemma {:induction false} TotalSettle(orders: Orders, makers: seq<Order>, fs: seq<int>, n: nat, marketId: nat,
        outcomeIndex: nat, side: Side)
    requires |makers| == |fs| && DistinctIds(makers) && Stored(orders, makers)
    requires forall k :: 0 <= k < |makers| ==> makers[k].id < n
    ensures FilledTotal(Settle(orders, makers, fs), n, marketId, outcomeIndex, side)
         == FilledTotal(orders, n, marketId, outcomeIndex, side) + SumIn(makers, fs, marketId, outcomeIndex, side)
    decreases |makers|
  {
    if makers != [] {
      var orders' := if fs[0] == 0 then orders else orders[makers[0].id := FillBy(makers[0], fs[0])];
      assert forall k :: 0 <= k < |makers[1..]| ==> makers[1..][k] == makers[k + 1];
      if fs[0] != 0 {
        TotalUpdate(orders, n, makers[0].id, FillBy(makers[0], fs[0]), marketId, outcomeIndex, side);
      }
      TotalSettle(orders', makers[1..], fs[1..], n, marketId, outcomeIndex, side);
    }
  }

  function SumIn(makers: seq<Order>, fs: seq<int>, marketId: nat, outcomeIndex: nat, side: Side): int
    requires |makers| == |fs|
  {
    if makers == [] then 0
    else (if InBook(makers[0], marketId, outcomeIndex, side) then fs[0] else 0)
         + SumIn(makers[1..], fs[1..], marketId, outcomeIndex, side)
  }

  lemma {:induction false} SumInIs(makers: seq<Order>, fs: seq<int>, marketId: nat, outcomeIndex: nat, side: Side,
        all: bool)
    requires |makers| == |fs|
    requires forall o :: o in makers ==> InBook(o, marketId, outcomeIndex, side) == all
    ensures SumIn(makers, fs, marketId, outcomeIndex, side) == if all then Sum(fs) else 0
  {
    if makers != [] {
      assert makers[0] in makers;
      assert forall o :: o in makers[1..] ==> o in makers;
      SumInIs(makers[1..], fs[1..], marketId, outcomeIndex, side, all);
    }
  }

  /** The volume of the trades of one book. */
  function VolumeIn(trades: seq<Trade>, marketId: nat, outcomeIndex: nat): int {
    if trades == [] then 0
    else
      var t := trades[0];
      (if t.marketId == marketId && t.outcomeIndex == outcomeIndex then t.amount.amount else 0)
      + VolumeIn(trades[1..], marketId, outcomeIndex)
  }

  lemma {:induction false} VolumeInIs(ctx: Ctx, taker: Order, makers: seq<Order>, fs: seq<int>, marketId: nat,
        outcomeIndex: nat)
    requires |makers| == |fs|
    ensures VolumeIn(TradesOf(ctx, taker, makers, fs), marketId, outcomeIndex)
         == if taker.marketId == marketId && taker.outcomeIndex == outcomeIndex then Sum(fs) else 0
  {
    if makers != [] {
      VolumeInIs(ctx, taker, makers[1..], fs[1..], marketId, outcomeIndex);
      var rest, ts := TradesOf(ctx, taker, makers[1..], fs[1..]), TradesOf(ctx, taker, makers, fs);
      if fs[0] == 0 {
        assert ts == rest;
      } else {
        assert ts[1..] == rest;
      }
    }
  }

  /** What one reply adds to the filled total of one side of one book. */
  function Traded(r: Reply<Receipt>, marketId: nat, outcomeIndex: nat): int {
    if r.Done? && r.value.OrderPosted? then VolumeIn(r.value.trades, marketId, outcomeIndex) else 0
  }

  function Direct(r: Reply<Receipt>, marketId: nat, outcomeIndex: nat, side: Side): int {
    if r.Done? && r.value.OrderFilled? && r.value.side == side
       && r.value.trade.marketId == marketId && r.value.trade.outcomeIndex == outcomeIndex
    then r.value.trade.amount.amount else 0
  }

  lemma PostTotal(env: Env, ctx: Ctx, b: Book, msg: PostMsg, marketId: nat, outcomeIndex: nat, side: Side)
    requires Inv(env, b) && b.next < 0x1_0000_0000_0000_0000 && (side == Buy || side == Sell)
    ensures var (b', r) := PostOrder(env, ctx, b, msg);
      FilledTotal(b'.orders, b'.next, marketId, outcomeIndex, side)
      == FilledTotal(b.orders, b.next, marketId, outcomeIndex, side) + Traded(r, marketId, outcomeIndex)
  {
    if PostOrder(env, ctx, b, msg).1.Done? {
      var taker, orders, m := PostIsFresh(env, ctx, b, msg);
      MatchTotal(env, ctx, orders, taker, m, b.next + 1, marketId, outcomeIndex, side);
      PostedTotal(b.orders, b.next, taker, marketId, outcomeIndex, side);
    } else {
      PostRefused(env, ctx, b, msg);
    }
  }

  /** Storing the new order, unfilled, under the next id changes no total. */
  lemma PostedTotal(orders: Orders, next: nat, taker: Order, marketId: nat, outcomeIndex: nat, side: Side)
    requires taker.id == next && next !in orders && taker.filled.amount == 0
    ensures FilledTotal(orders[taker.id := taker], next + 1, marketId, outcomeIndex, side)
         == FilledTotal(orders, next, marketId, outcomeIndex, side)
  {
    TotalAdd(orders, next, taker.id, taker, marketId, outcomeIndex, side);
  }

  /** The makers a taker can meet: one book, the other side. */
  ghost predicate Opposite(taker: Order, o: Order) {
    && o.id != taker.id && o.marketId == taker.marketId && o.outcomeIndex == taker.outcomeIndex
    && o.side != taker.side && (o.side == Buy || o.side == Sell)
  }

  lemma MatchTotal(env: Env, ctx: Ctx, orders: Orders, taker: Order, m: Match, n: nat, marketId: nat,
        outcomeIndex: nat, side: Side)
    requires Fresh(orders, taker) && taker.filled.amount == 0 && (side == Buy || side == Sell)
    requires MatchTaker(env, ctx, orders, taker) == Some(m) && forall k :: k in orders ==> k < n
    ensures FilledTotal(m.orders, n, marketId, outcomeIndex, side)
         == FilledTotal(orders, n, marketId, outcomeIndex, side) + VolumeIn(m.trades, marketId, outcomeIndex)
  {
    var makers, fs := MatchPlan(env, ctx, orders, taker, m);
    PlanTotal(env, ctx, orders, taker, makers, fs, m, n, marketId, outcomeIndex, side);
  }

  lemma PlanTotal(env: Env, ctx: Ctx, orders: Orders, taker: Order, makers: seq<Order>, fs: seq<int>, m: Match,
        n: nat, marketId: nat, outcomeIndex: nat, side: Side)
    requires Fresh(orders, taker) && taker.filled.amount == 0 && (side == Buy || side == Sell)
    requires Plan(env, ctx, orders, taker, makers, fs, m) && forall k :: k in orders ==> k < n
    ensures FilledTotal(m.orders, n, marketId, outcomeIndex, side)
         == FilledTotal(orders, n, marketId, outcomeIndex, side) + VolumeIn(m.trades, marketId, outcomeIndex)
  {
    assert forall o :: o in makers ==> o.id < n && Opposite(taker, o);
    SettledTotal(ctx, orders, taker, makers, fs, n, marketId, outcomeIndex, side);
  }

  lemma SettledTotal(ctx: Ctx, orders: Orders, taker: Order, makers: seq<Order>, fs: seq<int>, n: nat,
        marketId: nat, outcomeIndex: nat, side: Side)
    requires |makers| == |fs| && DistinctIds(makers) && Stored(orders, makers)
    requires forall k :: 0 <= k < |fs| ==> fs[k] >= 0
    requires taker.id in orders && orders[taker.id] == taker && taker.id < n && taker.filled.amount == 0
    requires (side == Buy || side == Sell) && (taker.side == Buy || taker.side == Sell)
    requires forall o :: o in makers ==> o.id < n && Opposite(taker, o)
    ensures FilledTotal(Settle(orders, makers, fs)[taker.id := FillAll(taker, fs)], n, marketId, outcomeIndex, side)
         == FilledTotal(orders, n, marketId, outcomeIndex, side)
            + VolumeIn(TradesOf(ctx, taker, makers, fs), marketId, outcomeIndex)
  {
    assert forall k :: 0 <= k < |makers| ==> makers[k] in makers;
    var settled := Settle(orders, makers, fs);
    SettleExact(orders, makers, fs);
    FillAllIsSum(taker, fs);
    TotalSettle(orders, makers, fs, n, marketId, outcomeIndex, side);
    TotalUpdate(settled, n, taker.id, FillAll(taker, fs), marketId, outcomeIndex, side);
    SumInIs(makers, fs, marketId, outcomeIndex, side,
            taker.marketId == marketId && taker.outcomeIndex == outcomeIndex && taker.side != side);
    VolumeInIs(ctx, taker, makers, fs, marketId, outcomeIndex);
  }

  lemma OtherTotal(env: Env, ctx: Ctx, b: Book, msg: Msg, marketId: nat, outcomeIndex: nat, side: Side)
    requires Inv(env, b) && !msg.Post?
    ensures var (b', r) := Step(env, ctx, b, msg);
      FilledTotal(b'.orders, b'.next, marketId, outcomeIndex, side)
      == FilledTotal(b.orders, b.next, marketId, outcomeIndex, side) + Direct(r, marketId, outcomeIndex, side)
  {
    var (b', r) := Step(env, ctx, b, msg);
    if (msg.Cancel? || msg.Fill?) && r.Done? {
      TotalUpdate(b.orders, b.next, msg.orderId, b'.orders[msg.orderId], marketId, outcomeIndex, side);
    }
  }

  function TradedTotal(log: seq<Reply<Receipt>>, marketId: nat, outcomeIndex: nat): int {
    if log == [] then 0
    else TradedTotal(log[..|log| - 1], marketId, outcomeIndex) + Traded(log[|log| - 1], marketId, outcomeIndex)
  }

  function DirectTotal(log: seq<Reply<Receipt>>, marketId: nat, outcomeIndex: nat, side: Side): int {
    if log == [] then 0
    else
      var n := |log| - 1;
      DirectTotal(log[..n], marketId, outcomeIndex, side) + Direct(log[n], marketId, outcomeIndex, side)
  }

  /** Conservation over any run: what is filled on a side of a book is the matched
      volume of the book plus the direct fills of that side; so the BUY and the SELL
      side agree once direct fills are taken off. */
  lemma {:induction false} Conservation(env: Env, evs: seq<Event>, marketId: nat, outcomeIndex: nat, side: Side)
    requires |evs| < 0x1_0000_0000_0000_0000 && (side == Buy || side == Sell)
    ensures var (b, log) := (Run(env, EMPTY_BOOK, evs), Log(env, EMPTY_BOOK, evs));
      FilledTotal(b.orders, b.next, marketId, outcomeIndex, side)
      == TradedTotal(log, marketId, outcomeIndex) + DirectTotal(log, marketId, outcomeIndex, side)
  {
    if evs != [] {
      var n := |evs| - 1;
      Conservation(env, evs[..n], marketId, outcomeIndex, side);
      RunKeeps(env, evs[..n]);
      var b, log := Run(env, EMPTY_BOOK, evs[..n]), Log(env, EMPTY_BOOK, evs[..n]);
      StepTotal(env, evs[n].ctx, b, evs[n].msg, marketId, outcomeIndex, side);
      LogTotals(log, Step(env, evs[n].ctx, b, evs[n].msg).1, marketId, outcomeIndex, side);
    }
  }

  lemma StepTotal(env: Env, ctx: Ctx, b: Book, msg: Msg, marketId: nat, outcomeIndex: nat, side: Side)
    requires Inv(env, b) && b.next < 0x1_0000_0000_0000_0000 && (side == Buy || side == Sell)
    ensures var (b', r) := Step(env, ctx, b, msg);
      FilledTotal(b'.orders, b'.next, marketId, outcomeIndex, side)
      == FilledTotal(b.orders, b.next, marketId, outcomeIndex, side)
         + Traded(r, marketId, outcomeIndex) + Direct(r, marketId, outcomeIndex, side)
  {
    if msg.Post? {
      PostTotal(env, ctx, b, msg.post, marketId, outcomeIndex, side);
      PostReply(env, ctx, b, msg.post);
    } else {
      OtherTotal(env, ctx, b, msg, marketId, outcomeIndex, side);
      OtherReply(env, ctx, b, msg);
    }
  }

  lemma PostReply(env: Env, ctx: Ctx, b: Book, msg: PostMsg)
    ensures var r := PostOrder(env, ctx, b, msg).1;
      r.Done? ==> r.value.OrderPosted?
  {
  }

  lemma OtherReply(env: Env, ctx: Ctx, b: Book, msg: Msg)
    requires !msg.Post?
    ensures var r := Step(env, ctx, b, msg).1;
      r.Done? ==> !r.value.OrderPosted?
  {
  }

  lemma LogTotals(log: seq<Reply<Receipt>>, r: Reply<Receipt>, marketId: nat, outcomeIndex: nat, side: Side)
    ensures TradedTotal(log + [r], marketId, outcomeIndex)
         == TradedTotal(log, marketId, outcomeIndex) + Traded(r, marketId, outcomeIndex)
    ensures DirectTotal(log + [r], marketId, outcomeIndex, side)
         == DirectTotal(log, marketId, outcomeIndex, side) + Direct(r, marketId, outcomeIndex, side)
  {
    assert (log + [r])[..|log|] == log;
  }

  /** Orders of other books are untouched by a post. */
  lemma PostIsIsolated(env: Env, ctx: Ctx, b: Book, msg: PostMsg, k: nat)
    requires Inv(env, b) && b.next < 0x1_0000_0000_0000_0000 && k in b.orders
    requires b.orders[k].marketId != msg.marketId || b.orders[k].outcomeIndex != msg.outcomeIndex
    ensures k in PostOrder(env, ctx, b, msg).0.orders && PostOrder(env, ctx, b, msg).0.orders[k] == b.orders[k]
  {
    if PostOrder(env, ctx, b, msg).1.Done? {
      var taker, b', trades := PostShape(env, ctx, b, msg);
      assert MatchedOnce(env, taker, b.orders[k], b'.orders[k]);
    }
  }
}
