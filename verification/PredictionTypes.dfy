/** The prediction module's data and what it takes from the Cosmos SDK. */
module PredictionTypes {
  import opened GoInt
  import opened Results
  import opened Messages

  datatype Side = SideUnspecified | Buy | Sell

  datatype Status = StatusUnspecified | Open | PartiallyFilled | Filled | Cancelled

  datatype Coin = Coin(denom: string, amount: int)

  datatype Order = Order(
    id: nat,
    marketId: nat,
    creator: string,
    side: Side,
    outcomeIndex: nat,
    price: string,
    amount: Coin,
    filled: Coin,
    status: Status,
    createdAt: int64)

  datatype Trade = Trade(
    tradeId: uint64,
    marketId: nat,
    outcomeIndex: nat,
    buyer: string,
    seller: string,
    price: string,
    amount: Coin,
    timestamp: int64)

  type Market = PredictionMarket<string>

  /** SDK functions whose code is not part of this model: decimal parsing (scaled
      to an integer, None on a syntax error) and the denomination check. */
  datatype Env = Env(decFromStr: string -> Option<int>, validDenom: string -> bool)

  /** The block a message runs in. */
  datatype Ctx = Ctx(time: int64, height: int64)

  datatype Failure =
    | ErrInvalidRequest
    | ErrMarketNotFound
    | ErrInvalidOutcome
    | ErrInvalidAmount
    | OrderNotFound
    | NotCreator
    | NotCancellable
    | NotFillable
    | ZeroAmount
    | ExceedsRemaining
    | Panic  // the transaction aborts and its writes are discarded

  datatype Reply<+T> = Done(value: T) | Failed(failure: Failure)

  /** sdk.NewCoin panics on a bad denomination or a negative amount. */
  function NewCoin(env: Env, denom: string, amount: int): Option<Coin> {
    if env.validDenom(denom) && amount >= 0 then Some(Coin(denom, amount)) else None
  }

  /** Coin.Sub panics on different denominations or a negative result. */
  function CoinSub(a: Coin, b: Coin): Option<Coin> {
    if a.denom == b.denom && a.amount >= b.amount then Some(Coin(a.denom, a.amount - b.amount)) else None
  }

  /** A string that is no decimal counts as price zero. */
  function ParsePrice(env: Env, s: string): int {
    match env.decFromStr(s)
    case None => 0
    case Some(d) => d
  }

  function Price(env: Env, o: Order): int {
    ParsePrice(env, o.price)
  }
}
