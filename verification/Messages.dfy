/** The messages that both the keepers and the codecs handle, over the
    representation S of strings: text for the keepers, bytes for the codecs. */
module Messages {
  import opened GoInt

  datatype PredictionMarket<+S> = PredictionMarket(
    id: uint64,
    question: S,
    outcomes: seq<S>,
    groupId: S,
    deadline: int64,
    status: S,
    creator: S,
    createdAt: int64,
    totalPool: int64,
    outcomePools: seq<S>)

  datatype VoteCommit<+S> = VoteCommit(marketId: uint64, voter: S, commitment: S)

  datatype VoteReveal<+S> = VoteReveal(marketId: uint64, voter: S, vote: S, nonce: S)

  datatype MarketOutcome<+S> = MarketOutcome(marketId: uint64, outcome: S)

  /** The settlement module's parameters: a message without fields. */
  datatype Params = Params

  datatype GenesisState<+S> = GenesisState(
    params: Params,
    commits: seq<VoteCommit<S>>,
    revealed: seq<VoteReveal<S>>,
    outcomes: seq<MarketOutcome<S>>)
}
