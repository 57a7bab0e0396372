# Verification of the order book, the settlement protocol and the wire codec

This project models, in Dafny, four parts of the Speculod chain and proves what they keep.

- **Order book** (`Matching`, `Execution`, `Priority`, `OrderBook`, `BookRuns`, `Posting`,
  `BookMessages`, `DisplayedBook`, `PredictionKeeper`).
  `MatchOrder` filters the OPEN crossing orders, sorts them by price and time and fills them greedily
  while rewriting the store. Main results: best execution by an exchange argument, price-time priority on
  the store, no crossed OPEN orders in any reachable state, conservation of volume over runs, the life of an
  order, every message's answers and effects field by field, exactly when a post panics and exactly when the
  displayed book, which also shows PARTIALLY_FILLED orders, gets crossed.
- **Settlement and reputation** (`Markets`, `Reputation`, `Tally`, `Settlement`, `SettlementRuns`,
  `ScoreRuns`, `Consensus`, `Worth`, `VoteMessages`, `Spelling`, `OverflowRun`, `Binding`, `GenesisStore`,
  `ReputationKeeper`, `SettlementKeeper`). Votes are committed, revealed, tallied by reputation and
  finalized; the winner is chosen by a loop over a Go map, whose order is unspecified; scores then move by a
  clamped step and weigh later votes. Main results: no finalization before a deadline that finalization
  never reads, write-once records, what a finalization does to every stored score, scores as clamped walks
  in closed form, tallies as sums of scores, exact exactly when no sum overflows and the consensus then a
  prevailing vote in every run, exactly when it prevails in spite of overflow, which choices the map order
  can make, how far a commitment binds its vote, genesis round trip.
- **Text keys** (`Decimal`, `Ordered`, `Scans`). The `"%d/%s"` keys and the hand-written prefix scan
  against a plain filter on the market id, with the exact condition under which the scan panics.
- **Protobuf codec** (`GoInt`, `Buffers`, `Varint`, `Wire`, `WireFacts`, `WireGrammar`, `WirePrint`,
  `MarketCodec`, `VoteCodec`, `GenesisCodec`, `FieldNumbers`, `Reprint`). The printers write backwards into a sized buffer and the parsers
  read any byte sequence under 64-bit wrap-around (Protocol Buffers encoding: "Base 128 Varints", "Message
  Structure", "Length-Delimited Records"). Main results: they undo each other, sizes are exact, parsing is
  total, a record is read exactly where a grammar of its own has one, unknown fields are passed over
  whatever they hold, parsing a concatenation is merging, and what was parsed prints in no more bytes.

Each handler and each loop is a method of a class over the stores it updates, proved equal to a function of
the old state; the properties are lemmas about these functions, for all inputs and all runs.

Conventions:

- A Go panic aborts the transaction and its writes are discarded; the model answers with a failure and the
  old state. `sdk.NewCoin` panics on a bad denomination or a negative amount, `Coin.Sub` on different
  denominations or a negative result.
- Amounts and prices are unbounded integers, as `math.Int` and a scaled `LegacyDec` are in effect. A price
  string that does not parse counts as zero. Parsing decimals and the denomination test are parameters
  (`Env`); so are the commitment hash and `strings.EqualFold` (`Primitives`).
- Text is a sequence of characters standing for Go's bytes; the codec works on bytes.
- Orders with a negative amount are not excluded: the post handler refuses only a missing or zero amount.
- Runs start from empty stores and have fewer messages than there are ids (2^64 for the order book, 2^63 for
  settlement); settlement runs have block times that do not go back.
- Stable sorting is modelled by insertion; `PriorityIsUnique` shows that any stable sort gives the same list.
- `README_TESTING.md` names OPEN and PARTIALLY_FILLED orders as matching; the code takes OPEN ones only, and
  the model follows the code. `DisplayOverRuns` says exactly what follows for the displayed book.

## Model

| member | source | states |
|---|---|---|
| `Matching.CandidatesExact` | x/prediction/keeper/keeper.go:275-287 | the candidates are exactly the stored orders of the same market and outcome that are OPEN, on the other side and crossing, each once, by ascending id |
| `Matching.SortByPriority` | x/prediction/keeper/keeper.go:290-305 | the stable sort of candidates with ascending ids is a permutation in the order (price, creation time, id) |
| `Matching.PriorityIsUnique` | x/prediction/keeper/keeper.go:290-305 | a sequence in that order is determined by its contents, so every stable sort gives the same one |
| `Execution.MakersExact` | x/prediction/keeper/keeper.go:275-305 | what the matching loop walks over: the candidates, distinct, in priority order, each as stored |
| `Priority.MakersByPriceAndTime` | x/prediction/keeper/keeper.go:289-305 | told on the fields: makers are met by better price, at one price by earlier creation time, in one second by lower id |
| `Priority.OldestFirst` | x/prediction/keeper/keeper.go:304 | at one price the maker met first was created earlier, or at the same time with a lower id |
| `Priority.PriorityRespected` | x/prediction/keeper/keeper.go:289-344 | on the store: of two orders the taker may trade with, the later one changes only if the earlier one ends FILLED |
| `Priority.BadPrice` | x/prediction/keeper/keeper.go:263-269 | a limit price that does not parse counts as zero |
| `Execution.SettleExact` | x/prediction/keeper/keeper.go:308-344 | the store re-reads of the loop see a pure pass over the list: each maker changes by its own fill only, every other order stays |
| `Execution.GreedyPrefix` | x/prediction/keeper/keeper.go:307-359 | the fills form a greedy prefix: makers before some place p give all they have, the one at p part or nothing, later ones nothing, and all is traded unless makers run out |
| `Execution.BestExecution` | x/prediction/keeper/keeper.go:279-359 | among all allocations of the traded quantity to the crossing OPEN opposite orders within their availability, none costs a buyer less or brings a seller more |
| `Execution.ExecutionIsFeasible` | x/prediction/keeper/keeper.go:307-359 | the trades are themselves such an allocation, so the bound is attained |
| `OrderBook.MatchIsGreedy` | x/prediction/keeper/keeper.go:271-364 | whatever amounts are stored: in priority order the first makers are FILLED, the next one has given part or nothing, the rest are untouched, and the volume is the smaller of what is wanted and what the makers have |
| `OrderBook.MatchPanics` | x/prediction/keeper/keeper.go:316-324 | in a good denomination matching panics exactly when the taker wants a negative amount and has a maker, or reaches a maker with a negative amount before it is satisfied |
| `Posting.PostAnswers` | x/prediction/keeper/msg_server.go:71-142 | told from the book before it, exactly when a post panics and exactly when it is accepted |
| `Posting.PostFills` | x/prediction/keeper/keeper.go:346-363 | the new order is filled by what its makers have for it, and ends not FILLED exactly when it wants more than that |
| `OrderBook.MatchTakerExact` | x/prediction/keeper/keeper.go:346-363 | the new order ends filled by exactly the traded volume; no volume only without candidates; if it wants more at the end every candidate is FILLED |
| `OrderBook.MatchOthers` | x/prediction/keeper/keeper.go:337-344 | no order appears or disappears; a non-candidate is unchanged and a candidate is unchanged or filled within its amount |
| `OrderBook.TradesAreFair` | x/prediction/keeper/keeper.go:322-378 | each trade is with one OPEN order of the other side, at that order's price and within its availability, not beyond the taker's limit; the BUY side's creator is the buyer, the SELL side's the seller |
| `BookRuns.PostShape` | x/prediction/keeper/msg_server.go:71-142 | an accepted post adds one order, filled by the traded volume; every old order is matched at most once; nothing else changes, and no candidate is left when the order is left short |
| `BookRuns.StepKeeps` | x/prediction/keeper/msg_server.go:25-212 | every message, accepted or refused, keeps: ids, amounts and statuses consistent, no crossed OPEN pair, orders only evolving, markets write-once |
| `BookRuns.RunKeeps` | x/prediction/keeper/msg_server.go:25-212 | the invariant in every state reachable from the empty book |
| `BookRuns.NeverCrossed` | x/prediction/keeper/keeper.go:271-364 | in every reachable state an OPEN buy is priced below every OPEN sell of the same market and outcome |
| `BookRuns.PostExhausts` | x/prediction/keeper/msg_server.go:127-129 | if a posted order ends not FILLED, every opposite order that was OPEN and crossing is now FILLED |
| `BookRuns.Lifecycle` | x/prediction/keeper/keeper.go:337-356 | over any run an order keeps its identity, fills never shrink, FILLED and CANCELLED are final, and the status says how much is filled |
| `BookRuns.Conservation` | x/prediction/keeper/keeper.go:310-418 | over any run and book, the filled total of either side is the matched trade volume plus the direct fills of that side |
| `BookRuns.PostIsIsolated` | x/prediction/keeper/keeper.go:275-287 | a post changes no order of another market or outcome |
| `DisplayedBook.DisplayOverRuns` | README_TESTING.md:147 | the guide lists PARTIALLY_FILLED as a matching status, the code matches OPEN only: over any run the displayed book is uncrossed at every point exactly when no accepted post wanted more than its makers had while it could trade with a PARTIALLY_FILLED order |
| `DisplayedBook.StepDisplay` | x/prediction/keeper/keeper.go:279-287 | an uncrossed displayed book stays so through a message exactly when the message is not such a post; creating, cancelling and direct fills never cross it |
| `DisplayedBook.PostedDisplay` | x/prediction/keeper/keeper.go:279-287 | through an accepted post the whole displayed book stays uncrossed exactly unless the new order stays on display and a PARTIALLY_FILLED order it meets was there |
| `DisplayedBook.DisplayedCrossing` | x/prediction/keeper/keeper.go:279-287 | for the new order alone, also in a book already crossed: left on display it faces a displayed order it could trade with exactly when a PARTIALLY_FILLED one was there before |
| `DisplayedBook.CrossedBookExample` | x/prediction/keeper/keeper.go:280 | four messages after which a PARTIALLY_FILLED sell and an OPEN buy at the same price stand in the book |
| `Markets.CreateKeeps` | x/prediction/keeper/msg_server.go:25-68 | a created market gets a fresh id, at least two distinct non-empty outcomes and a deadline after its creation; no market changes |
| `PredictionKeeper.Keeper.CreateMarket` | x/prediction/keeper/msg_server.go:25-68 | the handler's new state and reply, duplicates found with the outcome set |
| `PredictionKeeper.Keeper.GetOrdersByMarketAndOutcome` | x/prediction/keeper/keeper.go:247-261 | the iteration yields exactly the book's orders by ascending id |
| `PredictionKeeper.Keeper.MatchOrder` | x/prediction/keeper/keeper.go:271-364 | filter, sort and loop over the store compute the specified match, or panic exactly when it does |
| `PredictionKeeper.Keeper.FillLoop` | x/prediction/keeper/keeper.go:307-363 | the loop with its re-reads and in-place rewrites agrees with the pure recursive take over the list |
| `PredictionKeeper.Keeper.Turn` | x/prediction/keeper/keeper.go:309-358 | one turn of it: what is left to do still amounts to what was to be done at the start |
| `PredictionKeeper.Keeper.PlaceOrder` | x/prediction/keeper/msg_server.go:101-141 | the part of a post after its tests, all undone by a panic |
| `PredictionKeeper.Keeper.PostOrder` | x/prediction/keeper/msg_server.go:71-142 | new state and reply for every input, errors in the order of the checks |
| `PredictionKeeper.Keeper.CancelOrder` | x/prediction/keeper/msg_server.go:145-177 | new state and reply, the panic of the refund computation included |
| `PredictionKeeper.Keeper.FillDirect` | x/prediction/keeper/keeper.go:381-418 | one order and one trade; never filled beyond its amount for any amount offered |
| `PredictionKeeper.Keeper.FillOrder` | x/prediction/keeper/msg_server.go:180-212 | new state and reply for every input |
| `BookMessages.CreateAnswers` | x/prediction/keeper/msg_server.go:25-52 | in every reachable state: accepted exactly with two or more different non-empty outcomes, a question and a deadline after the block's time; the id is the next one |
| `BookMessages.CreateStores` | x/prediction/keeper/msg_server.go:53-64 | every field of the stored market is the message's, open, created at the block's time; nothing else changes |
| `BookMessages.PostRefusals` | x/prediction/keeper/msg_server.go:71-103 | each refusal with its exact condition, in the order of the checks; otherwise accepted, or a panic on the denomination or on a negative fill |
| `BookMessages.PostStores` | x/prediction/keeper/msg_server.go:101-129 | every field of the new order is the message's: BUY exactly for "BUY", its amount, price, book and creator, the block's time; it is filled by what the trades add up to, and its status says how far |
| `BookMessages.PostPriority` | x/prediction/keeper/keeper.go:271-364 | a post changes only OPEN orders of its book, of the other side and within its limit; of two such the one of lower priority changes only if the other is then FILLED; all are FILLED if the new order wants more |
| `BookMessages.PostTrades` | x/prediction/keeper/keeper.go:319-378 | each trade of a post, field by field: with one such order, at its price, for no more than it has left, and that order's fill is exactly the trade |
| `BookMessages.CancelAnswers` | x/prediction/keeper/msg_server.go:145-161 | only the creator cancels, and only what is not FILLED or CANCELLED; in a reachable state the refund computation never panics |
| `BookMessages.CancelStores` | x/prediction/keeper/msg_server.go:163-165 | an accepted cancel makes that order CANCELLED and changes nothing else |
| `BookMessages.FillAnswers` | x/prediction/keeper/msg_server.go:180-204 | each refusal with its exact condition; a negative amount, a negative order or a bad denomination offered panics, and nothing else does |
| `BookMessages.FillStores` | x/prediction/keeper/keeper.go:381-418 | an accepted direct fill adds exactly the offered amount to that order in one trade, field by field; nothing else changes |
| `BookMessages.RunDenoms` | x/prediction/keeper/msg_server.go:103 | every stored order is in a denomination that the SDK accepts |
| `Decimal.KeyInjective` | x/settlement/keeper/keeper.go:17-19 | different (market, voter) pairs have different keys |
| `Decimal.PrefixDecides` | x/settlement/keeper/keeper.go:165 | a key starts with a market's prefix only if it is that market's |
| `Decimal.FormatRoundTrip` | x/reputation/keeper/keeper.go:96-107 | every int64 score comes back from its stored text |
| `Decimal.ParseExact` | x/reputation/keeper/keeper.go:96 | parsing accepts exactly an optional sign and digits whose value by place is an int64, and gives that value |
| `Decimal.TextLeads` | x/settlement/keeper/keeper.go:18 | %d writes no leading zero, so a number has one text |
| `Decimal.ScoreKeysCollide` | x/reputation/keeper/keeper.go:70 | two (address, group) pairs share a score key exactly when equal or when one address runs on over the other's colon |
| `Decimal.ScoreKeyInjective` | x/reputation/keeper/keeper.go:70 | addresses without a colon never collide |
| `Ordered.AscendingExact` | x/settlement/keeper/keeper.go:155-172 | what a store iteration yields: every key once, ascending |
| `Scans.ScanExact` | x/settlement/keeper/keeper.go:160-172 | the hand-written prefix scan is the plain filter on market id, and panics exactly when some key is shorter than the prefix |
| `Scans.AllExact` | x/settlement/keeper/keeper.go:257-277 | the same for the whole store |
| `Scans.EntriesExact` | x/settlement/keeper/keeper.go:153-173 | the scan's result has exactly the market's values, one per key and one per voter |
| `Scans.LongVotersSliceable` | x/settlement/keeper/keeper.go:165 | voters of 19 characters or more keep the slice in range for every market id |
| `Scans.ShortVoterPanics` | x/settlement/keeper/keeper.go:165 | a two-character voter of market 1 makes the scan for market 1000 panic |
| `Settlement.FinalizePanics` | x/settlement/keeper/msg_server.go:134-150 | a finalization panics exactly when its market exists, is not finalized, and some stored reveal of any market has a key shorter than its prefix |
| `SettlementKeeper.Collect` | x/settlement/keeper/keeper.go:153-173 | the iteration with its slice and comparison, against the specification |
| `Reputation.AdjustExact` | x/reputation/keeper/keeper.go:90-109 | an adjustment rewrites one score, clamped at zero after int64 wrap-around, and no other |
| `Reputation.AdjustStep` | x/reputation/keeper/keeper.go:102-105 | without overflow it is one step of the clamped walk |
| `Reputation.WalkClosedForm` | x/reputation/keeper/keeper.go:102-105 | the clamped walk in closed form: start plus prefix sum, less the lowest point below zero |
| `Reputation.LowExists` | x/reputation/keeper/keeper.go:102-105 | that lowest point always exists |
| `ReputationKeeper.Keeper.GetReputationScore` | x/reputation/keeper/keeper.go:69-76 | the stored text, or "0" and not found |
| `ReputationKeeper.Keeper.SetReputationScore` | x/reputation/keeper/keeper.go:79-87 | one record is written under the pair's key |
| `ReputationKeeper.Keeper.AdjustReputationScore` | x/reputation/keeper/keeper.go:90-109 | read, clamp and write; nothing changes when the stored text does not parse |
| `Worth.AdjustAlways` | x/reputation/keeper/keeper.go:90-109 | whatever is stored: an adjustment fails exactly on a text that is no number, and else writes one record with the sum, wrapped around at most once and at least zero |
| `Tally.WeightsExact` | x/settlement/keeper/keeper.go:176-202 | the weight table has exactly the revealed votes, each with its exact sum modulo 2^64 |
| `Worth.WeightIsScore` | x/settlement/keeper/keeper.go:181-197 | a voter weighs their score in the group raised to 1, and 1 without a score or with a text that is no number |
| `Worth.SumsOfScores` | x/settlement/keeper/keeper.go:180-199 | a vote's exact sum is the sum of its voters' scores, each at least 1, and likewise the total |
| `Worth.TableOfScores` | x/settlement/keeper/keeper.go:176-202 | the table FinalizeOutcome counts has exactly the revealed votes, each with that sum of scores modulo 2^64 |
| `Tally.TallyConserves` | x/settlement/keeper/keeper.go:180-199 | the outcomes' sums make up the weight of all the reveals |
| `Tally.TotalBounds` | x/settlement/keeper/keeper.go:180-199 | with weights between 1 and a bound, the total lies between the number of reveals and that number times the bound |
| `Tally.WeightsFit` | x/settlement/keeper/keeper.go:180-199 | an outcome whose exact sum is below 2^63 has that sum in the table |
| `Tally.TableExact` | x/settlement/keeper/keeper.go:180-199 | the table holds the exact sums exactly when no outcome's sum reaches 2^63 |
| `Tally.BoundedFits` | x/settlement/keeper/keeper.go:180-199 | R reveals of weight at most B cannot overflow while R * B < 2^63 |
| `Tally.OverflowLosesTheVote` | x/settlement/keeper/msg_server.go:158-166 | two voters of the greatest score agreeing on a vote weigh -2 together and no outcome is chosen |
| `OverflowRun.AgreementLost` | x/settlement/keeper/msg_server.go:131-185 | in any reachable state where a market's only two revealers have the greatest score and agree, finalization is accepted and stores the empty outcome |
| `OverflowRun.OverflowReached` | x/settlement/keeper/msg_server.go:131-185 | seven messages that lead there, two authority adjustments first, and the finalization that stores the empty outcome although every reveal is for the same outcome |
| `Tally.ArgMaxIsWinner` | x/settlement/keeper/msg_server.go:158-166 | in every iteration order the choice has maximal weight, or is empty when no weight is positive |
| `Tally.WinnersExact` | x/settlement/keeper/msg_server.go:158-166 | the outcomes some iteration order chooses are exactly the winners |
| `Tally.OrderIrrelevant` | x/settlement/keeper/msg_server.go:158-166 | the choice is independent of the map order exactly when there is one winner |
| `SettlementKeeper.HighestWeight` | x/settlement/keeper/msg_server.go:158-166 | the loop over the map in an arbitrary order chooses a winner |
| `Settlement.FinalizeShape` | x/settlement/keeper/msg_server.go:131-185 | exactly when a finalization is accepted, and its writes |
| `Settlement.StepKeeps` | x/settlement/keeper/msg_server.go:23-206 | every step keeps the invariant, and markets, commits, reveals and outcomes are write-once |
| `SettlementRuns.RunKeeps` | x/settlement/keeper/msg_server.go:23-206 | the invariant in every reachable state: commits only on due markets, each reveal backed by its commit, finalized markets with a reveal, scores natural numbers |
| `SettlementRuns.WriteOnce` | x/settlement/keeper/msg_server.go:39-116 | over any run a written market, commit, reveal or outcome stays as it is |
| `SettlementRuns.NoEarlyFinalization` | x/settlement/keeper/msg_server.go:131-169 | no market is finalized before its deadline, although finalization never looks at it |
| `SettlementRuns.SameVoter` | x/settlement/keeper/msg_server.go:72-82 | every reveal has a commit under the same key, of the same market and voter, with the hash of its vote and nonce |
| `SettlementRuns.RevealsWithinCommits` | x/settlement/keeper/keeper.go:228-254 | per market there are no more reveals than commits and as many voters as commits |
| `SettlementRuns.RunVoters` | x/settlement/keeper/msg_server.go:50-54 | what holds of everyone who commits holds of every recorded voter |
| `SettlementRuns.FinalizeAccepts` | x/settlement/keeper/msg_server.go:134-153 | with addresses of 19 characters or more, finalization succeeds exactly on an existing, not yet finalized market with a reveal |
| `ScoreRuns.UpdateWalks` | x/settlement/keeper/msg_server.go:188-206 | settling walks each score by its own verdicts |
| `ScoreRuns.ScoreIsWalk` | x/settlement/keeper/msg_server.go:188-206 | after any run each score is the clamped walk over its history of verdicts and authority adjustments |
| `ScoreRuns.ScoreClosedForm` | x/reputation/keeper/keeper.go:90-109 | the same score in closed form |
| `ScoreRuns.FinalizationScores` | x/settlement/keeper/msg_server.go:188-206 | each finalization adds one step for each revealer of that market, in its group only: 1 to who revealed the consensus, -1 to who did not; and nothing to anyone else |
| `Worth.FinalizationPays` | x/settlement/keeper/msg_server.go:188-206 | the stored effect, overflow included: who revealed the consensus gains one (from 2^63 - 1 the score drops to 0), every other revealer loses one but not below zero, in the market's group; every other score stays |
| `Consensus.ScoreBound` | x/reputation/keeper/keeper.go:102-108 | without authority adjustments no score exceeds the number of finalizations |
| `Consensus.TallyPrevails` | x/settlement/keeper/keeper.go:176-202 | unless an outcome's sum reaches 2^63: table entries are the exact sums, together the total weight, at least the number of reveals, and every order of the table chooses a vote that prevails |
| `Consensus.PrevailsOnSums` | x/settlement/keeper/msg_server.go:158-166 | with overflow allowed for, on the exact sums: every order of the table chooses a prevailing vote exactly when the greatest sum, wrapped to an int64, is positive and above every lesser sum wrapped (or the empty text is itself revealed and prevails with no wrapped sum positive) |
| `Consensus.ConsensusExact` | x/settlement/keeper/msg_server.go:131-169 | the same for the consensus a finalization stores, in every run; the case of the empty text cannot occur when only the empty text folds to it |
| `Consensus.PrevailingExists` | x/settlement/keeper/keeper.go:180-199 | some revealed vote always prevails |
| `Consensus.VotesAreOutcomes` | x/settlement/keeper/msg_server.go:97-103 | every recorded vote is an outcome of its market up to case |
| `Consensus.ConsensusPrevails` | x/settlement/keeper/msg_server.go:155-169 | in every run, authority adjustments and any addresses included: unless an outcome's sum reaches 2^63, the consensus is a revealed vote that no other outweighs, in every order of the table, and an outcome of the market |
| `Worth.MostScoreWins` | x/settlement/keeper/msg_server.go:155-169 | in every run in which no vote's scores reach 2^63: the stored consensus was revealed and no vote has more score behind it |
| `Consensus.SmallRunsFit` | x/reputation/keeper/keeper.go:102-108 | without authority adjustments and with colon-free addresses, R reveals after F finalizations cannot overflow while R * max(1, F) < 2^63 |
| `Spelling.ConsensusUpToCase` | x/settlement/keeper/msg_server.go:97-103 | where each outcome is revealed in one spelling and no sum overflows, the consensus is the outcome of greatest weight up to case, in every run and every order of the table |
| `Spelling.SplitSpellingsLose` | x/settlement/keeper/keeper.go:199 | in two spellings an outcome of weight 4 loses to one of weight 3 |
| `Binding.RevealOpens` | x/settlement/keeper/msg_server.go:72-108 | a reveal is accepted exactly when it is the first for its key and its vote and nonce open the commitment there |
| `Binding.OtherOpening` | x/settlement/keeper/msg_server.go:209-213 | where a reveal is accepted, another vote and nonce would be exactly when they run together to the same text and are acceptable |
| `Binding.BindsExactly` | x/settlement/keeper/msg_server.go:209-213 | commitments bind the vote exactly on markets where no acceptable vote continues another by 56 characters or fewer |
| `SettlementKeeper.ValidateOutcome` | x/prediction/types/types.go:27-34 | some outcome equals the vote up to case |
| `VoteMessages.CommitAnswers` | x/settlement/keeper/msg_server.go:23-48 | in every reachable state, each answer with its exact condition: from the deadline on, once a voter and market, with 64 characters |
| `VoteMessages.CommitStores` | x/settlement/keeper/msg_server.go:50-55 | an accepted commit adds its own record and nothing else |
| `VoteMessages.RevealAnswers` | x/settlement/keeper/msg_server.go:69-108 | each answer with its exact condition: the voter's commit must be the hash of the vote followed by the nonce |
| `VoteMessages.RevealStores` | x/settlement/keeper/msg_server.go:110-116 | an accepted reveal adds its own record and nothing else |
| `VoteMessages.FinalizeAnswers` | x/settlement/keeper/msg_server.go:131-153 | each answer with its exact condition, the panic of the scan included |
| `VoteMessages.FinalizeStores` | x/settlement/keeper/msg_server.go:168-172 | an accepted finalization adds one outcome and touches nothing else but scores |
| `SettlementKeeper.Keeper.SetCommit` | x/settlement/keeper/keeper.go:101-106 | the commit is stored under the key made from it, nothing else changes |
| `SettlementKeeper.Keeper.SetReveal` | x/settlement/keeper/keeper.go:119-124 | the reveal is stored under the key made from it, nothing else changes |
| `SettlementKeeper.Keeper.CommitVote` | x/settlement/keeper/msg_server.go:23-67 | new state and answer for every input, errors in the order of the checks |
| `SettlementKeeper.Keeper.RevealVote` | x/settlement/keeper/msg_server.go:69-129 | new state and answer for every input, errors in the order of the checks |
| `SettlementKeeper.Keeper.FinalizeOutcome` | x/settlement/keeper/msg_server.go:131-185 | new state and answer for some iteration order of the table, and the stored outcome is a winner |
| `SettlementKeeper.Keeper.UpdateReputationScores` | x/settlement/keeper/msg_server.go:188-206 | the loop of adjustments, failed ones skipped |
| `SettlementKeeper.Keeper.VoterWeight` | x/settlement/keeper/keeper.go:181-197 | a voter's weight is the parsed score raised to 1, and 1 without a usable score |
| `SettlementKeeper.Keeper.GetReputationWeightedVotes` | x/settlement/keeper/keeper.go:176-202 | the table loop over the collected reveals |
| `SettlementKeeper.Keeper.GetVoteDistribution` | x/settlement/keeper/keeper.go:296-306 | exactly the revealed votes, each with its count on a uint32 |
| `SettlementKeeper.VoteCountExact` | x/settlement/keeper/keeper.go:300-302 | a vote's count is the number of places where it was revealed |
| `SettlementKeeper.Keeper.GetSettlementStats` | x/settlement/keeper/keeper.go:228-254 | the statistics of the collected commits and reveals |
| `SettlementKeeper.StatsExact` | x/settlement/keeper/keeper.go:228-254 | in a reachable state they are the true counts, unique voters equal commits, and the reveal rate is the revealed share, between 0 and 1 |
| `GenesisStore.StoreRoundTrip` | x/settlement/keeper/keeper.go:313-383 | importing an exported store restores it exactly when every value sits under the key made from it |
| `GenesisStore.GenesisRoundTrips` | x/settlement/keeper/keeper.go:313-383 | the same for commits, reveals and outcomes together |
| `GenesisStore.ReachableRoundTrips` | x/settlement/keeper/keeper.go:313-383 | every reachable store survives export and import |
| `GenesisStore.LastWins` | x/settlement/keeper/keeper.go:313-322 | importing any list over any store: under each key is the last value of the list for it |
| `GenesisStore.OthersStay` | x/settlement/keeper/keeper.go:313-322 | what the list has nothing for stays as it was |
| `GenesisStore.ExportExact` | x/settlement/keeper/keeper.go:333-366 | an exported list has every record once, by ascending key |
| `SettlementKeeper.Keeper.InitGenesis` | x/settlement/keeper/keeper.go:313-330 | the stores after loading a genesis state over what is there |
| `SettlementKeeper.Keeper.ExportGenesis` | x/settlement/keeper/keeper.go:333-383 | the exported state, which restores well-keyed stores |
| `Varint.SovIsLength` | x/prediction/types/prediction_market.pb.go:322-324 | the size from the bit length is the number of bytes written, for every uint64 |
| `Varint.EncodeVarint` | x/prediction/types/prediction_market.pb.go:262-272 | the bytes lie exactly in [offset - sov, offset) and nothing else in the buffer changes |
| `Varint.OrIn` | x/prediction/types/prediction_market.pb.go:343 | OR-ing in a shifted byte extends the value by one byte, modulo 2^64 |
| `Varint.ReadVarint` | x/prediction/types/prediction_market.pb.go:334-347 | the shift-accumulate loop, with its overflow and end-of-input errors |
| `Varint.DecodeExact` | x/prediction/types/prediction_market.pb.go:334-347 | it accepts exactly the varints of at most ten bytes |
| `Varint.VarintRoundTrip` | x/prediction/types/prediction_market.pb.go:262-272 | decoding what the encoder wrote gives the value back and stops right after it |
| `Wire.Skip` | x/prediction/types/prediction_market.pb.go:646-723 | a successful skip advances by at least one byte and stays an int, groups included |
| `Wire.SkipLoop` | x/prediction/types/prediction_market.pb.go:646-723 | the skip loop under 64-bit wrap-around, without an index out of range |
| `Wire.TagLoop` | x/prediction/types/prediction_market.pb.go:332-355 | tag, field number and wire type, with the errors of a loop body's head |
| `Wire.NumCase` | x/prediction/types/prediction_market.pb.go:357-375 | a varint field's case |
| `Wire.BytesCase` | x/prediction/types/prediction_market.pb.go:376-407 | a length-delimited field's case, with the negative-length and wrap-around tests |
| `Wire.DefaultCase` | x/prediction/types/prediction_market.pb.go:625-638 | an unknown field is skipped inside the buffer |
| `Wire.ReadField` | x/prediction/types/prediction_market.pb.go:331-639 | a record that is read ends after its start and inside the buffer |
| `WireGrammar.SkipExact` | x/prediction/types/prediction_market.pb.go:646-723 | by a grammar of values of its own (varint; eight bytes; a length and that many bytes; the records of a group and its end tag; four bytes): skipping ends at n inside the data exactly when the bytes up to n are one record, for all wire types and nestings |
| `WireGrammar.TagExact` | x/prediction/types/prediction_market.pb.go:332-355 | the tag rules: positive field number, no group end outside a group |
| `WireGrammar.RecordExact` | x/prediction/types/prediction_market.pb.go:331-639 | a parser reads f and stops at n exactly when the first n bytes are a record that stands for f: a varint field, a length-delimited field, or any value in a field not in the schema |
| `WireGrammar.RecordRefused` | x/prediction/types/prediction_market.pb.go:349-360 | the refusals for a group end, a field number, a known field's wire type and an illegal one |
| `WireGrammar.NoVarint` | x/prediction/types/prediction_market.pb.go:334-347 | exactly when a varint fails for length and when for missing bytes |
| `WireGrammar.UnknownIsDropped` | x/prediction/types/prediction_market.pb.go:625-638 | bytes with an unknown record in between parse as without it |
| `WireFacts.ReadersCompose` | x/prediction/types/prediction_market.pb.go:331-639 | a record reads the same with other bytes behind or in front of it |
| `WireFacts.ConcatIsMerge` | x/prediction/types/prediction_market.pb.go:328-645 | if a parses, parsing a + b is parsing b into what a gave |
| `WirePrint.PrintVarint` | x/prediction/types/prediction_market.pb.go:202-206 | a varint and its tag, written backwards |
| `WirePrint.PrintBytes` | x/prediction/types/prediction_market.pb.go:247-253 | a string, its length and its tag, written backwards |
| `WirePrint.PrintRepeated` | x/prediction/types/prediction_market.pb.go:238-246 | the elements of a repeated field, last one first |
| `WirePrint.ParsePrinted` | x/prediction/types/prediction_market.pb.go:328-645 | parsing printed records applies exactly those records in order |
| `MarketCodec.ParseOverlays` | x/prediction/types/prediction_market.pb.go:328-645 | parsing a printed market into any struct overwrites non-zero scalars and appends repeated fields |
| `MarketCodec.MarketRoundTrip` | x/prediction/types/prediction_market.pb.go:188-645 | Unmarshal of Marshal into a fresh struct gives every market back |
| `MarketCodec.MarketMerge` | x/prediction/types/prediction_market.pb.go:328-645 | for markets, parsing a concatenation is merging |
| `FieldNumbers.MarketUnknown` | x/prediction/types/prediction_market.pb.go:625-638 | any record of a field a market does not have leaves the market as it was, alone or between other bytes |
| `FieldNumbers.FieldEleven` | x/prediction/types/prediction_market.pb.go:625-638 | a string in field 11 is passed over with its contents, into any market |
| `FieldNumbers.MarketNumber` | x/prediction/types/prediction_market.pb.go:357-611 | the scalar fields by their tag bytes |
| `FieldNumbers.MarketString` | x/prediction/types/prediction_market.pb.go:376-624 | the strings and repeated strings by their tag bytes |
| `FieldNumbers.EmptyPrints` | x/prediction/types/prediction_market.pb.go:188-260 | nothing is printed for a zero, an empty string or an empty list |
| `FieldNumbers.MarketPrints` | x/prediction/types/prediction_market.pb.go:188-260 | the bytes of a market with an id, a question, two outcomes and a deadline |
| `Reprint.MarketReprints` | x/prediction/types/prediction_market.pb.go:188-645 | whatever bytes a market is parsed from, it prints in no more of them and reads back the same, with no size condition |
| `MarketCodec.MarketMessage.Size` | x/prediction/types/prediction_market.pb.go:273-320 | the exact number of bytes |
| `MarketCodec.MarketMessage.MarshalToSizedBuffer` | x/prediction/types/prediction_market.pb.go:188-260 | exactly those bytes right before the end, the rest of the buffer unchanged |
| `MarketCodec.MarketMessage.Marshal` | x/prediction/types/prediction_market.pb.go:173-181 | a buffer of exactly Size bytes, filled from offset 0 |
| `MarketCodec.MarketMessage.Switch` | x/prediction/types/prediction_market.pb.go:356-639 | what one record does to the struct |
| `MarketCodec.MarketMessage.Unmarshal` | x/prediction/types/prediction_market.pb.go:328-645 | the parser loop on every byte sequence, from any struct state |
| `VoteCodec.UnmarshalParams` | x/settlement/types/params.pb.go:157-206 | a message without fields: every record is skipped |
| `VoteCodec.CommitRoundTrip` | x/settlement/types/vote_commit.pb.go:125-321 | Unmarshal undoes Marshal for VoteCommit |
| `VoteCodec.SizeCommit` | x/settlement/types/vote_commit.pb.go:163-181 | the exact size |
| `VoteCodec.MarshalCommit` | x/settlement/types/vote_commit.pb.go:125-150 | the exact bytes, right before the end |
| `VoteCodec.SwitchCommit` | x/settlement/types/vote_commit.pb.go:217-314 | what one record does to the struct |
| `VoteCodec.UnmarshalCommit` | x/settlement/types/vote_commit.pb.go:189-321 | the parser on every byte sequence, from any struct state |
| `VoteCodec.RevealRoundTrip` | x/settlement/types/vote_reveal.pb.go:134-373 | Unmarshal undoes Marshal for VoteReveal |
| `VoteCodec.SizeReveal` | x/settlement/types/vote_reveal.pb.go:179-201 | the exact size |
| `VoteCodec.MarshalReveal` | x/settlement/types/vote_reveal.pb.go:134-166 | the exact bytes, right before the end |
| `VoteCodec.SwitchReveal` | x/settlement/types/vote_reveal.pb.go:237-366 | what one record does to the struct |
| `VoteCodec.UnmarshalReveal` | x/settlement/types/vote_reveal.pb.go:209-373 | the parser on every byte sequence, from any struct state |
| `VoteCodec.OutcomeRoundTrip` | x/settlement/types/genesis.pb.go:278-645 | Unmarshal undoes Marshal for MarketOutcome |
| `VoteCodec.SizeOutcome` | x/settlement/types/genesis.pb.go:338-352 | the exact size |
| `VoteCodec.MarshalOutcome` | x/settlement/types/genesis.pb.go:278-296 | the exact bytes, right before the end |
| `VoteCodec.SwitchOutcome` | x/settlement/types/genesis.pb.go:573-638 | what one record does to the struct |
| `VoteCodec.UnmarshalOutcome` | x/settlement/types/genesis.pb.go:545-645 | the parser on every byte sequence, from any struct state |
| `FieldNumbers.CommitFields` | x/settlement/types/vote_commit.pb.go:217-300 | the fields of a commit by their tag bytes |
| `FieldNumbers.RevealFields` | x/settlement/types/vote_reveal.pb.go:237-352 | the fields of a reveal by their tag bytes |
| `FieldNumbers.OutcomeFields` | x/settlement/types/genesis.pb.go:573-624 | the fields of an outcome by their tag bytes |
| `FieldNumbers.CommitUnknown` | x/settlement/types/vote_commit.pb.go:301-314 | a commit passes over fields it does not have |
| `FieldNumbers.RevealUnknown` | x/settlement/types/vote_reveal.pb.go:353-366 | a reveal passes over fields it does not have |
| `FieldNumbers.OutcomeUnknown` | x/settlement/types/genesis.pb.go:625-638 | an outcome passes over fields it does not have |
| `FieldNumbers.VotesPrint` | x/settlement/types/vote_commit.pb.go:125-150 | the bytes of a commit, a reveal and an outcome |
| `GenesisCodec.MarshalCommits` | x/settlement/types/genesis.pb.go:236-249 | nested commits, last one first, each with its length and tag |
| `GenesisCodec.MarshalReveals` | x/settlement/types/genesis.pb.go:222-235 | nested reveals, likewise |
| `GenesisCodec.MarshalOutcomes` | x/settlement/types/genesis.pb.go:208-221 | nested outcomes, likewise |
| `GenesisCodec.ParseAppends` | x/settlement/types/genesis.pb.go:360-544 | parsing a printed genesis state into any state appends its lists |
| `GenesisCodec.GenesisRoundTrip` | x/settlement/types/genesis.pb.go:203-544 | Unmarshal of Marshal into a fresh GenesisState gives it back, nested lists included |
| `GenesisCodec.GenesisMerge` | x/settlement/types/genesis.pb.go:360-544 | for genesis states, parsing a concatenation is merging |
| `FieldNumbers.GenesisFields` | x/settlement/types/genesis.pb.go:388-523 | the nested messages by their tag bytes, each parsed on its own into a fresh element |
| `FieldNumbers.GenesisUnknown` | x/settlement/types/genesis.pb.go:524-538 | a genesis state passes over fields it does not have |
| `FieldNumbers.GenesisPrints` | x/settlement/types/genesis.pb.go:203-261 | params first, though empty, then commits, reveals and outcomes |
| `Reprint.GenesisReprints` | x/settlement/types/genesis.pb.go:203-544 | the same for genesis states with their nested messages, up to the two bytes of the params record that are always printed |
| `GenesisCodec.GenesisMessage.Size` | x/settlement/types/genesis.pb.go:309-336 | the exact number of bytes |
| `GenesisCodec.GenesisMessage.MarshalToSizedBuffer` | x/settlement/types/genesis.pb.go:203-261 | exactly those bytes right before the end, the rest of the buffer unchanged |
| `GenesisCodec.GenesisMessage.Marshal` | x/settlement/types/genesis.pb.go:188-196 | a buffer of exactly Size bytes, filled from offset 0 |
| `GenesisCodec.GenesisMessage.Switch` | x/settlement/types/genesis.pb.go:388-538 | what one record does to the struct |
| `GenesisCodec.GenesisMessage.Unmarshal` | x/settlement/types/genesis.pb.go:360-544 | the parser loop on every byte sequence, from any struct state |

## Left out

- ConcatIsMerge: when b does not parse, both sides fail, but the reported error may differ, because the index overflow test depends on where b stands; MarketMerge and GenesisMerge inherit this.
- MarketRoundTrip: for messages of less than 2^63 bytes, which is what a Go slice can hold; likewise the other round trips and printers. MarketReprints needs no such condition, and every parsed market meets it.
- RecordExact: stated of the record at the start of the data; ReadersCompose carries it to any place in it. UnknownIsDropped inherits the errors of ConcatIsMerge.
- MostScoreWins: as long as no vote's scores reach 2^63; ConsensusExact has no such condition.
- ScoreIsWalk: as long as no step of the walk reaches 2^63; AdjustExact states the wrapped result without that condition.
- FillDirect: the contract is silent about the amount's denomination, which the code never compares with the order's.
- Nested messages in the codec are values handed in and back, not structs updated through pointers; the contents of a struct after a parse error are not specified beyond the records read before it.
- The branch for a missing filled amount in MatchOrder, which no posted order reaches.
- GetAllOrders, IsMarketReadyForSettlement, ValidateVote, the query servers and parameter updates: easy members.
- Prediction and reputation genesis: only parameters are exported there.
- The other generated codecs, sozPredictionMarket, MarshalTo and the nil receivers: the same shapes with fewer field kinds; the Order codec embeds the SDK's Coin codec, which is not part of this model.
- Positions, bank transfers, escrow and refunds: nothing in these handlers moves coins.
- Trade ids: the block height, as in the code, so not unique.
- Events, logging, address codecs and the authority check of AdjustScore: no state beyond the answer.
- The reveal rate is a real number instead of a float64.
- SHA-256, LegacyDec parsing, case folding and the key-value store itself: parameters or plain maps.
- App wiring, IBC, gateways and simulation: plumbing over libraries that are not part of this model.
