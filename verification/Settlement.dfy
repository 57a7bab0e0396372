/** Settlement: votes are committed, revealed and counted, and scores follow the result. */
module Settlement {
  import opened GoInt
  import opened Results
  import opened Messages
  import opened Decimal
  import opened Scans
  import opened PredictionTypes
  import opened Markets
  import opened Reputation
  import opened Tally

  type Commit = VoteCommit<string>

  /** Library functions whose code is not part of this model: the hex text of
      SHA-256, and strings.EqualFold. */
  datatype Primitives = Primitives(hash: string -> string, equalFold: (string, string) -> bool)

  /** The stores of the settlement module and of the two modules it calls. */
  datatype World = World(
    markets: MarketTable,
    commits: map<string, Commit>,
    revealed: map<string, Reveal>,
    outcomes: map<uint64, string>,
    scores: Scores)

  datatype Refusal =
    | MarketNotFound
    | MarketNotReady
    | AlreadyCommitted
    | InvalidRequest
    | NoCommitmentFound
    | CommitmentMismatch
    | AlreadyRevealed
    | InvalidVote
    | InvalidNonce
    | OutcomeAlreadyFinalized
    | NoRevealsFound
    | UnparsableScore
    | SliceOutOfRange  // a panic: the transaction aborts and its writes are discarded

  datatype Answer = Accepted | Refused(refusal: Refusal)

  datatype CommitMsg = CommitMsg(creator: string, marketId: uint64, commitment: string)

  datatype RevealMsg = RevealMsg(creator: string, marketId: uint64, vote: string, nonce: string)

  function CommitMarket(c: Commit): nat { c.marketId }

  function CommitVoter(c: Commit): string { c.voter }

  function RevealMarket(r: Reveal): nat { r.marketId }

  function RevealVoter(r: Reveal): string { r.voter }

  /** The deadline test of CommitVote. */
  predicate Due(market: Market, now: int64) {
    !(market.deadline > 0 && now < market.deadline)
  }

  /** generateCommitment. */
  function Commitment(p: Primitives, vote: string, nonce: string): string {
    p.hash(vote + nonce)
  }

  /** ValidateOutcome: the vote is one of the outcomes, up to case. */
  predicate IsOutcome(p: Primitives, outcomes: seq<string>, vote: string) {
    exists i :: 0 <= i < |outcomes| && p.equalFold(outcomes[i], vote)
  }

  function CommitVote(w: World, now: int64, msg: CommitMsg): (World, Answer) {
    var key := MarketVoterKey(msg.marketId, msg.creator);
    if msg.marketId !in w.markets.byId then (w, Refused(MarketNotFound))
    else if !Due(w.markets.byId[msg.marketId], now) then (w, Refused(MarketNotReady))
    else if key in w.commits then (w, Refused(AlreadyCommitted))
    else if |msg.commitment| != 64 then (w, Refused(InvalidRequest))
    else (w.(commits := w.commits[key := VoteCommit(msg.marketId, msg.creator, msg.commitment)]), Accepted)
  }

  function RevealVote(p: Primitives, w: World, msg: RevealMsg): (World, Answer) {
    var key := MarketVoterKey(msg.marketId, msg.creator);
    if key !in w.commits then (w, Refused(NoCommitmentFound))
    else if w.commits[key].commitment != Commitment(p, msg.vote, msg.nonce) then (w, Refused(CommitmentMismatch))
    else if key in w.revealed then (w, Refused(AlreadyRevealed))
    else if msg.marketId !in w.markets.byId then (w, Refused(MarketNotFound))
    else
      var outcomes := w.markets.byId[msg.marketId].outcomes;
      if |outcomes| > 0 && !IsOutcome(p, outcomes, msg.vote) then (w, Refused(InvalidVote))
      else if |msg.nonce| < 8 || |msg.nonce| > 64 then (w, Refused(InvalidNonce))
      else
        var entry := VoteReveal(msg.marketId, msg.creator, msg.vote, msg.nonce);
        (w.(revealed := w.revealed[key := entry]), Accepted)
  }

  /** What a reveal does to its voter's score. */
  function Verdict(vote: string, outcome: string): int64 {
    if vote == outcome then 1 else -1
  }

  /** updateReputationScores: an adjustment that fails is skipped. */
  function UpdateScores(scores: Scores, revealed: seq<Reveal>, groupId: string, outcome: string): Scores {
    if revealed == [] then scores
    else
      var n := |revealed| - 1;
      var before := UpdateScores(scores, revealed[..n], groupId, outcome);
      match Adjust(before, revealed[n].voter, groupId, Verdict(revealed[n].vote, outcome))
      case None => before
      case Some(after) => after
  }

  /** The table of weighted votes of a market in group groupId. */
  function VoteWeights(scores: Scores, revealed: seq<Reveal>, groupId: string): map<string, int64> {
    Weights(revealed, WeightIn(scores, groupId))
  }

  /** The writes of a finalization that found reveals. */
  function Settle(w: World, marketId: uint64, groupId: string, revealed: seq<Reveal>, consensus: string): World {
    w.(outcomes := w.outcomes[marketId := consensus],
       scores := UpdateScores(w.scores, revealed, groupId, consensus))
  }

  /** FinalizeOutcome, with the order in which the table of weights is iterated. */
  function FinalizeOutcome(w: World, marketId: uint64, order: seq<string>): (World, Answer) {
    if marketId in w.outcomes then (w, Refused(OutcomeAlreadyFinalized))
    else if marketId !in w.markets.byId then (w, Refused(MarketNotFound))
    else
      match All(w.revealed, marketId)
      case None => (w, Refused(SliceOutOfRange))
      case Some(revealed) =>
        if revealed == [] then (w, Refused(NoRevealsFound))
        else
          var groupId := w.markets.byId[marketId].groupId;
          (Settle(w, marketId, groupId, revealed, ArgMax(VoteWeights(w.scores, revealed, groupId), order).0), Accepted)
  }

  /** The reputation module's AdjustScore, sent by the authority. */
  function AdjustScore(w: World, address: string, groupId: string, adjustment: int64): (World, Answer) {
    match Adjust(w.scores, address, groupId, adjustment)
    case None => (w, Refused(UnparsableScore))
    case Some(scores) => (w.(scores := scores), Accepted)
  }

  datatype Action =
    | Create(market: CreateMsg)
    | DoCommit(commit: CommitMsg)
    | DoReveal(opening: RevealMsg)
    | Finalize(marketId: uint64, order: seq<string>)
    | Rescore(address: string, groupId: string, adjustment: int64)

  ghost function Step(p: Primitives, w: World, ctx: Ctx, action: Action): (World, Answer) {
    match action
    case Create(msg) =>
      var (table, reply) := CreateMarket(ctx, w.markets, msg);
      (w.(markets := table), if reply.Done? then Accepted else Refused(InvalidRequest))
    case DoCommit(msg) => CommitVote(w, ctx.time, msg)
    case DoReveal(msg) => RevealVote(p, w, msg)
    case Finalize(marketId, order) => FinalizeOutcome(w, marketId, order)
    case Rescore(address, groupId, adjustment) => AdjustScore(w, address, groupId, adjustment)
  }

  // ---------- What every step keeps ----------

  /** Every commit is on a market that is due, under its own key. */
  ghost predicate CommitsOk(table: MarketTable, commits: map<string, Commit>, now: int64) {
    && WellKeyed(commits, CommitMarket, CommitVoter)
    && forall k :: k in commits ==>
      && |commits[k].commitment| == 64
      && commits[k].marketId in table.byId && Due(table.byId[commits[k].marketId], now)
  }

  /** What RevealVote has checked. */
  ghost predicate Honoured(p: Primitives, table: MarketTable, commits: map<string, Commit>, key: string, r: Reveal) {
    && key in commits && commits[key].commitment == Commitment(p, r.vote, r.nonce)
    && r.marketId in table.byId && 8 <= |r.nonce| <= 64
    && IsOutcome(p, table.byId[r.marketId].outcomes, r.vote)
  }

  ghost predicate RevealsOk(p: Primitives, table: MarketTable, commits: map<string, Commit>,
        revealed: map<string, Reveal>)
  {
    && WellKeyed(revealed, RevealMarket, RevealVoter)
    && forall k :: k in revealed ==> Honoured(p, table, commits, k, revealed[k])
  }

  ghost predicate HasReveal(revealed: map<string, Reveal>, marketId: uint64) {
    exists k :: k in revealed && revealed[k].marketId == marketId
  }

  /** A finalized market exists and has a reveal. */
  ghost predicate OutcomesOk(table: MarketTable, revealed: map<string, Reveal>, outcomes: map<uint64, string>) {
    forall m :: m in outcomes ==> m in table.byId && HasReveal(revealed, m)
  }

  ghost predicate WorldOk(p: Primitives, w: World, now: int64) {
    && MarketsOk(w.markets) && CommitsOk(w.markets, w.commits, now)
    && RevealsOk(p, w.markets, w.commits, w.revealed) && OutcomesOk(w.markets, w.revealed, w.outcomes)
    && ScoresOk(w.scores)
  }

  ghost predicate Within<K, V>(m: map<K, V>, m': map<K, V>) {
    forall k :: k in m ==> k in m' && m'[k] == m[k]
  }

  /** Markets, commits, reveals and outcomes are written once. */
  ghost predicate Grows(w: World, w': World) {
    && Extends(w.markets, w'.markets)
    && Within(w.commits, w'.commits) && Within(w.revealed, w'.revealed) && Within(w.outcomes, w'.outcomes)
  }

  /** What has been checked of a record stays true as the stores grow. */
  lemma Persist(p: Primitives, w: World, w': World)
    requires Grows(w, w')
    ensures forall k, r :: Honoured(p, w.markets, w.commits, k, r) ==> Honoured(p, w'.markets, w'.commits, k, r)
    ensures forall m :: HasReveal(w.revealed, m) ==> HasReveal(w'.revealed, m)
  {
    forall m | HasReveal(w.revealed, m) ensures HasReveal(w'.revealed, m) {
      var k :| k in w.revealed && w.revealed[k].marketId == m;
      assert k in w'.revealed && w'.revealed[k].marketId == m;
    }
  }

  lemma CreateStep(p: Primitives, w: World, ctx: Ctx, msg: CreateMsg)
    requires WorldOk(p, w, ctx.time) && w.markets.next < 0x1_0000_0000_0000_0000
    ensures var w' := w.(markets := CreateMarket(ctx, w.markets, msg).0);
      WorldOk(p, w', ctx.time) && Grows(w, w')
  {
    CreateKeeps(ctx, w.markets, msg);
    MarketsGrow(p, w, CreateMarket(ctx, w.markets, msg).0, ctx.time);
  }

  lemma MarketsGrow(p: Primitives, w: World, table: MarketTable, now: int64)
    requires WorldOk(p, w, now) && MarketsOk(table) && Extends(w.markets, table)
    ensures WorldOk(p, w.(markets := table), now) && Grows(w, w.(markets := table))
  {
    Persist(p, w, w.(markets := table));
  }

  lemma CommitStep(p: Primitives, w: World, now: int64, msg: CommitMsg)
    requires WorldOk(p, w, now)
    ensures WorldOk(p, CommitVote(w, now, msg).0, now) && Grows(w, CommitVote(w, now, msg).0)
  {
    var (w', answer) := CommitVote(w, now, msg);
    CommitShape(w, now, msg);
    CommitOutcome(p, w, w', now, VoteCommit(msg.marketId, msg.creator, msg.commitment), answer == Accepted);
  }

  /** When a commit is accepted, and the one record it writes. */
  lemma CommitShape(w: World, now: int64, msg: CommitMsg)
    ensures var (w', answer) := CommitVote(w, now, msg);
      var key := MarketVoterKey(msg.marketId, msg.creator);
      && (answer == Accepted <==>
          && msg.marketId in w.markets.byId && Due(w.markets.byId[msg.marketId], now)
          && key !in w.commits && |msg.commitment| == 64)
      && w' == if answer == Accepted
               then w.(commits := w.commits[key := VoteCommit(msg.marketId, msg.creator, msg.commitment)])
               else w
  {
  }

  lemma CommitOutcome(p: Primitives, w: World, w': World, now: int64, c: Commit, accepted: bool)
    requires WorldOk(p, w, now)
    requires var key := MarketVoterKey(c.marketId, c.voter);
      if accepted
      then
        && key !in w.commits && |c.commitment| == 64
        && c.marketId in w.markets.byId && Due(w.markets.byId[c.marketId], now)
        && w' == w.(commits := w.commits[key := c])
      else w' == w
    ensures WorldOk(p, w', now) && Grows(w, w')
  {
    if accepted {
      AddCommit(p, w, now, MarketVoterKey(c.marketId, c.voter), c);
    }
  }

  lemma AddCommit(p: Primitives, w: World, now: int64, key: string, c: Commit)
    requires WorldOk(p, w, now)
    requires key !in w.commits && key == MarketVoterKey(c.marketId, c.voter)
    requires |c.commitment| == 64 && c.marketId in w.markets.byId && Due(w.markets.byId[c.marketId], now)
    ensures var w' := w.(commits := w.commits[key := c]);
      WorldOk(p, w', now) && Grows(w, w')
  {
    StoreKeeps(w.commits, key, c, CommitMarket, CommitVoter);
    Persist(p, w, w.(commits := w.commits[key := c]));
  }

  lemma RevealStep(p: Primitives, w: World, now: int64, msg: RevealMsg)
    requires WorldOk(p, w, now)
    ensures WorldOk(p, RevealVote(p, w, msg).0, now) && Grows(w, RevealVote(p, w, msg).0)
  {
    var (w', answer) := RevealVote(p, w, msg);
    MarketHasOutcomes(w, msg.marketId);
    RevealShape(p, w, msg);
    RevealOutcome(p, w, w', now, VoteReveal(msg.marketId, msg.creator, msg.vote, msg.nonce), answer == Accepted);
  }

  lemma MarketHasOutcomes(w: World, marketId: uint64)
    requires MarketsOk(w.markets)
    ensures marketId in w.markets.byId ==> |w.markets.byId[marketId].outcomes| > 0
  {
  }

  /** When a reveal is accepted, and the one record it writes. */
  lemma RevealShape(p: Primitives, w: World, msg: RevealMsg)
    requires msg.marketId in w.markets.byId ==> |w.markets.byId[msg.marketId].outcomes| > 0
    ensures var (w', answer) := RevealVote(p, w, msg);
      var key := MarketVoterKey(msg.marketId, msg.creator);
      var r := VoteReveal(msg.marketId, msg.creator, msg.vote, msg.nonce);
      && (answer == Accepted <==> Honoured(p, w.markets, w.commits, key, r) && key !in w.revealed)
      && w' == if answer == Accepted then w.(revealed := w.revealed[key := r]) else w
  {
  }

  lemma RevealOutcome(p: Primitives, w: World, w': World, now: int64, r: Reveal, accepted: bool)
    requires WorldOk(p, w, now)
    requires var key := MarketVoterKey(r.marketId, r.voter);
      if accepted
      then Honoured(p, w.markets, w.commits, key, r) && key !in w.revealed && w' == w.(revealed := w.revealed[key := r])
      else w' == w
    ensures WorldOk(p, w', now) && Grows(w, w')
  {
    if accepted {
      AddReveal(p, w, now, MarketVoterKey(r.marketId, r.voter), r);
    }
  }

  lemma AddReveal(p: Primitives, w: World, now: int64, key: string, r: Reveal)
    requires WorldOk(p, w, now)
    requires key !in w.revealed && key == MarketVoterKey(r.marketId, r.voter)
    requires Honoured(p, w.markets, w.commits, key, r)
    ensures var w' := w.(revealed := w.revealed[key := r]);
      WorldOk(p, w', now) && Grows(w, w')
  {
    StoreKeeps(w.revealed, key, r, RevealMarket, RevealVoter);
    RevealAdded(p, w.markets, w.commits, w.revealed, key, r);
    OutcomesStay(w.markets, w.revealed, w.outcomes, key, r);
  }

  lemma RevealAdded(p: Primitives, table: MarketTable, commits: map<string, Commit>, revealed: map<string, Reveal>,
        key: string, r: Reveal)
    requires RevealsOk(p, table, commits, revealed) && Honoured(p, table, commits, key, r)
    requires WellKeyed(revealed[key := r], RevealMarket, RevealVoter)
    ensures RevealsOk(p, table, commits, revealed[key := r])
  {
  }

  lemma OutcomesStay(table: MarketTable, revealed: map<string, Reveal>, outcomes: map<uint64, string>,
        key: string, r: Reveal)
    requires OutcomesOk(table, revealed, outcomes) && key !in revealed
    ensures OutcomesOk(table, revealed[key := r], outcomes)
  {
    forall m | m in outcomes ensures m in table.byId && HasReveal(revealed[key := r], m) {
      assert HasReveal(revealed, m);
      var k :| k in revealed && revealed[k].marketId == m;
      assert k in revealed[key := r] && revealed[key := r][k].marketId == m;
    }
  }

  lemma {:induction false} UpdateScoresOk(scores: Scores, revealed: seq<Reveal>, groupId: string, outcome: string)
    requires ScoresOk(scores)
    ensures ScoresOk(UpdateScores(scores, revealed, groupId, outcome))
  {
    if revealed != [] {
      var n := |revealed| - 1;
      UpdateScoresOk(scores, revealed[..n], groupId, outcome);
      AdjustStep(UpdateScores(scores, revealed[..n], groupId, outcome), revealed[n].voter, groupId,
                 Verdict(revealed[n].vote, outcome));
    }
  }

  /** The reveals of a market, as the plain filter gives them. */
  ghost function RevealsOf(w: World, marketId: uint64): seq<Reveal> {
    Entries(w.revealed, RevealMarket, marketId)
  }

  /** When a finalization is accepted and what it does. */
  lemma FinalizeShape(p: Primitives, w: World, now: int64, marketId: uint64, order: seq<string>)
    requires WorldOk(p, w, now)
    ensures var (w', answer) := FinalizeOutcome(w, marketId, order);
      && (answer == Accepted <==>
          && marketId !in w.outcomes && marketId in w.markets.byId
          && LongKeys(w.revealed, marketId) && HasReveal(w.revealed, marketId))
      && (answer != Accepted ==> w' == w)
      && (answer == Accepted ==>
          var groupId := w.markets.byId[marketId].groupId;
          var consensus := ArgMax(VoteWeights(w.scores, RevealsOf(w, marketId), groupId), order).0;
          w' == Settle(w, marketId, groupId, RevealsOf(w, marketId), consensus))
  {
    ScanFinds(w, marketId);
  }

  /** What the scan gives FinalizeOutcome. */
  lemma ScanFinds(w: World, marketId: uint64)
    requires WellKeyed(w.revealed, RevealMarket, RevealVoter)
    ensures All(w.revealed, marketId) == if LongKeys(w.revealed, marketId) then Some(RevealsOf(w, marketId)) else None
    ensures RevealsOf(w, marketId) == [] <==> !HasReveal(w.revealed, marketId)
  {
    AllExact(w.revealed, RevealMarket, RevealVoter, marketId);
    NoneRevealed(w, marketId);
  }

  /** A finalization panics exactly when it gets as far as the scan and some reveal, of
      whatever market, is stored under a key shorter than this market's prefix. */
  lemma FinalizePanics(p: Primitives, w: World, now: int64, marketId: uint64, order: seq<string>)
    requires WorldOk(p, w, now)
    ensures FinalizeOutcome(w, marketId, order).1 == Refused(SliceOutOfRange)
       <==> && marketId !in w.outcomes && marketId in w.markets.byId
            && exists k :: k in w.revealed && 0 < |k| < |Prefix(marketId)|
  {
    AllExact(w.revealed, RevealMarket, RevealVoter, marketId);
    if !LongKeys(w.revealed, marketId) {
      var k :| k in w.revealed && k != "" && |k| < |Prefix(marketId)|;
      assert 0 < |k|;
    }
  }

  lemma NoneRevealed(w: World, marketId: uint64)
    requires WellKeyed(w.revealed, RevealMarket, RevealVoter)
    ensures RevealsOf(w, marketId) == [] <==> !HasReveal(w.revealed, marketId)
  {
    if HasReveal(w.revealed, marketId) {
      var k :| k in w.revealed && w.revealed[k].marketId == marketId;
      EntryExact(w.revealed, RevealMarket, marketId, w.revealed[k]);
      assert w.revealed[k] in w.revealed.Values;
    }
    if RevealsOf(w, marketId) != [] {
      EntryExact(w.revealed, RevealMarket, marketId, RevealsOf(w, marketId)[0]);
    }
  }

  lemma FinalizeStep(p: Primitives, w: World, now: int64, marketId: uint64, order: seq<string>)
    requires WorldOk(p, w, now)
    ensures WorldOk(p, FinalizeOutcome(w, marketId, order).0, now) && Grows(w, FinalizeOutcome(w, marketId, order).0)
  {
    FinalizeShape(p, w, now, marketId, order);
    var (w', answer) := FinalizeOutcome(w, marketId, order);
    if answer == Accepted {
      UpdateScoresOk(w.scores, RevealsOf(w, marketId), w.markets.byId[marketId].groupId, w'.outcomes[marketId]);
      SettleKeeps(p, w, now, marketId, w'.outcomes[marketId], w'.scores);
    }
  }

  lemma SettleKeeps(p: Primitives, w: World, now: int64, marketId: uint64, consensus: string, scores: Scores)
    requires WorldOk(p, w, now) && ScoresOk(scores)
    requires marketId in w.markets.byId && HasReveal(w.revealed, marketId) && marketId !in w.outcomes
    ensures var w' := w.(outcomes := w.outcomes[marketId := consensus], scores := scores);
      WorldOk(p, w', now) && Grows(w, w')
  {
  }

  lemma RescoreStep(p: Primitives, w: World, now: int64, address: string, groupId: string, adjustment: int64)
    requires WorldOk(p, w, now)
    ensures WorldOk(p, AdjustScore(w, address, groupId, adjustment).0, now)
    ensures Grows(w, AdjustScore(w, address, groupId, adjustment).0)
  {
    AdjustStep(w.scores, address, groupId, adjustment);
  }

  /** Every step, accepted or refused, keeps the invariant and every record already written. */
  lemma StepKeeps(p: Primitives, w: World, ctx: Ctx, action: Action)
    requires WorldOk(p, w, ctx.time) && w.markets.next < 0x1_0000_0000_0000_0000
    ensures var w' := Step(p, w, ctx, action).0;
      WorldOk(p, w', ctx.time) && Grows(w, w')
  {
    match action
    case Create(msg) => CreateStep(p, w, ctx, msg);
    case DoCommit(msg) => CommitStep(p, w, ctx.time, msg);
    case DoReveal(msg) => RevealStep(p, w, ctx.time, msg);
    case Finalize(marketId, order) => FinalizeStep(p, w, ctx.time, marketId, order);
    case Rescore(address, groupId, adjustment) => RescoreStep(p, w, ctx.time, address, groupId, adjustment);
  }

  /** The clock moving on keeps the invariant. */
  lemma TimePasses(p: Primitives, w: World, now: int64, later: int64)
    requires WorldOk(p, w, now) && now <= later
    ensures WorldOk(p, w, later)
  {
  }
}
