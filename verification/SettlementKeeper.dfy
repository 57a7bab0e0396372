/** The settlement keeper and its message handlers as they update the stores. A
    handler that panics ends with the stores as they were: the SDK discards the
    writes of an aborted transaction. */
module SettlementKeeper {
  import opened GoInt
  import opened Results
  import opened Messages
  import opened Decimal
  import opened Ordered
  import opened Scans
  import opened PredictionTypes
  import opened Tally
  import opened Settlement
  import opened SettlementRuns
  import opened GenesisStore
  import PredictionKeeper
  import ReputationKeeper

  /** GetAllReveals and GetAllCommits: the iteration with its test on the key's text;
      None when the slice of a key is out of range. */
  method Collect<V>(store: map<string, V>, marketId: nat) returns (r: Option<seq<V>>)
    ensures r == All(store, marketId)
  {
    var keys := StrKeys(store.Keys);
    var found: seq<V> := [];
    for i := 0 to |keys|
      invariant Scan(store, keys[..i], marketId) == Some(found)
    {
      ScanStep(store, keys, marketId, i, found);
      var key := keys[i];
      if |key| > 0 {
        if |key| < |Prefix(marketId)| {
          ScanFails(store, keys, marketId, i + 1);
          return None;
        }
        if key[..|Prefix(marketId)|] == Prefix(marketId) {
          found := found + [store[key]];
        }
      }
    }
    assert keys[..|keys|] == keys;
    r := Some(found);
  }

  lemma ScanStep<V>(store: map<string, V>, keys: seq<string>, marketId: nat, i: nat, found: seq<V>)
    requires forall k :: k in keys ==> k in store
    requires i < |keys| && Scan(store, keys[..i], marketId) == Some(found)
    ensures keys[i] in store
    ensures Scan(store, keys[..i + 1], marketId)
         == match Matches(keys[i], marketId)
            case None => None
            case Some(hit) => Some(if hit then found + [store[keys[i]]] else found)
  {
    assert keys[..i + 1][..i] == keys[..i];
    assert keys[i] in keys;
  }

  /** A panic halfway is a panic of the whole iteration. */
  lemma {:induction false} ScanFails<V>(store: map<string, V>, keys: seq<string>, marketId: nat, i: nat)
    requires forall k :: k in keys ==> k in store
    requires i <= |keys| && Scan(store, keys[..i], marketId) == None
    ensures Scan(store, keys, marketId) == None
  {
    if i == |keys| {
      assert keys[..i] == keys;
    } else {
      assert keys[..|keys| - 1][..i] == keys[..i];
      ScanFails(store, keys[..|keys| - 1], marketId, i);
    }
  }

  /** The loop over the table of weights. Go leaves the order of the iteration open: any
      key not yet visited may be next. */
  method HighestWeight(voteWeights: map<string, int64>) returns (consensus: string, ghost order: seq<string>)
    ensures Lists(order, voteWeights.Keys) && consensus == ArgMax(voteWeights, order).0
    ensures IsWinner(voteWeights, consensus)
  {
    consensus := "";
    var maxWeight: int64 := 0;
    var rest := voteWeights.Keys;
    order := [];
    while rest != {}
      invariant rest <= voteWeights.Keys && Lists(order, voteWeights.Keys - rest)
      invariant (consensus, maxWeight) == ArgMax(voteWeights, order)
      decreases |rest|
    {
      var outcome :| outcome in rest;
      rest := rest - {outcome};
      assert (order + [outcome])[..|order|] == order;
      order := order + [outcome];
      var weight := voteWeights[outcome];
      if weight > maxWeight {
        maxWeight := weight;
        consensus := outcome;
      }
    }
    ArgMaxIsWinner(voteWeights, order);
  }

  /** ValidateOutcome. */
  method ValidateOutcome(p: Primitives, outcomes: seq<string>, vote: string) returns (ok: bool)
    ensures ok == IsOutcome(p, outcomes, vote)
  {
    for i := 0 to |outcomes|
      invariant forall j :: 0 <= j < i ==> !p.equalFold(outcomes[j], vote)
    {
      if p.equalFold(outcomes[i], vote) { return true; }
    }
    ok := false;
  }

  function ToUint32(x: nat): nat {
    if x < 0x1_0000_0000 then x else x % 0x1_0000_0000
  }

  datatype SettlementStats = SettlementStats(
    marketId: uint64,
    totalCommits: nat,
    totalReveals: nat,
    revealRate: real,
    uniqueVoters: nat)

  class Keeper {
    const p: Primitives
    const prediction: PredictionKeeper.Keeper
    const reputation: ReputationKeeper.Keeper
    var commits: map<string, Commit>
    var revealed: map<string, Reveal>
    var outcomes: map<uint64, string>

    constructor (p: Primitives, prediction: PredictionKeeper.Keeper, reputation: ReputationKeeper.Keeper)
      ensures this.p == p && this.prediction == prediction && this.reputation == reputation
      ensures commits == map[] && revealed == map[] && outcomes == map[]
    {
      this.p, this.prediction, this.reputation := p, prediction, reputation;
      commits, revealed, outcomes := map[], map[], map[];
    }

    function State(): World
      reads this, prediction, reputation
    {
      World(prediction.State().markets, commits, revealed, outcomes, reputation.scores)
    }

    method SetCommit(commit: Commit)
      modifies this
      ensures commits == old(commits)[MarketVoterKey(commit.marketId, commit.voter) := commit]
      ensures revealed == old(revealed) && outcomes == old(outcomes)
    {
      commits := commits[MarketVoterKey(commit.marketId, commit.voter) := commit];
    }

    method SetReveal(entry: Reveal)
      modifies this
      ensures revealed == old(revealed)[MarketVoterKey(entry.marketId, entry.voter) := entry]
      ensures commits == old(commits) && outcomes == old(outcomes)
    {
      revealed := revealed[MarketVoterKey(entry.marketId, entry.voter) := entry];
    }

    method CommitVote(ctx: Ctx, msg: CommitMsg) returns (answer: Answer)
      modifies this
      ensures (State(), answer) == Settlement.CommitVote(old(State()), ctx.time, msg)
    {
      if msg.marketId !in prediction.markets { return Refused(MarketNotFound); }
      var market := prediction.markets[msg.marketId];
      var deadline := market.deadline;
      if deadline > 0 && ctx.time < deadline { return Refused(MarketNotReady); }
      if MarketVoterKey(msg.marketId, msg.creator) in commits { return Refused(AlreadyCommitted); }
      if |msg.commitment| != 64 { return Refused(InvalidRequest); }
      SetCommit(VoteCommit(msg.marketId, msg.creator, msg.commitment));
      answer := Accepted;
    }

    method RevealVote(msg: RevealMsg) returns (answer: Answer)
      modifies this
      ensures (State(), answer) == Settlement.RevealVote(p, old(State()), msg)
    {
      var key := MarketVoterKey(msg.marketId, msg.creator);
      if key !in commits { return Refused(NoCommitmentFound); }
      var commit := commits[key];
      var expectedCommitment := Commitment(p, msg.vote, msg.nonce);
      if commit.commitment != expectedCommitment { return Refused(CommitmentMismatch); }
      if key in revealed { return Refused(AlreadyRevealed); }
      if msg.marketId !in prediction.markets { return Refused(MarketNotFound); }
      var market := prediction.markets[msg.marketId];
      if |market.outcomes| > 0 {
        var ok := ValidateOutcome(p, market.outcomes, msg.vote);
        if !ok { return Refused(InvalidVote); }
      }
      if |msg.nonce| < 8 || |msg.nonce| > 64 { return Refused(InvalidNonce); }
      SetReveal(VoteReveal(msg.marketId, msg.creator, msg.vote, msg.nonce));
      answer := Accepted;
    }

    /** One voter's weight: the score as an int64, raised to 1. */
    method VoterWeight(groupId: string, voter: string) returns (weight: int64)
      ensures weight == WeightIn(reputation.scores, groupId)(voter) >= 1
    {
      var scoreStr, found := reputation.GetReputationScore(voter, groupId);
      weight := 1;
      if found {
        var score := ParseInt(scoreStr);
        if score.Some? {
          weight := score.value;
          if weight < 1 {
            weight := 1;
          }
        }
      }
    }

    method GetReputationWeightedVotes(marketId: uint64, groupId: string) returns (r: Option<map<string, int64>>)
      ensures match All(revealed, marketId)
        case None => r == None
        case Some(rs) => r == Some(VoteWeights(reputation.scores, rs, groupId))
    {
      var entries := Collect(revealed, marketId);
      if entries.None? { return None; }
      var rs := entries.value;
      var voteWeights: map<string, int64> := map[];
      for i := 0 to |rs|
        invariant voteWeights == VoteWeights(reputation.scores, rs[..i], groupId)
      {
        assert rs[..i + 1][..i] == rs[..i];
        var weight := VoterWeight(groupId, rs[i].voter);
        voteWeights := AddWeight(voteWeights, rs[i].vote, weight);
      }
      assert rs[..|rs|] == rs;
      r := Some(voteWeights);
    }

    method UpdateReputationScores(groupId: string, finalOutcome: string, rs: seq<Reveal>)
      modifies reputation
      ensures reputation.scores == UpdateScores(old(reputation.scores), rs, groupId, finalOutcome)
    {
      for i := 0 to |rs|
        invariant reputation.scores == UpdateScores(old(reputation.scores), rs[..i], groupId, finalOutcome)
      {
        assert rs[..i + 1][..i] == rs[..i];
        var adjustment: int64 := -1;
        if rs[i].vote == finalOutcome {
          adjustment := 1;
        }
        var ok := reputation.AdjustReputationScore(rs[i].voter, groupId, adjustment);
      }
      assert rs[..|rs|] == rs;
    }

    /** Some order of the table explains what was done. */
    method FinalizeOutcome(marketId: uint64) returns (answer: Answer, ghost order: seq<string>)
      modifies this, reputation
      ensures (State(), answer) == Settlement.FinalizeOutcome(old(State()), marketId, order)
      ensures answer == Accepted ==>
        match All(old(revealed), marketId)
        case None => false
        case Some(rs) =>
          var weights := VoteWeights(old(reputation.scores), rs, old(prediction.markets)[marketId].groupId);
          Lists(order, weights.Keys) && IsWinner(weights, outcomes[marketId])
    {
      order := [];
      if marketId in outcomes { return Refused(OutcomeAlreadyFinalized), []; }
      if marketId !in prediction.markets { return Refused(MarketNotFound), []; }
      var groupId := prediction.markets[marketId].groupId;
      var entries := Collect(revealed, marketId);
      if entries.None? { return Refused(SliceOutOfRange), []; }
      var rs := entries.value;
      if |rs| == 0 { return Refused(NoRevealsFound), []; }
      var voteWeights := GetReputationWeightedVotes(marketId, groupId);
      var consensus;
      consensus, order := HighestWeight(voteWeights.value);
      outcomes := outcomes[marketId := consensus];
      UpdateReputationScores(groupId, consensus, rs);
      answer := Accepted;
    }

    method GetVoteDistribution(marketId: uint64) returns (r: Option<map<string, nat>>)
      ensures match All(revealed, marketId)
        case None => r == None
        case Some(rs) => r.Some? && IsDistribution(r.value, rs)
    {
      var entries := Collect(revealed, marketId);
      if entries.None? { return None; }
      var rs := entries.value;
      var voteCounts: map<string, nat> := map[];
      for i := 0 to |rs|
        invariant IsDistribution(voteCounts, rs[..i])
      {
        assert rs[..i + 1][..i] == rs[..i];
        CountVote(voteCounts, rs[..i + 1]);
        var before := if rs[i].vote in voteCounts then voteCounts[rs[i].vote] else 0;
        voteCounts := voteCounts[rs[i].vote := ToUint32(before + 1)];
      }
      assert rs[..|rs|] == rs;
      r := Some(voteCounts);
    }

    method GetSettlementStats(marketId: uint64) returns (r: Option<SettlementStats>)
      ensures match (All(commits, marketId), All(revealed, marketId))
        case (Some(cs), Some(rs)) => r == Some(Stats(marketId, cs, rs))
        case _ => r == None
    {
      var cs := Collect(commits, marketId);
      if cs.None? { return None; }
      var rs := Collect(revealed, marketId);
      if rs.None? { return None; }
      var voterSet := CollectVoters(cs.value);
      var revealRate := 0.0;
      if |cs.value| != 0 {
        revealRate := |rs.value| as real / |cs.value| as real;
      }
      r := Some(SettlementStats(marketId, ToUint32(|cs.value|), ToUint32(|rs.value|), revealRate,
                                ToUint32(|voterSet|)));
    }

    method InitGenesis(g: GenesisState<string>)
      modifies this
      ensures Stores(commits, revealed, outcomes) == Import(old(Stores(commits, revealed, outcomes)), g)
    {
      for i := 0 to |g.commits|
        invariant commits == PutAll(old(commits), g.commits[..i], CommitMarket, CommitVoter)
        invariant revealed == old(revealed) && outcomes == old(outcomes)
      {
        assert g.commits[..i + 1][..i] == g.commits[..i];
        SetCommit(g.commits[i]);
      }
      assert g.commits[..|g.commits|] == g.commits;
      for i := 0 to |g.revealed|
        invariant revealed == PutAll(old(revealed), g.revealed[..i], RevealMarket, RevealVoter)
        invariant commits == PutAll(old(commits), g.commits, CommitMarket, CommitVoter) && outcomes == old(outcomes)
      {
        assert g.revealed[..i + 1][..i] == g.revealed[..i];
        SetReveal(g.revealed[i]);
      }
      assert g.revealed[..|g.revealed|] == g.revealed;
      for i := 0 to |g.outcomes|
        invariant outcomes == PutOutcomes(old(outcomes), g.outcomes[..i])
        invariant commits == PutAll(old(commits), g.commits, CommitMarket, CommitVoter)
        invariant revealed == PutAll(old(revealed), g.revealed, RevealMarket, RevealVoter)
      {
        assert g.outcomes[..i + 1][..i] == g.outcomes[..i];
        outcomes := outcomes[g.outcomes[i].marketId := g.outcomes[i].outcome];
      }
      assert g.outcomes[..|g.outcomes|] == g.outcomes;
    }

    /** The exported state restores these stores when loaded into empty ones. */
    method ExportGenesis() returns (g: GenesisState<string>)
      ensures g == Export(Stores(commits, revealed, outcomes))
      ensures WellKeyed(commits, CommitMarket, CommitVoter) && WellKeyed(revealed, RevealMarket, RevealVoter) ==>
        Import(Empty(), g) == Stores(commits, revealed, outcomes)
    {
      var cs := ListValues(commits);
      var rs := ListValues(revealed);
      var keys := MarketIds(outcomes.Keys);
      var os: seq<MarketOutcome<string>> := [];
      for i := 0 to |keys|
        invariant os == Pairs(outcomes, keys[..i])
      {
        assert keys[..i + 1][..i] == keys[..i];
        assert keys[i] in keys;
        os := os + [MarketOutcome(keys[i], outcomes[keys[i]])];
      }
      assert keys[..|keys|] == keys;
      g := GenesisState(Params, cs, rs, os);
      GenesisRoundTrips(Stores(commits, revealed, outcomes));
    }
  }

  /** The voters of the commits, as a set. */
  method CollectVoters(cs: seq<Commit>) returns (voterSet: set<string>)
    ensures voterSet == VotersOf(cs)
  {
    voterSet := {};
    for i := 0 to |cs|
      invariant voterSet == VotersOf(cs[..i])
    {
      assert cs[..i + 1] == cs[..i] + [cs[i]];
      voterSet := voterSet + {cs[i].voter};
    }
    assert cs[..|cs|] == cs;
  }

  method ListValues<V>(store: map<string, V>) returns (values: seq<V>)
    ensures values == Values(store, StrKeys(store.Keys))
  {
    var keys := StrKeys(store.Keys);
    values := [];
    for i := 0 to |keys|
      invariant values == Values(store, keys[..i])
    {
      assert keys[..i + 1][..i] == keys[..i];
      assert keys[i] in keys;
      values := values + [store[keys[i]]];
    }
    assert keys[..|keys|] == keys;
  }

  /** The number of reveals for an outcome. */
  function VoteCount(revealed: seq<Reveal>, vote: string): nat {
    if revealed == [] then 0
    else
      var n := |revealed| - 1;
      VoteCount(revealed[..n], vote) + if revealed[n].vote == vote then 1 else 0
  }

  /** The table has the revealed votes, each with its count on a uint32. */
  ghost predicate IsDistribution(counts: map<string, nat>, revealed: seq<Reveal>) {
    forall vote ::
      && (vote in counts <==> IsVote(revealed, vote))
      && (vote in counts ==> counts[vote] == ToUint32(VoteCount(revealed, vote)))
  }

  lemma CountVote(counts: map<string, nat>, revealed: seq<Reveal>)
    requires revealed != [] && IsDistribution(counts, revealed[..|revealed| - 1])
    ensures var vote := revealed[|revealed| - 1].vote;
      var before := if vote in counts then counts[vote] else 0;
      IsDistribution(counts[vote := ToUint32(before + 1)], revealed)
  {
    var front := revealed[..|revealed| - 1];
    var vote := revealed[|revealed| - 1].vote;
    NoVoteNoCount(front, vote);
    var before := if vote in counts then counts[vote] else 0;
    var after := counts[vote := ToUint32(before + 1)];
    assert after[vote] == ToUint32(VoteCount(front, vote) + 1);
    forall other ensures other in after <==> IsVote(revealed, other) {
      IsVoteStep(revealed, other);
      assert IsVote(front, other) <==> other in counts;
    }
    forall other | other in after && other != vote ensures after[other] == ToUint32(VoteCount(revealed, other)) {
      assert other in counts;
    }
  }

  lemma {:induction false} NoVoteNoCount(revealed: seq<Reveal>, vote: string)
    ensures VoteCount(revealed, vote) == 0 <==> !IsVote(revealed, vote)
  {
    if revealed != [] {
      NoVoteNoCount(revealed[..|revealed| - 1], vote);
      IsVoteStep(revealed, vote);
    }
  }

  /** The reveals of a vote, by position. */
  ghost function PlacesOf(revealed: seq<Reveal>, vote: string): set<nat> {
    set i | 0 <= i < |revealed| && revealed[i].vote == vote
  }

  lemma {:induction false} VoteCountExact(revealed: seq<Reveal>, vote: string)
    ensures VoteCount(revealed, vote) == |PlacesOf(revealed, vote)|
  {
    if revealed != [] {
      var n := |revealed| - 1;
      VoteCountExact(revealed[..n], vote);
      var before := PlacesOf(revealed[..n], vote);
      assert PlacesOf(revealed, vote) == if revealed[n].vote == vote then before + {n} else before;
      assert n !in before;
    }
  }

  /** What GetSettlementStats makes of a market's commits and reveals. */
  ghost function Stats(marketId: uint64, cs: seq<Commit>, rs: seq<Reveal>): SettlementStats {
    SettlementStats(marketId, ToUint32(|cs|), ToUint32(|rs|), Rate(|rs|, |cs|), ToUint32(|VotersOf(cs)|))
  }

  function Rate(part: nat, whole: nat): real {
    if whole == 0 then 0.0 else part as real / whole as real
  }

  /** The figures are the true counts, every commit is another voter's, and the rate is
      the revealed share, between 0 and 1. */
  ghost predicate Figures(s: SettlementStats, commits: seq<Commit>, revealed: seq<Reveal>) {
    && s.totalCommits == s.uniqueVoters == |commits|
    && s.totalReveals == |revealed| <= |commits|
    && s.revealRate * |commits| as real == |revealed| as real
    && 0.0 <= s.revealRate <= 1.0 && (commits == [] ==> s.revealRate == 0.0)
  }

  /** In a reachable state below 2^32 records the statistics are right. */
  lemma StatsExact(p: Primitives, w: World, now: int64, marketId: uint64)
    requires WorldOk(p, w, now) && |CommitsOf(w, marketId)| < 0x1_0000_0000
    ensures Figures(Stats(marketId, CommitsOf(w, marketId), RevealsOf(w, marketId)),
                    CommitsOf(w, marketId), RevealsOf(w, marketId))
  {
    RevealsWithinCommits(p, w, now, marketId);
    StatsOfCounts(marketId, CommitsOf(w, marketId), RevealsOf(w, marketId));
  }

  lemma StatsOfCounts(marketId: uint64, commits: seq<Commit>, revealed: seq<Reveal>)
    requires |revealed| <= |commits| == |VotersOf(commits)| < 0x1_0000_0000
    ensures Figures(Stats(marketId, commits, revealed), commits, revealed)
  {
    RateExact(|revealed|, |commits|);
  }

  lemma RateExact(part: nat, whole: nat)
    requires part <= whole
    ensures Rate(part, whole) * whole as real == part as real && 0.0 <= Rate(part, whole) <= 1.0
  {
  }
}
