/** A run whose tally overflows: two voters raised to the greatest score agree, and the
    market is finalized without an outcome. */
module OverflowRun {
  import opened GoInt
  import opened Results
  import opened Messages
  import opened Decimal
  import opened Scans
  import opened PredictionTypes
  import opened Markets
  import opened Reputation
  import opened Tally
  import opened Settlement
  import opened SettlementRuns

  const TOP: int64 := 0x7fff_ffff_ffff_ffff

  // ---------- In any reachable state ----------

  /** Exactly two keys of the market are revealed. */
  ghost predicate OnlyTwo(w: World, marketId: uint64, a: string, b: string) {
    && a != b && KeysOf(w.revealed, w.revealed.Keys, RevealMarket, marketId) == {a, b}
  }

  lemma TwoReveals(w: World, marketId: uint64, a: string, b: string)
    requires OnlyTwo(w, marketId, a, b)
    ensures |RevealsOf(w, marketId)| == 2
    ensures forall i :: 0 <= i < 2 ==>
      RevealsOf(w, marketId)[i] == w.revealed[a] || RevealsOf(w, marketId)[i] == w.revealed[b]
  {
    EntriesCount(w.revealed, RevealMarket, marketId);
    var rs := RevealsOf(w, marketId);
    forall i | 0 <= i < |rs| ensures rs[i] == w.revealed[a] || rs[i] == w.revealed[b] {
      EntryExact(w.revealed, RevealMarket, marketId, rs[i]);
      var k :| k in w.revealed && w.revealed[k] == rs[i];
      assert k in KeysOf(w.revealed, w.revealed.Keys, RevealMarket, marketId);
    }
  }

  lemma TopWeight(scores: Scores, groupId: string, voter: string)
    requires ScoreAt(scores, ScoreKey(voter, groupId)) == TOP
    ensures WeightIn(scores, groupId)(voter) == TOP
  {
  }

  /** Two revealers of the greatest score who agree: the finalization is accepted, in any
      order of the table, and what it stores is no outcome at all. */
  lemma AgreementLost(p: Primitives, w: World, now: int64, marketId: uint64, order: seq<string>, a: string, b: string)
    requires WorldOk(p, w, now) && marketId in w.markets.byId && marketId !in w.outcomes
    requires LongKeys(w.revealed, marketId) && OnlyTwo(w, marketId, a, b)
    requires w.revealed[a].vote == w.revealed[b].vote
    requires var groupId := w.markets.byId[marketId].groupId;
      && ScoreAt(w.scores, ScoreKey(w.revealed[a].voter, groupId)) == TOP
      && ScoreAt(w.scores, ScoreKey(w.revealed[b].voter, groupId)) == TOP
    ensures var (w', answer) := FinalizeOutcome(w, marketId, order);
      answer == Accepted && w'.outcomes == w.outcomes[marketId := ""]
  {
    EmptyChoice(w, marketId, w.markets.byId[marketId].groupId, order, a, b);
    HasTwo(w, marketId, a, b);
    FinalizeShape(p, w, now, marketId, order);
  }

  lemma EmptyChoice(w: World, marketId: uint64, groupId: string, order: seq<string>, a: string, b: string)
    requires OnlyTwo(w, marketId, a, b) && w.revealed[a].vote == w.revealed[b].vote
    requires ScoreAt(w.scores, ScoreKey(w.revealed[a].voter, groupId)) == TOP
    requires ScoreAt(w.scores, ScoreKey(w.revealed[b].voter, groupId)) == TOP
    ensures ArgMax(VoteWeights(w.scores, RevealsOf(w, marketId), groupId), order).0 == ""
  {
    TwoReveals(w, marketId, a, b);
    TopWeight(w.scores, groupId, w.revealed[a].voter);
    TopWeight(w.scores, groupId, w.revealed[b].voter);
    TwoAgree(RevealsOf(w, marketId), WeightIn(w.scores, groupId), order, w.revealed[a].vote);
  }

  lemma TwoAgree(rs: seq<Reveal>, weightOf: string -> int64, order: seq<string>, vote: string)
    requires |rs| == 2 && forall i :: 0 <= i < 2 ==> rs[i].vote == vote && weightOf(rs[i].voter) == TOP
    ensures ArgMax(Weights(rs, weightOf), order).0 == ""
  {
    assert rs == [rs[0], rs[1]];
    OverflowLosesTheVote(rs[0], rs[1], weightOf, order);
  }

  lemma HasTwo(w: World, marketId: uint64, a: string, b: string)
    requires OnlyTwo(w, marketId, a, b)
    ensures HasReveal(w.revealed, marketId)
  {
    assert a in KeysOf(w.revealed, w.revealed.Keys, RevealMarket, marketId);
  }

  // ---------- In a run ----------

  const VOTE := "yes"
  const NONCE := "12345678"

  /** One market of two outcomes, which closes at time 2. */
  const MARKET: CreateMsg := CreateMsg("c", "q", [VOTE, "no"], "g", 2)

  function At(time: int64, action: Action): Event {
    SettlementRuns.Event(Ctx(time, 1), action)
  }

  function Opening(): seq<Event> {
    [At(1, Create(MARKET))]
  }

  /** The authority raises a and b to the greatest score. */
  function Raised(): seq<Event> {
    Opening() + [At(1, Rescore("a", "g", TOP)), At(1, Rescore("b", "g", TOP))]
  }

  function Committing(p: Primitives, voter: string): Event {
    At(2, DoCommit(CommitMsg(voter, 0, Commitment(p, VOTE, NONCE))))
  }

  function Revealing(voter: string): Event {
    At(2, DoReveal(RevealMsg(voter, 0, VOTE, NONCE)))
  }

  /** Both commit and reveal the same vote. */
  function Agreed(p: Primitives): seq<Event> {
    Raised() + [Committing(p, "a"), Committing(p, "b")] + [Revealing("a"), Revealing("b")]
  }

  function Table(): MarketTable {
    MarketTable(map[0 := NewMarket(Ctx(1, 1), 0, MARKET)], 1)
  }

  lemma RunOne(p: Primitives, events: seq<Event>, e: Event)
    ensures Run(p, events + [e]) == Step(p, Run(p, events), e.ctx, e.action).0
  {
    assert (events + [e])[..|events|] == events;
  }

  lemma RunTwo(p: Primitives, events: seq<Event>, d: Event, e: Event)
    ensures var w := Step(p, Run(p, events), d.ctx, d.action).0;
      Run(p, events + [d, e]) == Step(p, w, e.ctx, e.action).0
  {
    RunOne(p, events, d);
    RunOne(p, events + [d], e);
    assert events + [d, e] == events + [d] + [e];
  }

  lemma AfterOpening(p: Primitives)
    ensures Run(p, Opening()) == World(Table(), map[], map[], map[], map[])
  {
    RunOne(p, [], At(1, Create(MARKET)));
    assert [] + [At(1, Create(MARKET))] == Opening();
    assert DistinctNonEmpty(MARKET.outcomes);
  }

  lemma TopScores() returns (first: Scores, second: Scores)
    ensures Adjust(map[], "a", "g", TOP) == Some(first) && Adjust(first, "b", "g", TOP) == Some(second)
    ensures ScoreAt(second, ScoreKey("a", "g")) == ScoreAt(second, ScoreKey("b", "g")) == TOP
  {
    AdjustStep(map[], "a", "g", TOP);
    first := Adjust(map[], "a", "g", TOP).value;
    assert ScoreAt(first, ScoreKey("a", "g")) == TOP;
    ScoreKeyInjective("a", "g", "b", "g");
    assert ScoreAt(first, ScoreKey("b", "g")) == 0;
    AdjustStep(first, "b", "g", TOP);
    second := Adjust(first, "b", "g", TOP).value;
  }

  lemma AfterRaise(p: Primitives) returns (scores: Scores)
    ensures Run(p, Raised()) == World(Table(), map[], map[], map[], scores)
    ensures ScoreAt(scores, ScoreKey("a", "g")) == ScoreAt(scores, ScoreKey("b", "g")) == TOP
  {
    var first;
    first, scores := TopScores();
    AfterOpening(p);
    Rescored(p, Opening(), Run(p, Opening()), first, scores);
  }

  lemma Rescored(p: Primitives, events: seq<Event>, w: World, first: Scores, second: Scores)
    requires Run(p, events) == w
    requires Adjust(w.scores, "a", "g", TOP) == Some(first) && Adjust(first, "b", "g", TOP) == Some(second)
    ensures Run(p, events + [At(1, Rescore("a", "g", TOP)), At(1, Rescore("b", "g", TOP))]) == w.(scores := second)
  {
    RescoredOne(p, events, w, "a", first);
    RescoredOne(p, events + [At(1, Rescore("a", "g", TOP))], w.(scores := first), "b", second);
    assert events + [At(1, Rescore("a", "g", TOP)), At(1, Rescore("b", "g", TOP))]
        == events + [At(1, Rescore("a", "g", TOP))] + [At(1, Rescore("b", "g", TOP))];
  }

  lemma RescoredOne(p: Primitives, events: seq<Event>, w: World, voter: string, scores: Scores)
    requires Run(p, events) == w && Adjust(w.scores, voter, "g", TOP) == Some(scores)
    ensures Run(p, events + [At(1, Rescore(voter, "g", TOP))]) == w.(scores := scores)
  {
    RunOne(p, events, At(1, Rescore(voter, "g", TOP)));
    Rescores(w, voter, scores);
  }

  lemma Rescores(w: World, voter: string, scores: Scores)
    requires Adjust(w.scores, voter, "g", TOP) == Some(scores)
    ensures AdjustScore(w, voter, "g", TOP).0 == w.(scores := scores)
  {
  }

  function CommitOf(p: Primitives, voter: string): Commit {
    VoteCommit(0, voter, Commitment(p, VOTE, NONCE))
  }

  function RevealOf(voter: string): Reveal {
    VoteReveal(0, voter, VOTE, NONCE)
  }

  function Key(voter: string): string {
    MarketVoterKey(0, voter)
  }

  lemma TwoKeys()
    ensures Key("a") != Key("b")
  {
    KeyInjective(0, "a", 0, "b");
  }

  lemma OneCommit(p: Primitives, w: World, voter: string)
    requires w.markets == Table() && |Commitment(p, VOTE, NONCE)| == 64 && Key(voter) !in w.commits
    ensures Step(p, w, Ctx(2, 1), Committing(p, voter).action).0
         == w.(commits := w.commits[Key(voter) := CommitOf(p, voter)])
  {
    CommitShape(w, 2, CommitMsg(voter, 0, Commitment(p, VOTE, NONCE)));
  }

  lemma OneReveal(p: Primitives, w: World, voter: string)
    requires w.markets == Table() && p.equalFold(VOTE, VOTE)
    requires Key(voter) !in w.revealed && Key(voter) in w.commits && w.commits[Key(voter)] == CommitOf(p, voter)
    ensures Step(p, w, Ctx(2, 1), Revealing(voter).action).0
         == w.(revealed := w.revealed[Key(voter) := RevealOf(voter)])
  {
    assert p.equalFold(Table().byId[0].outcomes[0], VOTE);
    RevealShape(p, w, RevealMsg(voter, 0, VOTE, NONCE));
  }

  lemma AfterCommits(p: Primitives, events: seq<Event>, w: World)
    requires Run(p, events) == w && w.markets == Table() && w.commits == map[]
    requires |Commitment(p, VOTE, NONCE)| == 64
    ensures Run(p, events + [Committing(p, "a"), Committing(p, "b")])
         == w.(commits := map[Key("a") := CommitOf(p, "a"), Key("b") := CommitOf(p, "b")])
  {
    TwoKeys();
    OneCommit(p, w, "a");
    OneCommit(p, w.(commits := map[Key("a") := CommitOf(p, "a")]), "b");
    RunTwo(p, events, Committing(p, "a"), Committing(p, "b"));
  }

  lemma AfterReveals(p: Primitives, events: seq<Event>, w: World)
    requires Run(p, events) == w && w.markets == Table() && w.revealed == map[] && p.equalFold(VOTE, VOTE)
    requires w.commits == map[Key("a") := CommitOf(p, "a"), Key("b") := CommitOf(p, "b")]
    ensures Run(p, events + [Revealing("a"), Revealing("b")])
         == w.(revealed := map[Key("a") := RevealOf("a"), Key("b") := RevealOf("b")])
  {
    TwoKeys();
    OneReveal(p, w, "a");
    OneReveal(p, w.(revealed := map[Key("a") := RevealOf("a")]), "b");
    RunTwo(p, events, Revealing("a"), Revealing("b"));
  }

  lemma AgreedClocked(p: Primitives)
    ensures Clocked(Agreed(p)) && Now(Agreed(p)) == 2
  {
  }

  lemma AfterAgreed(p: Primitives) returns (w: World)
    requires |Commitment(p, VOTE, NONCE)| == 64 && p.equalFold(VOTE, VOTE)
    ensures w == Run(p, Agreed(p)) && WorldOk(p, w, 2) && w.markets == Table() && w.outcomes == map[]
    ensures w.revealed == map[Key("a") := RevealOf("a"), Key("b") := RevealOf("b")]
    ensures ScoreAt(w.scores, ScoreKey("a", "g")) == ScoreAt(w.scores, ScoreKey("b", "g")) == TOP
  {
    var scores := AfterRaise(p);
    AfterCommits(p, Raised(), Run(p, Raised()));
    var events := Raised() + [Committing(p, "a"), Committing(p, "b")];
    AfterReveals(p, events, Run(p, events));
    w := Run(p, Agreed(p));
    AgreedClocked(p);
    RunKeeps(p, Agreed(p));
  }

  /** The finalization that ends this run stores the empty outcome, though every reveal is
      for the same outcome of the market. */
  lemma OverflowReached(p: Primitives, order: seq<string>)
    requires |Commitment(p, VOTE, NONCE)| == 64 && p.equalFold(VOTE, VOTE)
    ensures Clocked(Agreed(p)) && Now(Agreed(p)) == 2
    ensures forall r :: r in RevealsOf(Run(p, Agreed(p)), 0) ==> r.vote == VOTE
    ensures Run(p, Agreed(p) + [At(2, Finalize(0, order))]).outcomes == map[0 := ""]
  {
    AgreedClocked(p);
    var w := AfterAgreed(p);
    AllAgree(w);
    LastStep(p, w, order);
    Finalized(p, Agreed(p), w, order);
  }

  lemma AllAgree(w: World)
    requires w.revealed == map[Key("a") := RevealOf("a"), Key("b") := RevealOf("b")]
    ensures forall r :: r in RevealsOf(w, 0) ==> r.vote == VOTE
  {
    BothReveal(w);
    TwoReveals(w, 0, Key("a"), Key("b"));
  }

  lemma Finalized(p: Primitives, events: seq<Event>, w: World, order: seq<string>)
    requires Run(p, events) == w && FinalizeOutcome(w, 0, order).0.outcomes == map[0 := ""]
    ensures Run(p, events + [At(2, Finalize(0, order))]).outcomes == map[0 := ""]
  {
    RunOne(p, events, At(2, Finalize(0, order)));
  }

  lemma BothReveal(w: World)
    requires w.revealed == map[Key("a") := RevealOf("a"), Key("b") := RevealOf("b")]
    ensures OnlyTwo(w, 0, Key("a"), Key("b"))
  {
    TwoKeys();
    assert KeysOf(w.revealed, w.revealed.Keys, RevealMarket, 0) == {Key("a"), Key("b")};
  }

  lemma LastStep(p: Primitives, w: World, order: seq<string>)
    requires WorldOk(p, w, 2) && w.markets == Table() && w.outcomes == map[]
    requires w.revealed == map[Key("a") := RevealOf("a"), Key("b") := RevealOf("b")]
    requires ScoreAt(w.scores, ScoreKey("a", "g")) == ScoreAt(w.scores, ScoreKey("b", "g")) == TOP
    ensures FinalizeOutcome(w, 0, order).0.outcomes == map[0 := ""]
  {
    BothReveal(w);
    AgreementLost(p, w, 2, 0, order, Key("a"), Key("b"));
  }
}
