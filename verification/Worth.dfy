/** Reputation in numbers: what a score is worth in a tally, and what a finalization makes of it. */
module Worth {
  import opened GoInt
  import opened Results
  import opened Decimal
  import opened Reputation
  import opened Tally
  import opened Settlement
  import opened SettlementRuns
  import opened ScoreRuns
  import opened Consensus

  // ---------- A voter's weight ----------

  /** A score counts as at least one. */
  function AtLeast1(score: int): int {
    if score < 1 then 1 else score
  }

  /** A voter weighs their score in the group, but at least 1; and 1 without a score, or with a
      stored text that is no number. */
  lemma WeightIsScore(scores: Scores, groupId: string, voter: string)
    ensures WeightIn(scores, groupId)(voter) == AtLeast1(ScoreAt(scores, voter + ":" + groupId))
    ensures var key := voter + ":" + groupId;
      ScoreAt(scores, key) == if key in scores && ParseInt(scores[key].score).Some?
                              then ParseInt(scores[key].score).value
                              else 0
  {
  }

  /** The scores behind the reveals of one vote, each at least 1. */
  function ScoresFor(scores: Scores, groupId: string, revealed: seq<Reveal>, vote: string): int {
    if revealed == [] then 0
    else
      var rest := ScoresFor(scores, groupId, revealed[1..], vote);
      if revealed[0].vote != vote then rest
      else AtLeast1(ScoreAt(scores, revealed[0].voter + ":" + groupId)) + rest
  }

  /** The scores behind all the reveals, each at least 1. */
  function ScoresOfAll(scores: Scores, groupId: string, revealed: seq<Reveal>): int {
    if revealed == [] then 0
    else AtLeast1(ScoreAt(scores, revealed[0].voter + ":" + groupId)) + ScoresOfAll(scores, groupId, revealed[1..])
  }

  lemma {:induction false} ScoresForLast(scores: Scores, groupId: string, revealed: seq<Reveal>, vote: string)
    requires revealed != []
    ensures var n := |revealed| - 1;
      var last := AtLeast1(ScoreAt(scores, revealed[n].voter + ":" + groupId));
      && ScoresOfAll(scores, groupId, revealed) == ScoresOfAll(scores, groupId, revealed[..n]) + last
      && ScoresFor(scores, groupId, revealed, vote)
         == ScoresFor(scores, groupId, revealed[..n], vote) + if revealed[n].vote == vote then last else 0
  {
    var n := |revealed| - 1;
    if n > 0 {
      assert revealed[1..][..n - 1] == revealed[..n][1..];
      ScoresForLast(scores, groupId, revealed[1..], vote);
    }
  }

  /** The exact sums of the tally are sums of scores. */
  lemma {:induction false} SumsOfScores(scores: Scores, groupId: string, revealed: seq<Reveal>, vote: string)
    ensures VoteSum(revealed, WeightIn(scores, groupId), vote) == ScoresFor(scores, groupId, revealed, vote)
    ensures TotalWeight(revealed, WeightIn(scores, groupId)) == ScoresOfAll(scores, groupId, revealed)
  {
    if revealed != [] {
      var n := |revealed| - 1;
      SumsOfScores(scores, groupId, revealed[..n], vote);
      ScoresForLast(scores, groupId, revealed, vote);
      WeightIsScore(scores, groupId, revealed[n].voter);
    }
  }

  /** The table that FinalizeOutcome counts: every revealed vote, with the scores behind it. */
  lemma TableOfScores(w: World, marketId: uint64, groupId: string, vote: string)
    ensures var (rs, t) := (RevealsOf(w, marketId), VoteWeights(w.scores, RevealsOf(w, marketId), groupId));
      && (vote in t <==> exists i :: 0 <= i < |rs| && rs[i].vote == vote)
      && (vote in t ==> t[vote] == ToInt64(ScoresFor(w.scores, groupId, rs, vote)))
  {
    var rs := RevealsOf(w, marketId);
    WeightsExact(rs, WeightIn(w.scores, groupId), vote);
    SumsOfScores(w.scores, groupId, rs, vote);
    assert IsVote(rs, vote) <==> exists i :: 0 <= i < |rs| && rs[i].vote == vote;
  }

  /** In any run, as long as no vote's scores reach 2^63: the vote that a finalization stores
      was revealed, and no other has more score behind it. */
  lemma MostScoreWins(p: Primitives, events: seq<Event>, marketId: uint64, order: seq<string>, other: string)
    requires Clocked(events) && FinalizeOutcome(Run(p, events), marketId, order).1 == Accepted
    requires var w := Run(p, events);
      && marketId in w.markets.byId
      && Lists(order, VoteWeights(w.scores, RevealsOf(w, marketId), w.markets.byId[marketId].groupId).Keys)
      && forall v :: ScoresFor(w.scores, w.markets.byId[marketId].groupId, RevealsOf(w, marketId), v)
                     < 0x8000_0000_0000_0000
    ensures var w := Run(p, events);
      var (g, rs) := (w.markets.byId[marketId].groupId, RevealsOf(w, marketId));
      var consensus := FinalizeOutcome(w, marketId, order).0.outcomes[marketId];
      && (exists i :: 0 <= i < |rs| && rs[i].vote == consensus)
      && ScoresFor(w.scores, g, rs, other) <= ScoresFor(w.scores, g, rs, consensus)
  {
    var w := Run(p, events);
    var (g, rs) := (w.markets.byId[marketId].groupId, RevealsOf(w, marketId));
    forall v ensures VoteSum(rs, WeightIn(w.scores, g), v) < 0x8000_0000_0000_0000 {
      SumsOfScores(w.scores, g, rs, v);
    }
    ConsensusPrevails(p, events, marketId, order);
    var consensus := FinalizeOutcome(w, marketId, order).0.outcomes[marketId];
    SumsOfScores(w.scores, g, rs, other);
    SumsOfScores(w.scores, g, rs, consensus);
    assert IsVote(rs, consensus);
  }

  // ---------- One adjustment ----------

  /** Whatever is stored: an adjustment fails exactly when there is a text under the key that is
      no number, and else replaces the record by the new score, at least zero and on an int64;
      a missing record counts as zero. */
  lemma AdjustAlways(scores: Scores, address: string, groupId: string, adjustment: int64)
    ensures var (key, r) := (address + ":" + groupId, Adjust(scores, address, groupId, adjustment));
      && (r.None? <==> key in scores && ParseInt(scores[key].score).None?)
      && (r.Some? ==>
          && r.value.Keys == scores.Keys + {key}
          && (forall k :: k in scores && k != key ==> r.value[k] == scores[k])
          && var sum := ScoreAt(scores, key) as int + adjustment as int;
            var wrapped := if sum > 0x7fff_ffff_ffff_ffff then sum - 0x1_0000_0000_0000_0000
                           else if sum < -0x8000_0000_0000_0000 then sum + 0x1_0000_0000_0000_0000
                           else sum;
            r.value[key] == ReputationScore(address, FormatInt(if wrapped < 0 then 0 else wrapped), groupId))
  {
    WrapOnce(ScoreAt(scores, address + ":" + groupId) as int + adjustment as int);
  }

  /** A sum of two int64s wraps around at most once. */
  lemma WrapOnce(sum: int)
    requires -0x1_0000_0000_0000_0000 <= sum < 0x1_0000_0000_0000_0000
    ensures ToInt64(sum) == if sum > 0x7fff_ffff_ffff_ffff then sum - 0x1_0000_0000_0000_0000
                            else if sum < -0x8000_0000_0000_0000 then sum + 0x1_0000_0000_0000_0000
                            else sum
  {
  }

  // ---------- The stored effect of a finalization ----------

  /** A score after adjustments on an int64 that never goes below zero. */
  function Rescored(start: int, adjustments: seq<int>): int {
    if adjustments == [] then start
    else
      var n := |adjustments| - 1;
      Clamp(ToInt64(Rescored(start, adjustments[..n]) + adjustments[n]))
  }

  lemma RescoredLast(start: int, adjustments: seq<int>, x: int)
    ensures Rescored(start, adjustments + [x]) == Clamp(ToInt64(Rescored(start, adjustments) + x))
  {
    assert (adjustments + [x])[..|adjustments|] == adjustments;
  }

  /** What one adjustment leaves under a key, be it the one adjusted or another. */
  lemma OneAdjusted(scores: Scores, address: string, groupId: string, adjustment: int64, key: string)
    returns (after: Scores)
    requires ScoresOk(scores)
    ensures Adjust(scores, address, groupId, adjustment) == Some(after)
    ensures ScoreAt(after, key)
         == if ScoreKey(address, groupId) == key then Clamp(ToInt64(ScoreAt(scores, key) as int + adjustment as int))
            else ScoreAt(scores, key)
  {
    AdjustExact(scores, address, groupId, adjustment);
    after := Adjust(scores, address, groupId, adjustment).value;
  }

  /** The last reveal's step, if it is one on this key. */
  lemma LastVerdict(start: int, revealed: seq<Reveal>, groupId: string, outcome: string, key: string)
    requires revealed != []
    ensures var last := revealed[|revealed| - 1];
      var before := Rescored(start, Verdicts(revealed[..|revealed| - 1], groupId, outcome, key));
      Rescored(start, Verdicts(revealed, groupId, outcome, key))
      == if ScoreKey(last.voter, groupId) == key then Clamp(ToInt64(before + Verdict(last.vote, outcome))) else before
  {
    var n := |revealed| - 1;
    RescoredLast(start, Verdicts(revealed[..n], groupId, outcome, key), Verdict(revealed[n].vote, outcome));
  }

  lemma LastUpdate(scores: Scores, revealed: seq<Reveal>, groupId: string, outcome: string, after: Scores)
    requires revealed != []
    requires var last := revealed[|revealed| - 1];
      Adjust(UpdateScores(scores, revealed[..|revealed| - 1], groupId, outcome), last.voter, groupId,
             Verdict(last.vote, outcome)) == Some(after)
    ensures UpdateScores(scores, revealed, groupId, outcome) == after
  {
  }

  lemma {:induction false} UpdateRescores(scores: Scores, revealed: seq<Reveal>, groupId: string, outcome: string,
        key: string)
    requires ScoresOk(scores)
    ensures ScoreAt(UpdateScores(scores, revealed, groupId, outcome), key)
         == Rescored(ScoreAt(scores, key), Verdicts(revealed, groupId, outcome, key))
  {
    if revealed != [] {
      var n := |revealed| - 1;
      var before := UpdateScores(scores, revealed[..n], groupId, outcome);
      UpdateScoresOk(scores, revealed[..n], groupId, outcome);
      UpdateRescores(scores, revealed[..n], groupId, outcome, key);
      var after := OneAdjusted(before, revealed[n].voter, groupId, Verdict(revealed[n].vote, outcome), key);
      LastUpdate(scores, revealed, groupId, outcome, after);
      LastVerdict(ScoreAt(scores, key), revealed, groupId, outcome, key);
    }
  }

  /** What a finalization makes of the score s of somebody who revealed vote. */
  function Settled(s: int, vote: string, consensus: string): int {
    if vote != consensus then (if s == 0 then 0 else s - 1)
    else if s == 0x7fff_ffff_ffff_ffff then 0  // one more wraps around, and counts as negative
    else s + 1
  }

  /** The stored scores after a finalization in any run: who revealed the consensus gains one,
      who revealed anything else loses one but not below zero, in the market's group; every
      other score is as it was. */
  lemma FinalizationPays(p: Primitives, events: seq<Event>, marketId: uint64, order: seq<string>, voter: string,
        group: string)
    requires Clocked(events) && CommittersAre(events, IsPlain()) && NoColon(voter)
    requires FinalizeOutcome(Run(p, events), marketId, order).1 == Accepted
    ensures marketId in Run(p, events).markets.byId
    ensures marketId in FinalizeOutcome(Run(p, events), marketId, order).0.outcomes
    ensures var (w, w') := (Run(p, events), FinalizeOutcome(Run(p, events), marketId, order).0);
      var (key, scoreKey) := (MarketVoterKey(marketId, voter), ScoreKey(voter, group));
      ScoreAt(w'.scores, scoreKey)
      == if key in w.revealed && group == w.markets.byId[marketId].groupId
         then Settled(ScoreAt(w.scores, scoreKey), w.revealed[key].vote, w'.outcomes[marketId])
         else ScoreAt(w.scores, scoreKey)
  {
    var w := Run(p, events);
    RunKeeps(p, events);
    FinalizeShape(p, w, Now(events), marketId, order);
    var w' := FinalizeOutcome(w, marketId, order).0;
    FinalizationScores(p, events, marketId, order, voter, group);
    FinalizeAdjusts(w, marketId, order, ScoreKey(voter, group));
    UpdateRescores(w.scores, RevealsOf(w, marketId), w.markets.byId[marketId].groupId, w'.outcomes[marketId],
                   ScoreKey(voter, group));
    ScoreInRange(w.scores, ScoreKey(voter, group));
    var key := MarketVoterKey(marketId, voter);
    if key in w.revealed {
      OneRescore(ScoreAt(w.scores, ScoreKey(voter, group)), w.revealed[key].vote, w'.outcomes[marketId]);
    }
  }

  lemma ScoreInRange(scores: Scores, key: string)
    requires ScoresOk(scores)
    ensures 0 <= ScoreAt(scores, key) <= 0x7fff_ffff_ffff_ffff
  {
  }

  lemma OneRescore(s: int, vote: string, consensus: string)
    requires 0 <= s <= 0x7fff_ffff_ffff_ffff
    ensures Rescored(s, [if vote == consensus then 1 else -1]) == Settled(s, vote, consensus)
  {
    assert [1][..0] == [-1][..0] == [];
  }
}
