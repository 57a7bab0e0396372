/** Votes count by their spelling, though they are accepted up to case. */
module Spelling {
  import opened GoInt
  import opened Settlement
  import opened SettlementRuns
  import opened Tally
  import opened Consensus

  /** What is revealed for an outcome, in any of its spellings. */
  function FoldSum(p: Primitives, revealed: seq<Reveal>, weightOf: string -> int64, outcome: string): int {
    if revealed == [] then 0
    else
      var n := |revealed| - 1;
      FoldSum(p, revealed[..n], weightOf, outcome) + FoldOne(p, revealed[n], weightOf, outcome)
  }

  /** What one reveal adds to that. */
  function FoldOne(p: Primitives, r: Reveal, weightOf: string -> int64, outcome: string): int {
    if p.equalFold(outcome, r.vote) then weightOf(r.voter) else 0
  }

  /** The reveals for this outcome are all spelled alike. */
  ghost predicate OneSpelling(p: Primitives, revealed: seq<Reveal>, outcome: string) {
    forall i, j :: 0 <= i < |revealed| && 0 <= j < |revealed|
      && p.equalFold(outcome, revealed[i].vote) && p.equalFold(outcome, revealed[j].vote)
      ==> revealed[i].vote == revealed[j].vote
  }

  /** An outcome weighs what its one spelling weighs; vote is that spelling, if there is any. */
  lemma {:induction false} OneSpellingSum(p: Primitives, revealed: seq<Reveal>, weightOf: string -> int64,
        outcome: string, vote: string)
    requires forall i :: 0 <= i < |revealed| ==> (p.equalFold(outcome, revealed[i].vote) <==> revealed[i].vote == vote)
    ensures FoldSum(p, revealed, weightOf, outcome) == VoteSum(revealed, weightOf, vote)
  {
    if revealed != [] {
      var n := |revealed| - 1;
      assert forall i :: 0 <= i < n ==> revealed[..n][i] == revealed[i];
      OneSpellingSum(p, revealed[..n], weightOf, outcome, vote);
    }
  }

  lemma {:induction false} UnspelledSum(p: Primitives, revealed: seq<Reveal>, weightOf: string -> int64,
        outcome: string)
    requires forall i :: 0 <= i < |revealed| ==> !p.equalFold(outcome, revealed[i].vote)
    ensures FoldSum(p, revealed, weightOf, outcome) == 0
  {
    if revealed != [] {
      var n := |revealed| - 1;
      assert forall i :: 0 <= i < n ==> revealed[..n][i] == revealed[i];
      UnspelledSum(p, revealed[..n], weightOf, outcome);
    }
  }

  /** In one spelling, an outcome weighs no more than a prevailing vote, and as much if it is that vote's. */
  lemma FoldWithin(p: Primitives, revealed: seq<Reveal>, weightOf: string -> int64, outcome: string, top: string)
    requires Positive(revealed, weightOf) && Prevails(revealed, weightOf, top) && OneSpelling(p, revealed, outcome)
    ensures FoldSum(p, revealed, weightOf, outcome) <= VoteSum(revealed, weightOf, top)
    ensures p.equalFold(outcome, top) ==> FoldSum(p, revealed, weightOf, outcome) == VoteSum(revealed, weightOf, top)
  {
    var at :| 0 <= at < |revealed| && revealed[at].vote == top;
    if p.equalFold(outcome, top) {
      OneSpellingSum(p, revealed, weightOf, outcome, top);
    } else if i :| 0 <= i < |revealed| && p.equalFold(outcome, revealed[i].vote) {
      OneSpellingSum(p, revealed, weightOf, outcome, revealed[i].vote);
    } else {
      UnspelledSum(p, revealed, weightOf, outcome);
      SumWithinTotal(revealed, weightOf, top);
    }
  }

  /** outcome is among the outcomes, is the one voted for, and none of them weighs more in all its spellings. */
  ghost predicate PrevailsFolded(p: Primitives, revealed: seq<Reveal>, weightOf: string -> int64,
        outcomes: seq<string>, vote: string)
  {
    exists k :: 0 <= k < |outcomes| && p.equalFold(outcomes[k], vote)
      && forall j :: 0 <= j < |outcomes| ==>
        FoldSum(p, revealed, weightOf, outcomes[j]) <= FoldSum(p, revealed, weightOf, outcomes[k])
  }

  lemma FoldedPrevails(p: Primitives, revealed: seq<Reveal>, weightOf: string -> int64, outcomes: seq<string>,
        top: string)
    requires Positive(revealed, weightOf) && Prevails(revealed, weightOf, top) && IsOutcome(p, outcomes, top)
    requires forall j :: 0 <= j < |outcomes| ==> OneSpelling(p, revealed, outcomes[j])
    ensures PrevailsFolded(p, revealed, weightOf, outcomes, top)
  {
    var k :| 0 <= k < |outcomes| && p.equalFold(outcomes[k], top);
    FoldWithin(p, revealed, weightOf, outcomes[k], top);
    forall j | 0 <= j < |outcomes|
      ensures FoldSum(p, revealed, weightOf, outcomes[j]) <= FoldSum(p, revealed, weightOf, outcomes[k])
    {
      FoldWithin(p, revealed, weightOf, outcomes[j], top);
    }
  }

  /** Where every outcome of the market is revealed in one spelling and no sum overflows, the
      consensus is the outcome of greatest weight up to case, in any run and any order of the table. */
  lemma ConsensusUpToCase(p: Primitives, events: seq<Event>, marketId: uint64, order: seq<string>)
    requires Clocked(events) && FinalizeOutcome(Run(p, events), marketId, order).1 == Accepted
    requires var w := Run(p, events);
      && marketId in w.markets.byId
      && NoOverflow(RevealsOf(w, marketId), WeightIn(w.scores, w.markets.byId[marketId].groupId))
      && Lists(order, VoteWeights(w.scores, RevealsOf(w, marketId), w.markets.byId[marketId].groupId).Keys)
      && forall j :: 0 <= j < |w.markets.byId[marketId].outcomes| ==>
        OneSpelling(p, RevealsOf(w, marketId), w.markets.byId[marketId].outcomes[j])
    ensures var w := Run(p, events);
      PrevailsFolded(p, RevealsOf(w, marketId), WeightIn(w.scores, w.markets.byId[marketId].groupId),
                     w.markets.byId[marketId].outcomes, FinalizeOutcome(w, marketId, order).0.outcomes[marketId])
  {
    var w := Run(p, events);
    var groupId := w.markets.byId[marketId].groupId;
    ConsensusPrevails(p, events, marketId, order);
    WeightsArePositive(w.scores, groupId, RevealsOf(w, marketId));
    FoldedPrevails(p, RevealsOf(w, marketId), WeightIn(w.scores, groupId), w.markets.byId[marketId].outcomes,
                   FinalizeOutcome(w, marketId, order).0.outcomes[marketId]);
  }

  /** In two spellings an outcome can lose to a lighter one: "Yes" and "yes" weigh 2 each, "no" weighs 3. */
  lemma SplitSpellingsLose(p: Primitives, a: Reveal, b: Reveal, c: Reveal, weightOf: string -> int64,
        order: seq<string>)
    requires a.vote == "Yes" && b.vote == "yes" && c.vote == "no"
    requires weightOf(a.voter) == weightOf(b.voter) == 2 && weightOf(c.voter) == 3
    requires p.equalFold("Yes", "Yes") && p.equalFold("Yes", "yes") && !p.equalFold("Yes", "no")
    requires !p.equalFold("no", "Yes") && !p.equalFold("no", "yes") && p.equalFold("no", "no")
    requires Lists(order, Weights([a, b, c], weightOf).Keys)
    ensures FoldSum(p, [a, b, c], weightOf, "Yes") == 4 && FoldSum(p, [a, b, c], weightOf, "no") == 3
    ensures ArgMax(Weights([a, b, c], weightOf), order).0 == "no"
  {
    assert "Yes"[0] != "yes"[0] && "Yes"[0] != "no"[0] && "yes"[0] != "no"[0];
    assert [a, b, c][..2] == [a, b] && [a, b][..1] == [a] && [a][..0] == [];
    var t := Weights([a, b, c], weightOf);
    assert Weights([a], weightOf) == map["Yes" := 2];
    assert Weights([a, b], weightOf) == map["Yes" := 2, "yes" := 2];
    assert t == map["Yes" := 2, "yes" := 2, "no" := 3];
    ArgMaxIsWinner(t, order);
    assert t["no"] == 3;
    FoldSums(p, a, b, c, weightOf, "Yes");
    FoldSums(p, a, b, c, weightOf, "no");
  }

  lemma FoldSums(p: Primitives, a: Reveal, b: Reveal, c: Reveal, weightOf: string -> int64, outcome: string)
    ensures FoldSum(p, [a, b, c], weightOf, outcome)
         == FoldOne(p, a, weightOf, outcome) + FoldOne(p, b, weightOf, outcome) + FoldOne(p, c, weightOf, outcome)
  {
    assert [a, b, c][..2] == [a, b] && [a, b][..1] == [a] && [a][..0] == [];
    assert FoldSum(p, [a], weightOf, outcome) == FoldOne(p, a, weightOf, outcome);
    assert FoldSum(p, [a, b], weightOf, outcome)
        == FoldSum(p, [a], weightOf, outcome) + FoldOne(p, b, weightOf, outcome);
  }
}
