/** The consensus is what the reveals say unless a tally overflows; and in runs without
    the authority's adjustments scores stay too small for that. */
module Consensus {
  import opened GoInt
  import opened Decimal
  import opened Scans
  import opened PredictionTypes
  import opened Markets
  import opened Reputation
  import opened Tally
  import opened Settlement
  import opened SettlementRuns
  import opened ScoreRuns

  /** No score is set from outside. */
  ghost predicate Unassisted(events: seq<Event>) {
    forall i :: 0 <= i < |events| ==> !events[i].action.Rescore?
  }

  lemma {:induction false} SmallWalk(h: seq<int>)
    requires SmallSteps(h) && |h| < 0x8000_0000_0000_0000
    ensures Fits(0, h) && Walk(0, h) <= |h|
  {
    if h != [] {
      assert forall i :: 0 <= i < |h| - 1 ==> h[..|h| - 1][i] == h[i];
      SmallWalk(h[..|h| - 1]);
    }
  }

  /** One message adds at most one adjustment, and only with a new outcome. */
  lemma StepHistory(p: Primitives, w: World, ctx: Ctx, action: Action, voter: string, group: string)
    requires WorldOk(p, w, ctx.time) && VotersAre(w, IsPlain()) && NoColon(voter) && !action.Rescore?
    ensures var h := Adjustments(w, action, ScoreKey(voter, group));
      SmallSteps(h) && |w.outcomes| + |h| <= |Step(p, w, ctx, action).0.outcomes| <= |w.outcomes| + 1
  {
    if action.Finalize? && FinalizeOutcome(w, action.marketId, action.order).1 == Accepted {
      OneMoreOutcome(p, w, ctx, action.marketId, action.order);
      FinalizeHistory(p, w, ctx.time, action.marketId, action.order, voter, group);
    } else {
      OutcomesUnchanged(p, w, ctx, action);
    }
  }

  lemma FinalizeHistory(p: Primitives, w: World, now: int64, marketId: uint64, order: seq<string>, voter: string,
        group: string)
    requires WorldOk(p, w, now) && VotersAre(w, IsPlain()) && NoColon(voter)
    requires FinalizeOutcome(w, marketId, order).1 == Accepted
    ensures var h := Adjustments(w, Finalize(marketId, order), ScoreKey(voter, group));
      SmallSteps(h) && |h| <= 1
  {
    FinalizeAdjusts(w, marketId, order, ScoreKey(voter, group));
    VerdictsExact(p, w, now, marketId, w.markets.byId[marketId].groupId,
                  FinalizeOutcome(w, marketId, order).0.outcomes[marketId], voter, group);
    VerdictsSmall(RevealsOf(w, marketId), w.markets.byId[marketId].groupId,
                  FinalizeOutcome(w, marketId, order).0.outcomes[marketId], ScoreKey(voter, group));
  }

  lemma OneMoreOutcome(p: Primitives, w: World, ctx: Ctx, marketId: uint64, order: seq<string>)
    requires FinalizeOutcome(w, marketId, order).1 == Accepted
    ensures |Step(p, w, ctx, Finalize(marketId, order)).0.outcomes| == |w.outcomes| + 1
  {
    var w' := FinalizeOutcome(w, marketId, order).0;
    assert w'.outcomes == w.outcomes[marketId := w'.outcomes[marketId]];
  }

  lemma OutcomesUnchanged(p: Primitives, w: World, ctx: Ctx, action: Action)
    requires action.Finalize? ==> FinalizeOutcome(w, action.marketId, action.order).1 != Accepted
    ensures Step(p, w, ctx, action).0.outcomes == w.outcomes
  {
  }

  lemma {:induction false} HistoryBound(p: Primitives, events: seq<Event>, voter: string, group: string)
    requires Clocked(events) && CommittersAre(events, IsPlain()) && Unassisted(events) && NoColon(voter)
    ensures var h := History(p, events, ScoreKey(voter, group));
      SmallSteps(h) && |h| <= |Run(p, events).outcomes| <= |events|
  {
    if events != [] {
      var n := |events| - 1;
      Shorter(events);
      HistoryBound(p, events[..n], voter, group);
      LastStepBound(p, events, voter, group);
      SmallAppend(History(p, events[..n], ScoreKey(voter, group)),
                  Adjustments(Run(p, events[..n]), events[n].action, ScoreKey(voter, group)));
    }
  }

  lemma SmallAppend(a: seq<int>, b: seq<int>)
    requires SmallSteps(a) && SmallSteps(b)
    ensures SmallSteps(a + b)
  {
  }

  lemma Shorter(events: seq<Event>)
    requires Clocked(events) && CommittersAre(events, IsPlain()) && Unassisted(events) && events != []
    ensures var front := events[..|events| - 1];
      Clocked(front) && CommittersAre(front, IsPlain()) && Unassisted(front)
  {
    assert forall i :: 0 <= i < |events| - 1 ==> events[..|events| - 1][i] == events[i];
  }

  lemma LastStepBound(p: Primitives, events: seq<Event>, voter: string, group: string)
    requires Clocked(events) && CommittersAre(events, IsPlain()) && Unassisted(events) && NoColon(voter) && events != []
    ensures var n := |events| - 1;
      var w := Run(p, events[..n]);
      var h := Adjustments(w, events[n].action, ScoreKey(voter, group));
      SmallSteps(h) && |w.outcomes| + |h| <= |Run(p, events).outcomes| <= |w.outcomes| + 1
  {
    var n := |events| - 1;
    var w := Run(p, events[..n]);
    Shorter(events);
    RunKeeps(p, events[..n]);
    RunVoters(p, events[..n], IsPlain());
    TimePasses(p, w, Now(events[..n]), events[n].ctx.time);
    StepHistory(p, w, events[n].ctx, events[n].action, voter, group);
  }

  /** After F finalizations no voter's score exceeds F. */
  lemma ScoreBound(p: Primitives, events: seq<Event>, voter: string, group: string)
    requires Clocked(events) && CommittersAre(events, IsPlain()) && Unassisted(events) && NoColon(voter)
    ensures 0 <= ScoreAt(Run(p, events).scores, ScoreKey(voter, group)) <= |Run(p, events).outcomes|
  {
    var h := History(p, events, ScoreKey(voter, group));
    HistoryBound(p, events, voter, group);
    SmallWalk(h);
    ScoreIsWalk(p, events, ScoreKey(voter, group));
    WalkNonNegative(0, h);
  }

  function AtLeastOne(f: nat): nat {
    if f < 1 then 1 else f
  }

  lemma WeightOfScore(scores: Scores, groupId: string, voter: string, f: nat)
    requires ScoresOk(scores) && ScoreAt(scores, ScoreKey(voter, groupId)) <= f
    ensures 1 <= WeightIn(scores, groupId)(voter) <= AtLeastOne(f)
  {
  }

  lemma RevealsBounded(p: Primitives, events: seq<Event>, marketId: uint64, groupId: string)
    requires Clocked(events) && CommittersAre(events, IsPlain()) && Unassisted(events)
    ensures var w := Run(p, events);
      Bounded(RevealsOf(w, marketId), WeightIn(w.scores, groupId), AtLeastOne(|w.outcomes|))
  {
    var w := Run(p, events);
    RunKeeps(p, events);
    RunVoters(p, events, IsPlain());
    var rs := RevealsOf(w, marketId);
    forall i | 0 <= i < |rs| ensures 1 <= WeightIn(w.scores, groupId)(rs[i].voter) <= AtLeastOne(|w.outcomes|) {
      PlainVoter(w, marketId, rs[i]);
      ScoreBound(p, events, rs[i].voter, groupId);
      WeightOfScore(w.scores, groupId, rs[i].voter, |w.outcomes|);
    }
  }

  /** What the reveals of a market say: vote is revealed, and no vote outweighs it. */
  ghost predicate Prevails(revealed: seq<Reveal>, weightOf: string -> int64, vote: string) {
    && IsVote(revealed, vote)
    && forall other :: VoteSum(revealed, weightOf, other) <= VoteSum(revealed, weightOf, vote)
  }

  /** Unless an outcome's sum overflows, the table holds the exact sums, they make up the
      weight of all the reveals, which is at least their number, and the loop chooses a
      vote that prevails, whatever the order of the table. */
  lemma TallyPrevails(revealed: seq<Reveal>, weightOf: string -> int64, order: seq<string>)
    requires revealed != [] && Positive(revealed, weightOf) && NoOverflow(revealed, weightOf)
    requires Lists(order, Weights(revealed, weightOf).Keys)
    ensures ExactTable(revealed, weightOf)
    ensures |revealed| <= SumOver(revealed, weightOf, order) == TotalWeight(revealed, weightOf)
    ensures Prevails(revealed, weightOf, ArgMax(Weights(revealed, weightOf), order).0)
  {
    var t := Weights(revealed, weightOf);
    forall o ensures o in t <==> IsVote(revealed, o)
      ensures o in t ==> t[o] == VoteSum(revealed, weightOf, o) >= 1
      ensures o !in t ==> VoteSum(revealed, weightOf, o) == 0
    {
      WeightsFit(revealed, weightOf, o);
      WeightsExact(revealed, weightOf, o);
    }
    ArgMaxIsWinner(t, order);
    SumWithinTotal(revealed, weightOf, "");
    forall i | 0 <= i < |revealed| ensures revealed[i].vote in order {
      assert IsVote(revealed, revealed[i].vote);
    }
    TallyConserves(revealed, weightOf, order);
    assert IsVote(revealed, revealed[0].vote);
  }

  /** With overflow allowed for: every order of the table gives a prevailing vote exactly
      when every outcome whose wrapped sum is greatest, or the empty choice when none is
      positive, prevails. */
  lemma PrevailsExact(revealed: seq<Reveal>, weightOf: string -> int64)
    ensures var t := Weights(revealed, weightOf);
      (forall order :: Lists(order, t.Keys) ==> Prevails(revealed, weightOf, ArgMax(t, order).0))
      <==> (forall c :: IsWinner(t, c) ==> Prevails(revealed, weightOf, c))
  {
    var t := Weights(revealed, weightOf);
    forall c ensures IsWinner(t, c) <==> exists order :: Lists(order, t.Keys) && ArgMax(t, order).0 == c {
      WinnersExact(t, c);
    }
  }

  /** An outcome's sum as the table holds it. */
  function Wrapped(revealed: seq<Reveal>, weightOf: string -> int64, vote: string): int64 {
    ToInt64(VoteSum(revealed, weightOf, vote))
  }

  /** On the exact sums: wrapped, the greatest sum is positive and still above every lesser one. */
  ghost predicate StandsOut(revealed: seq<Reveal>, weightOf: string -> int64, top: string) {
    && Wrapped(revealed, weightOf, top) > 0
    && forall v :: IsVote(revealed, v) && VoteSum(revealed, weightOf, v) < VoteSum(revealed, weightOf, top) ==>
      Wrapped(revealed, weightOf, v) < Wrapped(revealed, weightOf, top)
  }

  /** The empty text is itself revealed and prevails, and no wrapped sum is positive. */
  ghost predicate EmptyStandsOut(revealed: seq<Reveal>, weightOf: string -> int64) {
    && Prevails(revealed, weightOf, "")
    && forall v :: IsVote(revealed, v) ==> Wrapped(revealed, weightOf, v) <= 0
  }

  /** The table is the wrapped sums of the revealed votes. */
  lemma TableIsWrapped(revealed: seq<Reveal>, weightOf: string -> int64)
    ensures var t := Weights(revealed, weightOf);
      forall v :: (v in t <==> IsVote(revealed, v)) && (v in t ==> t[v] == Wrapped(revealed, weightOf, v))
  {
    forall v ensures var t := Weights(revealed, weightOf);
      (v in t <==> IsVote(revealed, v)) && (v in t ==> t[v] == Wrapped(revealed, weightOf, v))
    {
      WeightsExact(revealed, weightOf, v);
    }
  }

  lemma WinnerExists(weights: map<string, int64>) returns (c: string)
    ensures IsWinner(weights, c)
  {
    var order := OrderExists(weights.Keys);
    ArgMaxIsWinner(weights, order);
    c := ArgMax(weights, order).0;
  }

  /** When some sum overflows: every order of the table gives a prevailing vote exactly when
      the greatest sum, wrapped, is positive and above every lesser sum, wrapped. (Or, could
      the empty text be revealed, when it prevails and no wrapped sum is positive.) */
  lemma PrevailsOnSums(revealed: seq<Reveal>, weightOf: string -> int64, top: string)
    requires Prevails(revealed, weightOf, top)
    ensures var t := Weights(revealed, weightOf);
      (forall order :: Lists(order, t.Keys) ==> Prevails(revealed, weightOf, ArgMax(t, order).0))
      <==> StandsOut(revealed, weightOf, top) || EmptyStandsOut(revealed, weightOf)
  {
    PrevailsExact(revealed, weightOf);
    var t := Weights(revealed, weightOf);
    if StandsOut(revealed, weightOf, top) || EmptyStandsOut(revealed, weightOf) {
      forall c | IsWinner(t, c) ensures Prevails(revealed, weightOf, c) {
        WinnerPrevails(revealed, weightOf, top, c);
      }
    }
    if forall c :: IsWinner(t, c) ==> Prevails(revealed, weightOf, c) {
      SumsStandOut(revealed, weightOf, top);
    }
  }

  lemma WinnerPrevails(revealed: seq<Reveal>, weightOf: string -> int64, top: string, c: string)
    requires Prevails(revealed, weightOf, top) && IsWinner(Weights(revealed, weightOf), c)
    requires StandsOut(revealed, weightOf, top) || EmptyStandsOut(revealed, weightOf)
    ensures Prevails(revealed, weightOf, c)
  {
    TableIsWrapped(revealed, weightOf);
    assert top in Weights(revealed, weightOf);
  }

  lemma SumsStandOut(revealed: seq<Reveal>, weightOf: string -> int64, top: string)
    requires Prevails(revealed, weightOf, top)
    requires forall c :: IsWinner(Weights(revealed, weightOf), c) ==> Prevails(revealed, weightOf, c)
    ensures StandsOut(revealed, weightOf, top) || EmptyStandsOut(revealed, weightOf)
  {
    TableIsWrapped(revealed, weightOf);
    var t := Weights(revealed, weightOf);
    var c := WinnerExists(t);
    assert VoteSum(revealed, weightOf, c) == VoteSum(revealed, weightOf, top);
    if IsTop(t, c) {
      forall v | IsVote(revealed, v) && VoteSum(revealed, weightOf, v) < VoteSum(revealed, weightOf, top)
        ensures Wrapped(revealed, weightOf, v) < Wrapped(revealed, weightOf, top)
      {
        assert !IsWinner(t, v);
        assert t[v] <= t[c];
      }
    }
  }

  /** Some vote always prevails. */
  lemma {:induction false} PrevailingExists(revealed: seq<Reveal>, weightOf: string -> int64) returns (top: string)
    requires revealed != [] && Positive(revealed, weightOf)
    ensures Prevails(revealed, weightOf, top)
  {
    top := Heaviest(revealed, weightOf, |revealed|);
    forall other ensures VoteSum(revealed, weightOf, other) <= VoteSum(revealed, weightOf, top) {
      SumWithinTotal(revealed, weightOf, top);
      if IsVote(revealed, other) {
        var i :| 0 <= i < |revealed| && revealed[i].vote == other;
      } else {
        WeightsExact(revealed, weightOf, other);
        TableIsWrapped(revealed, weightOf);
      }
    }
  }

  /** A vote of greatest sum among the first n reveals. */
  lemma {:induction false} Heaviest(revealed: seq<Reveal>, weightOf: string -> int64, n: nat) returns (top: string)
    requires 0 < n <= |revealed|
    ensures IsVote(revealed, top)
    ensures forall i :: 0 <= i < n ==> VoteSum(revealed, weightOf, revealed[i].vote) <= VoteSum(revealed, weightOf, top)
  {
    top := revealed[n - 1].vote;
    if n > 1 {
      var before := Heaviest(revealed, weightOf, n - 1);
      if VoteSum(revealed, weightOf, before) > VoteSum(revealed, weightOf, top) {
        top := before;
      }
    }
  }

  /** Every vote revealed on a market is one of its outcomes, up to case. */
  lemma VotesAreOutcomes(p: Primitives, w: World, now: int64, marketId: uint64, vote: string)
    requires WorldOk(p, w, now) && IsVote(RevealsOf(w, marketId), vote)
    ensures marketId in w.markets.byId && IsOutcome(p, w.markets.byId[marketId].outcomes, vote)
  {
    var i :| 0 <= i < |RevealsOf(w, marketId)| && RevealsOf(w, marketId)[i].vote == vote;
    var r := RevealsOf(w, marketId)[i];
    EntryExact(w.revealed, RevealMarket, marketId, r);
    var k :| k in w.revealed && w.revealed[k] == r;
    assert Honoured(p, w.markets, w.commits, k, r);
  }

  /** A finalization in any run, authority adjustments and all: unless an outcome's sum
      overflows, every order of the table gives a prevailing vote, an outcome of the market. */
  lemma ConsensusPrevails(p: Primitives, events: seq<Event>, marketId: uint64, order: seq<string>)
    requires Clocked(events) && FinalizeOutcome(Run(p, events), marketId, order).1 == Accepted
    requires var w := Run(p, events);
      && marketId in w.markets.byId
      && NoOverflow(RevealsOf(w, marketId), WeightIn(w.scores, w.markets.byId[marketId].groupId))
      && Lists(order, VoteWeights(w.scores, RevealsOf(w, marketId), w.markets.byId[marketId].groupId).Keys)
    ensures var w := Run(p, events);
      var consensus := FinalizeOutcome(w, marketId, order).0.outcomes[marketId];
      && Prevails(RevealsOf(w, marketId), WeightIn(w.scores, w.markets.byId[marketId].groupId), consensus)
      && IsOutcome(p, w.markets.byId[marketId].outcomes, consensus)
  {
    var w := Run(p, events);
    var groupId := w.markets.byId[marketId].groupId;
    RunKeeps(p, events);
    var consensus := ChosenConsensus(p, w, Now(events), marketId, order);
    WeightsArePositive(w.scores, groupId, RevealsOf(w, marketId));
    TallyPrevails(RevealsOf(w, marketId), WeightIn(w.scores, groupId), order);
    VotesAreOutcomes(p, w, Now(events), marketId, consensus);
  }

  /** In any run, overflow or not: every order of the table gives a prevailing consensus
      exactly when the greatest sum stands out among the wrapped sums. */
  lemma ConsensusExact(p: Primitives, events: seq<Event>, marketId: uint64, top: string)
    requires Clocked(events) && FinalizeOutcome(Run(p, events), marketId, []).1 == Accepted
    requires var w := Run(p, events);
      && marketId in w.markets.byId
      && Prevails(RevealsOf(w, marketId), WeightIn(w.scores, w.markets.byId[marketId].groupId), top)
    ensures var w := Run(p, events);
      var (rs, weightOf) := (RevealsOf(w, marketId), WeightIn(w.scores, w.markets.byId[marketId].groupId));
      (forall order :: Lists(order, Weights(rs, weightOf).Keys) ==>
        Prevails(rs, weightOf, Consensus(w, marketId, order)))
      <==> StandsOut(rs, weightOf, top) || EmptyStandsOut(rs, weightOf)
    ensures var w := Run(p, events);
      (forall o :: o != "" ==> !p.equalFold(o, "")) ==>
        !EmptyStandsOut(RevealsOf(w, marketId), WeightIn(w.scores, w.markets.byId[marketId].groupId))
  {
    var w := Run(p, events);
    RunKeeps(p, events);
    ConsensusOnSums(p, w, Now(events), marketId, RevealsOf(w, marketId),
                    WeightIn(w.scores, w.markets.byId[marketId].groupId), top);
    if forall o :: o != "" ==> !p.equalFold(o, "") {
      EmptyNotRevealed(p, w, Now(events), marketId);
    }
  }

  /** What a finalization stores. */
  function Consensus(w: World, marketId: uint64, order: seq<string>): string {
    var outcomes := FinalizeOutcome(w, marketId, order).0.outcomes;
    if marketId in outcomes then outcomes[marketId] else ""
  }

  lemma ConsensusOnSums(p: Primitives, w: World, now: int64, marketId: uint64, rs: seq<Reveal>,
        weightOf: string -> int64, top: string)
    requires WorldOk(p, w, now) && FinalizeOutcome(w, marketId, []).1 == Accepted && marketId in w.markets.byId
    requires rs == RevealsOf(w, marketId) && weightOf == WeightIn(w.scores, w.markets.byId[marketId].groupId)
    requires Prevails(rs, weightOf, top)
    ensures (forall order :: Lists(order, Weights(rs, weightOf).Keys) ==>
              Prevails(rs, weightOf, Consensus(w, marketId, order)))
       <==> StandsOut(rs, weightOf, top) || EmptyStandsOut(rs, weightOf)
  {
    PrevailsOnSums(rs, weightOf, top);
    forall order | Lists(order, Weights(rs, weightOf).Keys)
      ensures Consensus(w, marketId, order) == ArgMax(Weights(rs, weightOf), order).0
    {
      ConsensusIsChoice(p, w, now, marketId, order);
    }
  }

  lemma ConsensusIsChoice(p: Primitives, w: World, now: int64, marketId: uint64, order: seq<string>)
    requires WorldOk(p, w, now) && FinalizeOutcome(w, marketId, []).1 == Accepted && marketId in w.markets.byId
    ensures Consensus(w, marketId, order)
         == ArgMax(Weights(RevealsOf(w, marketId), WeightIn(w.scores, w.markets.byId[marketId].groupId)), order).0
  {
    AcceptedInAnyOrder(p, w, now, marketId, order);
    var c := ChosenConsensus(p, w, now, marketId, order);
  }

  /** No outcome is empty, so the empty text cannot be revealed if nothing else folds to it. */
  lemma EmptyNotRevealed(p: Primitives, w: World, now: int64, marketId: uint64)
    requires WorldOk(p, w, now) && forall o :: o != "" ==> !p.equalFold(o, "")
    ensures !IsVote(RevealsOf(w, marketId), "")
  {
    if IsVote(RevealsOf(w, marketId), "") {
      VotesAreOutcomes(p, w, now, marketId, "");
      NoEmptyOutcome(w, marketId);
    }
  }

  lemma NoEmptyOutcome(w: World, marketId: uint64)
    requires MarketsOk(w.markets) && marketId in w.markets.byId
    ensures forall i :: 0 <= i < |w.markets.byId[marketId].outcomes| ==> w.markets.byId[marketId].outcomes[i] != ""
  {
  }

  lemma AcceptedInAnyOrder(p: Primitives, w: World, now: int64, marketId: uint64, order: seq<string>)
    requires WorldOk(p, w, now) && FinalizeOutcome(w, marketId, []).1 == Accepted
    ensures FinalizeOutcome(w, marketId, order).1 == Accepted
  {
    FinalizeShape(p, w, now, marketId, []);
    FinalizeShape(p, w, now, marketId, order);
  }

  /** Without authority adjustments and with colon-free addresses, R reveals after F
      finalizations cannot overflow while R * max(1, F) < 2^63. */
  lemma SmallRunsFit(p: Primitives, events: seq<Event>, marketId: uint64, groupId: string)
    requires Clocked(events) && CommittersAre(events, IsPlain()) && Unassisted(events)
    requires var w := Run(p, events);
      |RevealsOf(w, marketId)| * AtLeastOne(|w.outcomes|) < 0x8000_0000_0000_0000
    ensures NoOverflow(RevealsOf(Run(p, events), marketId), WeightIn(Run(p, events).scores, groupId))
  {
    var w := Run(p, events);
    RevealsBounded(p, events, marketId, groupId);
    BoundedFits(RevealsOf(w, marketId), WeightIn(w.scores, groupId), AtLeastOne(|w.outcomes|));
  }

  lemma ChosenConsensus(p: Primitives, w: World, now: int64, marketId: uint64, order: seq<string>) returns (c: string)
    requires WorldOk(p, w, now) && FinalizeOutcome(w, marketId, order).1 == Accepted
    ensures marketId in FinalizeOutcome(w, marketId, order).0.outcomes && marketId in w.markets.byId
    ensures c == FinalizeOutcome(w, marketId, order).0.outcomes[marketId]
    ensures c == ArgMax(Weights(RevealsOf(w, marketId), WeightIn(w.scores, w.markets.byId[marketId].groupId)), order).0
    ensures RevealsOf(w, marketId) != []
  {
    FinalizeShape(p, w, now, marketId, order);
    NoneRevealed(w, marketId);
    c := FinalizeOutcome(w, marketId, order).0.outcomes[marketId];
  }
}
