/** What a run of settlements does to reputation, and what reputation does to the tallies. */
module ScoreRuns {
  import opened GoInt
  import opened Decimal
  import opened Scans
  import opened PredictionTypes
  import opened Reputation
  import opened Tally
  import opened Settlement
  import opened SettlementRuns

  /** The adjustments to the score under key that settling these reveals makes, in order. */
  ghost function Verdicts(revealed: seq<Reveal>, groupId: string, outcome: string, key: string): seq<int> {
    if revealed == [] then []
    else
      var n := |revealed| - 1;
      var front := Verdicts(revealed[..n], groupId, outcome, key);
      if ScoreKey(revealed[n].voter, groupId) == key then front + [Verdict(revealed[n].vote, outcome)] else front
  }

  /** The adjustments one message makes. */
  ghost function Adjustments(w: World, action: Action, key: string): seq<int> {
    match action
    case Finalize(marketId, order) =>
      if FinalizeOutcome(w, marketId, order).1 != Accepted then []
      else
        Verdicts(RevealsOf(w, marketId), w.markets.byId[marketId].groupId,
                 FinalizeOutcome(w, marketId, order).0.outcomes[marketId], key)
    case Rescore(address, groupId, adjustment) => if ScoreKey(address, groupId) == key then [adjustment] else []
    case _ => []
  }

  ghost function History(p: Primitives, events: seq<Event>, key: string): seq<int> {
    if events == [] then []
    else
      var n := |events| - 1;
      History(p, events[..n], key) + Adjustments(Run(p, events[..n]), events[n].action, key)
  }

  // ---------- Scores are walks ----------

  lemma {:induction false} WalkAppend(start: int, a: seq<int>, b: seq<int>)
    ensures Walk(start, a + b) == Walk(Walk(start, a), b)
    ensures Fits(start, a + b) <==> Fits(start, a) && Fits(Walk(start, a), b)
  {
    if b == [] {
      assert a + b == a;
    } else {
      var n := |b| - 1;
      WalkAppend(start, a, b[..n]);
      assert (a + b)[..|a| + n] == a + b[..n];
    }
  }

  lemma WalkOne(start: int, x: int)
    ensures Walk(start, [x]) == Clamp(start + x)
    ensures Fits(start, [x]) <==> start + x < 0x8000_0000_0000_0000
  {
    assert [x][..0] == [];
  }

  /** Settling walks every score by its own verdicts. */
  lemma {:induction false} UpdateWalks(scores: Scores, revealed: seq<Reveal>, groupId: string, outcome: string,
        key: string)
    requires ScoresOk(scores)
    requires Fits(ScoreAt(scores, key), Verdicts(revealed, groupId, outcome, key))
    ensures ScoreAt(UpdateScores(scores, revealed, groupId, outcome), key)
         == Walk(ScoreAt(scores, key), Verdicts(revealed, groupId, outcome, key))
  {
    if revealed != [] {
      var n := |revealed| - 1;
      var before := UpdateScores(scores, revealed[..n], groupId, outcome);
      var front := Verdicts(revealed[..n], groupId, outcome, key);
      var v := Verdict(revealed[n].vote, outcome);
      UpdateScoresOk(scores, revealed[..n], groupId, outcome);
      AdjustStep(before, revealed[n].voter, groupId, v);
      WalkAppend(ScoreAt(scores, key), front, [v]);
      UpdateWalks(scores, revealed[..n], groupId, outcome, key);
      WalkOne(Walk(ScoreAt(scores, key), front), v);
    }
  }

  lemma StepWalks(p: Primitives, w: World, ctx: Ctx, action: Action, key: string)
    requires WorldOk(p, w, ctx.time)
    requires Fits(ScoreAt(w.scores, key), Adjustments(w, action, key))
    ensures ScoreAt(Step(p, w, ctx, action).0.scores, key) == Walk(ScoreAt(w.scores, key), Adjustments(w, action, key))
  {
    match action
    case Finalize(marketId, order) =>
      FinalizeShape(p, w, ctx.time, marketId, order);
      var (w', answer) := FinalizeOutcome(w, marketId, order);
      if answer == Accepted {
        UpdateWalks(w.scores, RevealsOf(w, marketId), w.markets.byId[marketId].groupId, w'.outcomes[marketId], key);
      }
    case Rescore(address, groupId, adjustment) =>
      AdjustStep(w.scores, address, groupId, adjustment);
      WalkOne(ScoreAt(w.scores, key), adjustment);
    case _ =>
      OthersScoreNothing(p, w, ctx, action);
  }

  lemma OthersScoreNothing(p: Primitives, w: World, ctx: Ctx, action: Action)
    requires !action.Finalize? && !action.Rescore?
    ensures Step(p, w, ctx, action).0.scores == w.scores
  {
  }

  /** After any run, every stored score is the clamped walk over its history from zero,
      as long as no step of that walk reaches 2^63. */
  lemma {:induction false} ScoreIsWalk(p: Primitives, events: seq<Event>, key: string)
    requires Clocked(events) && Fits(0, History(p, events, key))
    ensures ScoreAt(Run(p, events).scores, key) == Walk(0, History(p, events, key))
  {
    if events != [] {
      var n := |events| - 1;
      var w := Run(p, events[..n]);
      WalkAppend(0, History(p, events[..n], key), Adjustments(w, events[n].action, key));
      ScoreIsWalk(p, events[..n], key);
      RunKeeps(p, events[..n]);
      TimePasses(p, w, Now(events[..n]), events[n].ctx.time);
      StepWalks(p, w, events[n].ctx, events[n].action, key);
    }
  }

  /** The same in closed form: the sum of the history, raised by the depth of its
      lowest point below zero. */
  lemma ScoreClosedForm(p: Primitives, events: seq<Event>, key: string, low: int)
    requires Clocked(events) && Fits(0, History(p, events, key)) && IsLow(0, History(p, events, key), low)
    ensures ScoreAt(Run(p, events).scores, key) == Total(History(p, events, key)) - low
  {
    ScoreIsWalk(p, events, key);
    WalkClosedForm(0, History(p, events, key), low);
  }

  // ---------- One verdict per reveal ----------

  ghost predicate OneVoteEach(revealed: seq<Reveal>) {
    && (forall i :: 0 <= i < |revealed| ==> NoColon(revealed[i].voter))
    && (forall i, j :: 0 <= i < j < |revealed| ==> revealed[i].voter != revealed[j].voter)
  }

  ghost predicate SmallSteps(h: seq<int>) {
    forall i :: 0 <= i < |h| ==> h[i] <= 1
  }

  lemma {:induction false} VerdictsSmall(revealed: seq<Reveal>, groupId: string, outcome: string, key: string)
    ensures SmallSteps(Verdicts(revealed, groupId, outcome, key))
  {
    if revealed != [] {
      VerdictsSmall(revealed[..|revealed| - 1], groupId, outcome, key);
    }
  }

  /** Who did not reveal here, or belongs to another group's score, is not touched. */
  lemma {:induction false} NoVerdict(revealed: seq<Reveal>, groupId: string, outcome: string, voter: string,
        group: string)
    requires NoColon(voter) && OneVoteEach(revealed)
    requires group != groupId || forall i :: 0 <= i < |revealed| ==> revealed[i].voter != voter
    ensures Verdicts(revealed, groupId, outcome, ScoreKey(voter, group)) == []
  {
    if revealed != [] {
      var n := |revealed| - 1;
      assert OneVoteEach(revealed[..n]) && revealed[n].voter == revealed[n].voter;
      NoVerdict(revealed[..n], groupId, outcome, voter, group);
      ScoreKeyInjective(revealed[n].voter, groupId, voter, group);
    }
  }

  /** Who did reveal gets exactly one verdict, on their own vote. */
  lemma {:induction false} OneVerdict(revealed: seq<Reveal>, groupId: string, outcome: string, i: nat)
    requires OneVoteEach(revealed) && i < |revealed|
    ensures Verdicts(revealed, groupId, outcome, ScoreKey(revealed[i].voter, groupId))
         == [Verdict(revealed[i].vote, outcome)]
  {
    var n := |revealed| - 1;
    assert OneVoteEach(revealed[..n]);
    if i == n {
      NoVerdict(revealed[..n], groupId, outcome, revealed[n].voter, groupId);
    } else {
      OneVerdict(revealed[..n], groupId, outcome, i);
      ScoreKeyInjective(revealed[n].voter, groupId, revealed[i].voter, groupId);
    }
  }

  lemma MarketVotes(p: Primitives, w: World, now: int64, marketId: uint64)
    requires WorldOk(p, w, now) && VotersAre(w, IsPlain())
    ensures OneVoteEach(RevealsOf(w, marketId))
  {
    EntriesVoters(w.revealed, RevealMarket, RevealVoter, marketId);
    var rs := RevealsOf(w, marketId);
    forall i | 0 <= i < |rs| ensures NoColon(rs[i].voter) {
      PlainVoter(w, marketId, rs[i]);
    }
  }

  lemma PlainVoter(w: World, marketId: uint64, r: Reveal)
    requires VotersAre(w, IsPlain()) && r in RevealsOf(w, marketId)
    ensures NoColon(r.voter)
  {
    EntryExact(w.revealed, RevealMarket, marketId, r);
    var k :| k in w.revealed && w.revealed[k] == r;
    assert IsPlain()(w.revealed[k].voter);
  }

  /** Each finalization adds one step to the history of each revealer of that market, in that
      market's group: +1 to who revealed the consensus, -1 to who did not; and nothing to any
      other score. */
  lemma FinalizationScores(p: Primitives, events: seq<Event>, marketId: uint64, order: seq<string>, voter: string,
        group: string)
    requires Clocked(events) && CommittersAre(events, IsPlain()) && NoColon(voter)
    requires FinalizeOutcome(Run(p, events), marketId, order).1 == Accepted
    ensures var w := Run(p, events);
      var key := MarketVoterKey(marketId, voter);
      Adjustments(w, Finalize(marketId, order), ScoreKey(voter, group))
      == if group == w.markets.byId[marketId].groupId && key in w.revealed
         then [if w.revealed[key].vote == FinalizeOutcome(w, marketId, order).0.outcomes[marketId] then 1 else -1]
         else []
  {
    var w := Run(p, events);
    RunKeeps(p, events);
    RunVoters(p, events, IsPlain());
    FinalizeAdjusts(w, marketId, order, ScoreKey(voter, group));
    VerdictsExact(p, w, Now(events), marketId, w.markets.byId[marketId].groupId,
                  FinalizeOutcome(w, marketId, order).0.outcomes[marketId], voter, group);
  }

  lemma FinalizeAdjusts(w: World, marketId: uint64, order: seq<string>, key: string)
    requires FinalizeOutcome(w, marketId, order).1 == Accepted
    ensures marketId in w.markets.byId && marketId in FinalizeOutcome(w, marketId, order).0.outcomes
    ensures Adjustments(w, Finalize(marketId, order), key)
         == Verdicts(RevealsOf(w, marketId), w.markets.byId[marketId].groupId,
                     FinalizeOutcome(w, marketId, order).0.outcomes[marketId], key)
  {
  }

  lemma VerdictsExact(p: Primitives, w: World, now: int64, marketId: uint64, groupId: string, outcome: string,
                      voter: string, group: string)
    requires WorldOk(p, w, now) && VotersAre(w, IsPlain()) && NoColon(voter)
    ensures var key := MarketVoterKey(marketId, voter);
      Verdicts(RevealsOf(w, marketId), groupId, outcome, ScoreKey(voter, group))
      == if group == groupId && key in w.revealed then [Verdict(w.revealed[key].vote, outcome)] else []
    ensures |Verdicts(RevealsOf(w, marketId), groupId, outcome, ScoreKey(voter, group))| <= 1
  {
    var rs := RevealsOf(w, marketId);
    MarketVotes(p, w, now, marketId);
    var key := MarketVoterKey(marketId, voter);
    if group == groupId && key in w.revealed {
      var i := VoterPlace(w, marketId, voter, key);
      OneVerdict(rs, groupId, outcome, i);
    } else {
      if group == groupId {
        forall i | 0 <= i < |rs| ensures rs[i].voter != voter {
          EntryExact(w.revealed, RevealMarket, marketId, rs[i]);
          var k :| k in w.revealed && w.revealed[k] == rs[i];
        }
      }
      NoVerdict(rs, groupId, outcome, voter, group);
    }
  }

  lemma VoterPlace(w: World, marketId: uint64, voter: string, key: string) returns (i: nat)
    requires WellKeyed(w.revealed, RevealMarket, RevealVoter)
    requires key == MarketVoterKey(marketId, voter) && key in w.revealed
    ensures i < |RevealsOf(w, marketId)| && RevealsOf(w, marketId)[i] == w.revealed[key]
    ensures w.revealed[key].voter == voter
  {
    var r := w.revealed[key];
    KeyInjective(r.marketId, r.voter, marketId, voter);
    assert r in w.revealed.Values;
    EntryExact(w.revealed, RevealMarket, marketId, r);
    i :| 0 <= i < |RevealsOf(w, marketId)| && RevealsOf(w, marketId)[i] == r;
  }
}
