/** Runs of the settlement protocol: every sequence of messages under a clock that
    does not go back, from empty stores. */
module SettlementRuns {
  import opened GoInt
  import opened Decimal
  import opened Scans
  import opened PredictionTypes
  import opened Markets
  import opened Settlement

  datatype Event = Event(ctx: Ctx, action: Action)

  function Genesis(): World {
    World(MarketTable(map[], 0), map[], map[], map[], map[])
  }

  ghost function Run(p: Primitives, events: seq<Event>): World {
    if events == [] then Genesis()
    else
      var last := events[|events| - 1];
      Step(p, Run(p, events[..|events| - 1]), last.ctx, last.action).0
  }

  /** Block times do not go back, and fewer messages than ids. */
  ghost predicate Clocked(events: seq<Event>) {
    && |events| < 0x8000_0000_0000_0000
    && forall i, j :: 0 <= i < j < |events| ==> events[i].ctx.time <= events[j].ctx.time
  }

  function Now(events: seq<Event>): int64 {
    if events == [] then -0x8000_0000_0000_0000 else events[|events| - 1].ctx.time
  }

  // ---------- Invariant and write-once records ----------

  lemma {:induction false} RunKeeps(p: Primitives, events: seq<Event>)
    requires Clocked(events)
    ensures WorldOk(p, Run(p, events), Now(events)) && Run(p, events).markets.next <= |events|
  {
    if events != [] {
      var n := |events| - 1;
      RunKeeps(p, events[..n]);
      var w := Run(p, events[..n]);
      TimePasses(p, w, Now(events[..n]), events[n].ctx.time);
      StepKeeps(p, w, events[n].ctx, events[n].action);
      IdsUsed(p, w, events[n].ctx, events[n].action);
    }
  }

  lemma IdsUsed(p: Primitives, w: World, ctx: Ctx, action: Action)
    ensures Step(p, w, ctx, action).0.markets.next <= w.markets.next + 1
  {
  }

  /** Markets, commits, reveals and outcomes, once written, stay as they are. */
  lemma {:induction false} WriteOnce(p: Primitives, events: seq<Event>, i: nat)
    requires Clocked(events) && i <= |events|
    ensures Grows(Run(p, events[..i]), Run(p, events))
  {
    var n := |events| - 1;
    if i == |events| {
      assert events[..i] == events;
    } else {
      RunKeeps(p, events[..n]);
      WriteOnce(p, events[..n], i);
      assert events[..n][..i] == events[..i];
      var w := Run(p, events[..n]);
      TimePasses(p, w, Now(events[..n]), events[n].ctx.time);
      StepKeeps(p, w, events[n].ctx, events[n].action);
      GrowsOn(Run(p, events[..i]), w, Run(p, events));
    }
  }

  lemma GrowsOn(a: World, b: World, c: World)
    requires Grows(a, b) && Grows(b, c)
    ensures Grows(a, c)
  {
  }

  // ---------- Deadlines ----------

  /** FinalizeOutcome never looks at the deadline, yet no market is finalized before it:
      at every point of a run, a finalized market exists, has a reveal that its commit
      backs, and is due. */
  lemma NoEarlyFinalization(p: Primitives, events: seq<Event>, i: nat, marketId: uint64)
    requires Clocked(events) && i <= |events| && marketId in Run(p, events[..i]).outcomes
    ensures var (w, end) := (Run(p, events[..i]), Run(p, events));
      && marketId in end.markets.byId && Due(end.markets.byId[marketId], Now(events[..i]))
      && (Now(events[..i]) >= 0 ==> end.markets.byId[marketId].deadline <= Now(events[..i]))
      && marketId in end.outcomes && end.outcomes[marketId] == w.outcomes[marketId]
  {
    var w := Run(p, events[..i]);
    RunKeeps(p, events[..i]);
    WriteOnce(p, events, i);
    DueWhenFinalized(p, w, Now(events[..i]), marketId);
  }

  /** A finalization needs a reveal, the reveal a commit, and the commit a due market. */
  lemma DueWhenFinalized(p: Primitives, w: World, now: int64, marketId: uint64)
    requires WorldOk(p, w, now) && marketId in w.outcomes
    ensures marketId in w.markets.byId && Due(w.markets.byId[marketId], now)
  {
    assert HasReveal(w.revealed, marketId);
    var k :| k in w.revealed && w.revealed[k].marketId == marketId;
    SameVoter(p, w, now, k);
  }

  /** A reveal and the commit that backs it are of one market and one voter. */
  lemma SameVoter(p: Primitives, w: World, now: int64, k: string)
    requires WorldOk(p, w, now) && k in w.revealed
    ensures Honoured(p, w.markets, w.commits, k, w.revealed[k])
    ensures w.commits[k].marketId == w.revealed[k].marketId && w.commits[k].voter == w.revealed[k].voter
  {
    var c, r := w.commits[k], w.revealed[k];
    assert Honoured(p, w.markets, w.commits, k, r);
    KeyInjective(c.marketId, c.voter, r.marketId, r.voter);
  }

  // ---------- Commits and reveals ----------

  ghost function CommitsOf(w: World, marketId: uint64): seq<Commit> {
    Entries(w.commits, CommitMarket, marketId)
  }

  ghost function VotersOf(commits: seq<Commit>): set<string> {
    set c | c in commits :: c.voter
  }

  lemma {:induction false} DistinctVoters(commits: seq<Commit>)
    requires forall i, j :: 0 <= i < j < |commits| ==> commits[i].voter != commits[j].voter
    ensures |VotersOf(commits)| == |commits|
  {
    if commits != [] {
      var n := |commits| - 1;
      var front, v := commits[..n], commits[n].voter;
      DistinctVoters(front);
      assert commits == front + [commits[n]];
      assert v !in VotersOf(front);
      assert VotersOf(commits) == VotersOf(front) + {v};
    }
  }

  lemma SubsetCount(a: set<string>, b: set<string>)
    requires a <= b
    ensures |a| <= |b|
  {
    assert b == a + (b - a);
  }

  /** In every reachable state and for every market, there are no more reveals than
      commits, and each commit is another voter's. */
  lemma RevealsWithinCommits(p: Primitives, w: World, now: int64, marketId: uint64)
    requires WorldOk(p, w, now)
    ensures |RevealsOf(w, marketId)| <= |CommitsOf(w, marketId)| == |VotersOf(CommitsOf(w, marketId))|
  {
    EntriesVoters(w.commits, CommitMarket, CommitVoter, marketId);
    DistinctVoters(CommitsOf(w, marketId));
    EntriesCount(w.commits, CommitMarket, marketId);
    EntriesCount(w.revealed, RevealMarket, marketId);
    var rs := KeysOf(w.revealed, w.revealed.Keys, RevealMarket, marketId);
    var cs := KeysOf(w.commits, w.commits.Keys, CommitMarket, marketId);
    forall k | k in rs ensures k in cs {
      SameVoter(p, w, now, k);
    }
    SubsetCount(rs, cs);
  }

  // ---------- Who votes ----------

  ghost predicate CommittersAre(events: seq<Event>, good: string -> bool) {
    forall i :: 0 <= i < |events| && events[i].action.DoCommit? ==> good(events[i].action.commit.creator)
  }

  ghost predicate VotersAre(w: World, good: string -> bool) {
    && (forall k :: k in w.commits ==> good(w.commits[k].voter))
    && (forall k :: k in w.revealed ==> good(w.revealed[k].voter))
  }

  /** Whatever holds of everyone who commits holds of every recorded voter. */
  lemma {:induction false} RunVoters(p: Primitives, events: seq<Event>, good: string -> bool)
    requires Clocked(events) && CommittersAre(events, good)
    ensures VotersAre(Run(p, events), good)
  {
    if events != [] {
      var n := |events| - 1;
      assert forall i :: 0 <= i < n ==> events[..n][i] == events[i];
      RunVoters(p, events[..n], good);
      var w := Run(p, events[..n]);
      if events[n].action.DoCommit? {
        CommitShape(w, events[n].ctx.time, events[n].action.commit);
      } else {
        OnlyCommitsCommit(p, w, events[n].ctx, events[n].action);
      }
      RunKeeps(p, events);
      RevealVoters(p, Run(p, events), Now(events), good);
    }
  }

  lemma OnlyCommitsCommit(p: Primitives, w: World, ctx: Ctx, action: Action)
    requires !action.DoCommit?
    ensures Step(p, w, ctx, action).0.commits == w.commits
  {
  }

  lemma RevealVoters(p: Primitives, w: World, now: int64, good: string -> bool)
    requires WorldOk(p, w, now) && forall k :: k in w.commits ==> good(w.commits[k].voter)
    ensures VotersAre(w, good)
  {
    forall k | k in w.revealed ensures good(w.revealed[k].voter) {
      SameVoter(p, w, now, k);
    }
  }

  function IsLong(): string -> bool {
    (s: string) => |s| >= 19
  }

  function IsPlain(): string -> bool {
    (s: string) => NoColon(s)
  }

  /** If everyone who commits has an address of 19 characters or more, a finalization
      succeeds exactly when the market exists, is not finalized and has a reveal. */
  lemma FinalizeAccepts(p: Primitives, events: seq<Event>, marketId: uint64, order: seq<string>)
    requires Clocked(events) && CommittersAre(events, IsLong())
    ensures var w := Run(p, events);
      FinalizeOutcome(w, marketId, order).1 == Accepted
      <==> marketId in w.markets.byId && marketId !in w.outcomes && HasReveal(w.revealed, marketId)
  {
    var w := Run(p, events);
    RunKeeps(p, events);
    RunVoters(p, events, IsLong());
    FinalizeShape(p, w, Now(events), marketId, order);
    LongVotersLongKeys(w, marketId);
  }

  lemma LongVotersLongKeys(w: World, marketId: uint64)
    requires WellKeyed(w.revealed, RevealMarket, RevealVoter) && VotersAre(w, IsLong())
    ensures LongKeys(w.revealed, marketId)
  {
    forall k | k in w.revealed ensures |k| >= |Prefix(marketId)| {
      assert IsLong()(w.revealed[k].voter);
      LongVotersSliceable(w.revealed, [k], RevealMarket, RevealVoter, marketId);
      assert [k][0] == k;
    }
  }
}
