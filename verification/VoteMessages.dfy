/** The settlement module's messages told on the records, in every state that a run can reach:
    what each is answered, and every field of what it stores. */
module VoteMessages {
  import opened GoInt
  import opened Results
  import opened Messages
  import opened Decimal
  import opened Scans
  import opened Tally
  import opened Settlement
  import opened SettlementRuns

  /** A commit of this voter on this market is stored. */
  ghost predicate HasCommit(w: World, marketId: uint64, voter: string, c: string) {
    exists k :: k in w.commits && w.commits[k] == VoteCommit(marketId, voter, c)
  }

  /** This voter has revealed on this market. */
  ghost predicate HasRevealed(w: World, marketId: uint64, voter: string) {
    exists k :: k in w.revealed && w.revealed[k].marketId == marketId && w.revealed[k].voter == voter
  }

  lemma CommitIsKeyed(p: Primitives, w: World, now: int64, marketId: uint64, voter: string, c: string)
    requires WorldOk(p, w, now)
    ensures var key := Text(marketId) + "/" + voter;
      HasCommit(w, marketId, voter, c) <==> key in w.commits && w.commits[key].commitment == c
  {
    var key := MarketVoterKey(marketId, voter);
    if key in w.commits {
      KeyInjective(w.commits[key].marketId, w.commits[key].voter, marketId, voter);
    }
  }

  lemma RevealIsKeyed(p: Primitives, w: World, now: int64, marketId: uint64, voter: string)
    requires WorldOk(p, w, now)
    ensures HasRevealed(w, marketId, voter) <==> Text(marketId) + "/" + voter in w.revealed
  {
    var key := MarketVoterKey(marketId, voter);
    if key in w.revealed {
      KeyInjective(w.revealed[key].marketId, w.revealed[key].voter, marketId, voter);
    }
  }

  // ---------- CommitVote ----------

  /** A vote can be committed once a voter and market, from the market's deadline on, with a
      commitment of 64 characters. */
  lemma CommitAnswers(p: Primitives, events: seq<Event>, now: int64, msg: CommitMsg)
    requires Clocked(events)
    ensures var w := Run(p, events);
      CommitVote(w, now, msg).1
      == if msg.marketId !in w.markets.byId then Refused(MarketNotFound)
         else if w.markets.byId[msg.marketId].deadline > 0 && now < w.markets.byId[msg.marketId].deadline
         then Refused(MarketNotReady)
         else if exists c :: HasCommit(w, msg.marketId, msg.creator, c) then Refused(AlreadyCommitted)
         else if |msg.commitment| != 64 then Refused(InvalidRequest)
         else Accepted
  {
    var w := Run(p, events);
    RunKeeps(p, events);
    var key := Text(msg.marketId) + "/" + msg.creator;
    forall c
      ensures HasCommit(w, msg.marketId, msg.creator, c) <==> key in w.commits && w.commits[key].commitment == c
    {
      CommitIsKeyed(p, w, Now(events), msg.marketId, msg.creator, c);
    }
    if key in w.commits {
      assert HasCommit(w, msg.marketId, msg.creator, w.commits[key].commitment);
    }
  }

  /** An accepted commit adds just its own record. */
  lemma CommitStores(w: World, now: int64, msg: CommitMsg)
    ensures var (w', answer) := CommitVote(w, now, msg);
      var key := Text(msg.marketId) + "/" + msg.creator;
      && (answer != Accepted ==> w' == w)
      && (answer == Accepted ==>
          && w'.markets == w.markets && w'.revealed == w.revealed && w'.outcomes == w.outcomes && w'.scores == w.scores
          && w'.commits == w.commits[key := VoteCommit(msg.marketId, msg.creator, msg.commitment)]
          && key !in w.commits)
  {
    CommitShape(w, now, msg);
  }

  // ---------- RevealVote ----------

  /** A reveal must open the voter's own commit: the hash of the vote followed by the nonce is
      the commitment. Then it counts once, for a vote that is an outcome up to case, with a
      nonce of 8 to 64 characters. */
  lemma RevealAnswers(p: Primitives, events: seq<Event>, msg: RevealMsg)
    requires Clocked(events)
    ensures var w := Run(p, events);
      RevealVote(p, w, msg).1
      == if forall c :: !HasCommit(w, msg.marketId, msg.creator, c) then Refused(NoCommitmentFound)
         else if !HasCommit(w, msg.marketId, msg.creator, p.hash(msg.vote + msg.nonce)) then Refused(CommitmentMismatch)
         else if HasRevealed(w, msg.marketId, msg.creator) then Refused(AlreadyRevealed)
         else if msg.marketId !in w.markets.byId then Refused(MarketNotFound)
         else if forall o :: o in w.markets.byId[msg.marketId].outcomes ==> !p.equalFold(o, msg.vote)
         then Refused(InvalidVote)
         else if !(8 <= |msg.nonce| <= 64) then Refused(InvalidNonce)
         else Accepted
  {
    var w := Run(p, events);
    RunKeeps(p, events);
    var key := Text(msg.marketId) + "/" + msg.creator;
    forall c
      ensures HasCommit(w, msg.marketId, msg.creator, c) <==> key in w.commits && w.commits[key].commitment == c
    {
      CommitIsKeyed(p, w, Now(events), msg.marketId, msg.creator, c);
    }
    if key in w.commits {
      assert HasCommit(w, msg.marketId, msg.creator, w.commits[key].commitment);
    }
    RevealIsKeyed(p, w, Now(events), msg.marketId, msg.creator);
    MarketHasOutcomes(w, msg.marketId);
    if msg.marketId in w.markets.byId {
      FoldedAmong(p, w.markets.byId[msg.marketId].outcomes, msg.vote);
    }
  }

  lemma FoldedAmong(p: Primitives, outcomes: seq<string>, vote: string)
    ensures IsOutcome(p, outcomes, vote) <==> exists o :: o in outcomes && p.equalFold(o, vote)
  {
    if o :| o in outcomes && p.equalFold(o, vote) {
      var i :| 0 <= i < |outcomes| && outcomes[i] == o;
    }
  }

  /** An accepted reveal adds just its own record. */
  lemma RevealStores(p: Primitives, w: World, msg: RevealMsg)
    ensures var (w', answer) := RevealVote(p, w, msg);
      var key := Text(msg.marketId) + "/" + msg.creator;
      && (answer != Accepted ==> w' == w)
      && (answer == Accepted ==>
          && w'.markets == w.markets && w'.commits == w.commits && w'.outcomes == w.outcomes && w'.scores == w.scores
          && w'.revealed == w.revealed[key := VoteReveal(msg.marketId, msg.creator, msg.vote, msg.nonce)]
          && key !in w.revealed)
  {
  }

  // ---------- FinalizeOutcome ----------

  lemma SomeRevealed(w: World, marketId: uint64)
    ensures HasReveal(w.revealed, marketId) <==> exists voter :: HasRevealed(w, marketId, voter)
  {
    if HasReveal(w.revealed, marketId) {
      var k :| k in w.revealed && w.revealed[k].marketId == marketId;
      assert HasRevealed(w, marketId, w.revealed[k].voter);
    }
    if voter :| HasRevealed(w, marketId, voter) {
      var k :| k in w.revealed && w.revealed[k].marketId == marketId && w.revealed[k].voter == voter;
      assert HasReveal(w.revealed, marketId);
    }
  }

  /** Some reveal is stored under a key shorter than the market's prefix. */
  ghost predicate ShortKey(w: World, marketId: uint64) {
    exists k :: k in w.revealed && 0 < |k| < |Text(marketId)| + 1
  }

  lemma ShortKeys(w: World, marketId: uint64)
    ensures LongKeys(w.revealed, marketId) <==> !ShortKey(w, marketId)
  {
    assert |Prefix(marketId)| == |Text(marketId)| + 1;
    if !LongKeys(w.revealed, marketId) {
      var k :| k in w.revealed && k != "" && |k| < |Prefix(marketId)|;
      assert 0 < |k|;
    }
  }

  lemma ScanAnswers(w: World, marketId: uint64, order: seq<string>, found: Option<seq<Reveal>>)
    requires marketId !in w.outcomes && marketId in w.markets.byId && All(w.revealed, marketId) == found
    ensures FinalizeOutcome(w, marketId, order).1
         == match found
            case None => Refused(SliceOutOfRange)
            case Some(rs) => if rs == [] then Refused(NoRevealsFound) else Accepted
  {
  }

  /** A market is finalized once, if it has a reveal; unless the scan of the reveals panics on a
      key that is shorter than the market's prefix. */
  lemma FinalizeAnswers(p: Primitives, events: seq<Event>, marketId: uint64, order: seq<string>)
    requires Clocked(events)
    ensures var w := Run(p, events);
      FinalizeOutcome(w, marketId, order).1
      == if marketId in w.outcomes then Refused(OutcomeAlreadyFinalized)
         else if marketId !in w.markets.byId then Refused(MarketNotFound)
         else if ShortKey(w, marketId) then Refused(SliceOutOfRange)
         else if forall voter :: !HasRevealed(w, marketId, voter) then Refused(NoRevealsFound)
         else Accepted
  {
    var w := Run(p, events);
    RunKeeps(p, events);
    SomeRevealed(w, marketId);
    ShortKeys(w, marketId);
    ScanFinds(w, marketId);
    if marketId !in w.outcomes && marketId in w.markets.byId {
      ScanAnswers(w, marketId, order, All(w.revealed, marketId));
    }
  }

  /** An accepted finalization adds one outcome, and touches nothing else but the scores. */
  lemma FinalizeStores(w: World, marketId: uint64, order: seq<string>)
    ensures var (w', answer) := FinalizeOutcome(w, marketId, order);
      && w'.markets == w.markets && w'.commits == w.commits && w'.revealed == w.revealed
      && (answer != Accepted ==> w' == w)
      && (answer == Accepted ==>
          && marketId !in w.outcomes && marketId in w'.outcomes
          && w'.outcomes == w.outcomes[marketId := w'.outcomes[marketId]])
  {
    var (w', answer) := FinalizeOutcome(w, marketId, order);
    assert marketId in w'.outcomes ==> w'.outcomes == w.outcomes[marketId := w'.outcomes[marketId]];
  }
}
