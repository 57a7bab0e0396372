/** How far a commitment binds a vote. The hash is over the vote and the nonce run
    together, so where one ends and the other begins is not part of it. */
module Binding {
  import opened Decimal
  import opened Markets
  import opened Settlement

  /** The tests of RevealVote on a vote and a nonce. */
  predicate Acceptable(p: Primitives, outcomes: seq<string>, vote: string, nonce: string) {
    8 <= |nonce| <= 64 && IsOutcome(p, outcomes, vote)
  }

  /** RevealVote takes this vote and nonce for an opening of the commitment. */
  predicate Opens(p: Primitives, outcomes: seq<string>, commitment: string, vote: string, nonce: string) {
    commitment == Commitment(p, vote, nonce) && Acceptable(p, outcomes, vote, nonce)
  }

  /** The hash does not collide on texts that could be revealed. */
  ghost predicate CollisionFree(p: Primitives, outcomes: seq<string>) {
    forall u, n, v, k :: Acceptable(p, outcomes, u, n) && Opens(p, outcomes, Commitment(p, u, n), v, k) ==>
      u + n == v + k
  }

  /** A reveal is accepted exactly when it is the first for its key and opens the commitment there. */
  lemma RevealOpens(p: Primitives, w: World, msg: RevealMsg)
    requires MarketsOk(w.markets)
    ensures var key := MarketVoterKey(msg.marketId, msg.creator);
      RevealVote(p, w, msg).1 == Accepted
      <==> && key in w.commits && key !in w.revealed && msg.marketId in w.markets.byId
           && Opens(p, w.markets.byId[msg.marketId].outcomes, w.commits[key].commitment, msg.vote, msg.nonce)
  {
    MarketHasOutcomes(w, msg.marketId);
    RevealShape(p, w, msg);
  }

  /** Where a reveal is accepted, another vote and nonce would be exactly when they run
      together to the same text and pass the other tests. */
  lemma OtherOpening(p: Primitives, w: World, msg: RevealMsg, vote: string, nonce: string)
    requires MarketsOk(w.markets) && RevealVote(p, w, msg).1 == Accepted && msg.marketId in w.markets.byId
    requires CollisionFree(p, w.markets.byId[msg.marketId].outcomes)
    ensures RevealVote(p, w, msg.(vote := vote, nonce := nonce)).1 == Accepted
       <==> msg.vote + msg.nonce == vote + nonce && Acceptable(p, w.markets.byId[msg.marketId].outcomes, vote, nonce)
  {
    RevealOpens(p, w, msg);
    RevealOpens(p, w, msg.(vote := vote, nonce := nonce));
  }

  /** No acceptable vote goes on from another by at most 56 characters, which a nonce could take over. */
  ghost predicate WellSeparated(p: Primitives, outcomes: seq<string>) {
    forall u, v :: IsOutcome(p, outcomes, u) && IsOutcome(p, outcomes, v) && u < v ==> |v| - |u| > 56
  }

  ghost predicate Binds(p: Primitives, outcomes: seq<string>) {
    forall c, u, n, v, k :: Opens(p, outcomes, c, u, n) && Opens(p, outcomes, c, v, k) ==> u == v
  }

  /** Two splits of one text: the shorter vote is a prefix of the longer, and the nonces
      make up the difference. */
  lemma Splits(u: string, n: string, v: string, k: string)
    requires u + n == v + k && |u| <= |v|
    ensures u <= v && |v| - |u| == |n| - |k| && (|u| == |v| ==> u == v)
  {
    assert u == (u + n)[..|u|] == (v + k)[..|u|] == v[..|u|];
  }

  /** A commitment binds its vote, whatever it is, exactly on markets whose acceptable votes
      are well separated. */
  lemma BindsExactly(p: Primitives, outcomes: seq<string>)
    requires CollisionFree(p, outcomes)
    ensures Binds(p, outcomes) <==> WellSeparated(p, outcomes)
  {
    if WellSeparated(p, outcomes) {
      forall c, u, n, v, k | Opens(p, outcomes, c, u, n) && Opens(p, outcomes, c, v, k) ensures u == v {
        if |u| <= |v| {
          Splits(u, n, v, k);
        } else {
          Splits(v, k, u, n);
        }
      }
    }
    if Binds(p, outcomes) {
      forall u, v | IsOutcome(p, outcomes, u) && IsOutcome(p, outcomes, v) && u < v ensures |v| - |u| > 56 {
        if |v| - |u| <= 56 {
          TwoOpenings(p, outcomes, u, v, "12345678");
        }
      }
    }
  }

  lemma TwoOpenings(p: Primitives, outcomes: seq<string>, u: string, v: string, nonce: string)
    requires IsOutcome(p, outcomes, u) && IsOutcome(p, outcomes, v) && u < v
    requires |nonce| == 8 && |v| - |u| <= 56
    ensures Opens(p, outcomes, Commitment(p, v, nonce), v, nonce)
    ensures Opens(p, outcomes, Commitment(p, v, nonce), u, v[|u|..] + nonce)
  {
    assert u + (v[|u|..] + nonce) == v + nonce;
  }
}
