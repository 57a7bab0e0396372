/** Counting a market's revealed votes, weighted by reputation, and choosing the winner. */
module Tally {
  import opened GoInt
  import opened Messages
  import opened Decimal
  import opened Reputation

  type Reveal = VoteReveal<string>

  /** A voter's weight: the score in the group, at least 1; 1 without a usable score. */
  function Weight(scores: Scores, groupId: string, voter: string): int64 {
    var key := ScoreKey(voter, groupId);
    if key !in scores then 1
    else
      match ParseInt(scores[key].score)
      case None => 1
      case Some(score) => if score < 1 then 1 else score
  }

  /** The weights of a group's voters. */
  function WeightIn(scores: Scores, groupId: string): string -> int64 {
    (voter: string) => Weight(scores, groupId, voter)
  }

  /** voteWeights[vote] += weight on an int64. */
  function AddWeight(weights: map<string, int64>, vote: string, weight: int64): map<string, int64> {
    var before := if vote in weights then weights[vote] else 0;
    weights[vote := ToInt64(before as int + weight as int)]
  }

  /** GetReputationWeightedVotes over the collected reveals. */
  function Weights(revealed: seq<Reveal>, weightOf: string -> int64): map<string, int64> {
    if revealed == [] then map[]
    else
      var n := |revealed| - 1;
      AddWeight(Weights(revealed[..n], weightOf), revealed[n].vote, weightOf(revealed[n].voter))
  }

  // ---------- The exact sums ----------

  /** What is revealed for one outcome, in unbounded arithmetic. */
  function VoteSum(revealed: seq<Reveal>, weightOf: string -> int64, vote: string): int {
    if revealed == [] then 0
    else
      var n := |revealed| - 1;
      VoteSum(revealed[..n], weightOf, vote) + if revealed[n].vote == vote then weightOf(revealed[n].voter) else 0
  }

  /** The weight of all the reveals. */
  function TotalWeight(revealed: seq<Reveal>, weightOf: string -> int64): int {
    if revealed == [] then 0
    else
      var n := |revealed| - 1;
      TotalWeight(revealed[..n], weightOf) + weightOf(revealed[n].voter)
  }

  ghost predicate IsVote(revealed: seq<Reveal>, vote: string) {
    exists i :: 0 <= i < |revealed| && revealed[i].vote == vote
  }

  lemma WrapAdd(x: int, w: int)
    ensures ToInt64(ToInt64(x) as int + w) == ToInt64(x + w)
  {
    var k := WrapDistance(x);
    UintIsMod(ToInt64(x) as int + w);
    UintIsMod(x + w);
    WrapMany(ToInt64(x) as int + w, k);
  }

  lemma UintIsMod(x: int)
    ensures ToUint64(x) == x % 0x1_0000_0000_0000_0000
  {
  }

  lemma WrapDistance(x: int) returns (k: int)
    ensures ToInt64(x) as int + k * 0x1_0000_0000_0000_0000 == x
  {
    UintIsMod(x);
    k := x / 0x1_0000_0000_0000_0000;
    if ToInt64(x) < 0 {
      k := k + 1;
    }
  }

  lemma WrapMany(y: int, k: int)
    ensures (y + k * 0x1_0000_0000_0000_0000) % 0x1_0000_0000_0000_0000 == y % 0x1_0000_0000_0000_0000
  {
  }

  /** The table holds exactly the revealed votes, each with its sum modulo 2^64. */
  lemma {:induction false} WeightsExact(revealed: seq<Reveal>, weightOf: string -> int64, vote: string)
    ensures var t := Weights(revealed, weightOf);
      && (vote in t <==> IsVote(revealed, vote))
      && (vote in t ==> t[vote] == ToInt64(VoteSum(revealed, weightOf, vote)))
      && (vote !in t ==> VoteSum(revealed, weightOf, vote) == 0)
  {
    if revealed != [] {
      var n := |revealed| - 1;
      var front := revealed[..n];
      WeightsExact(front, weightOf, vote);
      IsVoteStep(revealed, vote);
      WrapAdd(VoteSum(front, weightOf, vote), weightOf(revealed[n].voter));
    }
  }

  lemma IsVoteStep(revealed: seq<Reveal>, vote: string)
    requires revealed != []
    ensures var n := |revealed| - 1;
      IsVote(revealed, vote) <==> IsVote(revealed[..n], vote) || revealed[n].vote == vote
  {
    var n := |revealed| - 1;
    if IsVote(revealed[..n], vote) {
      var i :| 0 <= i < n && revealed[..n][i].vote == vote;
      assert revealed[i].vote == vote;
    }
    if IsVote(revealed, vote) && revealed[n].vote != vote {
      var i :| 0 <= i < |revealed| && revealed[i].vote == vote;
      assert revealed[..n][i].vote == vote;
    }
  }

  // ---------- Conservation ----------

  /** The exact sums of several outcomes together. */
  function SumOver(revealed: seq<Reveal>, weightOf: string -> int64, votes: seq<string>): int {
    if votes == [] then 0
    else
      var n := |votes| - 1;
      SumOver(revealed, weightOf, votes[..n]) + VoteSum(revealed, weightOf, votes[n])
  }

  ghost predicate Distinct(s: seq<string>) {
    forall i, j :: 0 <= i < j < |s| ==> s[i] != s[j]
  }

  /** No weight is lost or counted twice: over any listing that has every revealed
      outcome once, the outcomes' sums make up the weight of all the reveals. */
  lemma {:induction false} TallyConserves(revealed: seq<Reveal>, weightOf: string -> int64, votes: seq<string>)
    requires Distinct(votes)
    requires forall i :: 0 <= i < |revealed| ==> revealed[i].vote in votes
    ensures SumOver(revealed, weightOf, votes) == TotalWeight(revealed, weightOf)
  {
    if revealed == [] {
      NoneSum(weightOf, votes);
    } else {
      var n := |revealed| - 1;
      assert forall i :: 0 <= i < n ==> revealed[..n][i] == revealed[i];
      TallyConserves(revealed[..n], weightOf, votes);
      OneMore(revealed, weightOf, votes);
    }
  }

  lemma {:induction false} NoneSum(weightOf: string -> int64, votes: seq<string>)
    ensures SumOver([], weightOf, votes) == 0
  {
    if votes != [] {
      NoneSum(weightOf, votes[..|votes| - 1]);
    }
  }

  lemma {:induction false} OneMore(revealed: seq<Reveal>, weightOf: string -> int64, votes: seq<string>)
    requires revealed != [] && Distinct(votes)
    ensures var n := |revealed| - 1;
      SumOver(revealed, weightOf, votes)
      == SumOver(revealed[..n], weightOf, votes) + if revealed[n].vote in votes then weightOf(revealed[n].voter) else 0
  {
    if votes != [] {
      var m := |votes| - 1;
      OneMore(revealed, weightOf, votes[..m]);
      assert votes == votes[..m] + [votes[m]] && votes[m] !in votes[..m];
    }
  }

  /** Every reveal weighs between 1 and bound. */
  ghost predicate Bounded(revealed: seq<Reveal>, weightOf: string -> int64, bound: nat) {
    forall i :: 0 <= i < |revealed| ==> 1 <= weightOf(revealed[i].voter) <= bound
  }

  lemma {:induction false} TotalBounds(revealed: seq<Reveal>, weightOf: string -> int64, bound: nat)
    requires Bounded(revealed, weightOf, bound)
    ensures |revealed| <= TotalWeight(revealed, weightOf) <= |revealed| * bound
  {
    if revealed != [] {
      var n := |revealed| - 1;
      assert forall i :: 0 <= i < n ==> revealed[..n][i] == revealed[i];
      TotalBounds(revealed[..n], weightOf, bound);
      assert |revealed| * bound == n * bound + bound;
    }
  }

  /** Every reveal weighs at least 1, as Weight makes sure. */
  ghost predicate Positive(revealed: seq<Reveal>, weightOf: string -> int64) {
    forall i :: 0 <= i < |revealed| ==> 1 <= weightOf(revealed[i].voter)
  }

  lemma WeightsArePositive(scores: Scores, groupId: string, revealed: seq<Reveal>)
    ensures Positive(revealed, WeightIn(scores, groupId))
  {
    assert forall v: string :: WeightIn(scores, groupId)(v) == Weight(scores, groupId, v) >= 1;
  }

  lemma {:induction false} SumWithinTotal(revealed: seq<Reveal>, weightOf: string -> int64, vote: string)
    requires Positive(revealed, weightOf)
    ensures 0 <= VoteSum(revealed, weightOf, vote) <= TotalWeight(revealed, weightOf)
    ensures |revealed| <= TotalWeight(revealed, weightOf)
    ensures IsVote(revealed, vote) ==> VoteSum(revealed, weightOf, vote) >= 1
  {
    if revealed != [] {
      var n := |revealed| - 1;
      assert forall i :: 0 <= i < n ==> revealed[..n][i] == revealed[i];
      SumWithinTotal(revealed[..n], weightOf, vote);
      IsVoteStep(revealed, vote);
    }
  }

  /** An outcome whose sum fits int64 has that sum in the table. */
  lemma WeightsFit(revealed: seq<Reveal>, weightOf: string -> int64, vote: string)
    requires Positive(revealed, weightOf) && VoteSum(revealed, weightOf, vote) < 0x8000_0000_0000_0000
    ensures var t := Weights(revealed, weightOf);
      && (vote in t <==> IsVote(revealed, vote))
      && (vote in t ==> t[vote] == VoteSum(revealed, weightOf, vote) >= 1)
  {
    WeightsExact(revealed, weightOf, vote);
    SumWithinTotal(revealed, weightOf, vote);
  }

  /** No outcome's sum reaches 2^63. */
  ghost predicate NoOverflow(revealed: seq<Reveal>, weightOf: string -> int64) {
    forall vote :: VoteSum(revealed, weightOf, vote) < 0x8000_0000_0000_0000
  }

  /** The table holds the exact sums. */
  ghost predicate ExactTable(revealed: seq<Reveal>, weightOf: string -> int64) {
    forall vote :: vote in Weights(revealed, weightOf) ==>
      Weights(revealed, weightOf)[vote] == VoteSum(revealed, weightOf, vote)
  }

  /** The table is exact exactly when no outcome's sum overflows. */
  lemma TableExact(revealed: seq<Reveal>, weightOf: string -> int64)
    requires Positive(revealed, weightOf)
    ensures ExactTable(revealed, weightOf) <==> NoOverflow(revealed, weightOf)
  {
    if NoOverflow(revealed, weightOf) {
      forall vote | vote in Weights(revealed, weightOf)
        ensures Weights(revealed, weightOf)[vote] == VoteSum(revealed, weightOf, vote)
      {
        WeightsFit(revealed, weightOf, vote);
      }
    }
    if ExactTable(revealed, weightOf) {
      forall vote ensures VoteSum(revealed, weightOf, vote) < 0x8000_0000_0000_0000 {
        WeightsExact(revealed, weightOf, vote);
      }
    }
  }

  /** With R reveals that weigh at most B each, R * B < 2^63 rules overflow out. */
  lemma BoundedFits(revealed: seq<Reveal>, weightOf: string -> int64, bound: nat)
    requires Bounded(revealed, weightOf, bound) && |revealed| * bound < 0x8000_0000_0000_0000
    ensures Positive(revealed, weightOf) && NoOverflow(revealed, weightOf)
  {
    TotalBounds(revealed, weightOf, bound);
    forall vote ensures VoteSum(revealed, weightOf, vote) < 0x8000_0000_0000_0000 {
      SumWithinTotal(revealed, weightOf, vote);
    }
  }

  /** With overflow a vote everyone agrees on is lost: two voters of the greatest score
      weigh -2 together, and no outcome is chosen. */
  lemma OverflowLosesTheVote(a: Reveal, b: Reveal, weightOf: string -> int64, order: seq<string>)
    requires a.vote == b.vote
    requires weightOf(a.voter) == weightOf(b.voter) == 0x7fff_ffff_ffff_ffff
    ensures Weights([a, b], weightOf) == map[a.vote := -2]
    ensures ArgMax(Weights([a, b], weightOf), order).0 == ""
  {
    assert [a, b][..1] == [a] && [a][..0] == [];
    assert Weights([a], weightOf) == AddWeight(map[], a.vote, weightOf(a.voter))
        == map[a.vote := 0x7fff_ffff_ffff_ffff];
    assert Weights([a, b], weightOf) == AddWeight(Weights([a], weightOf), b.vote, weightOf(b.voter));
    ArgMaxPrefix(Weights([a, b], weightOf), order);
  }

  // ---------- The winner ----------

  /** The loop over the table, whose keys come in some order: the consensus and its weight. */
  function ArgMax(weights: map<string, int64>, order: seq<string>): (string, int64) {
    if order == [] then ("", 0)
    else
      var n := |order| - 1;
      var best := ArgMax(weights, order[..n]);
      if order[n] in weights && weights[order[n]] > best.1 then (order[n], weights[order[n]]) else best
  }

  /** order lists s, each element once. */
  ghost predicate Lists(order: seq<string>, s: set<string>) {
    Distinct(order) && forall x :: x in order <==> x in s
  }

  ghost predicate IsTop(weights: map<string, int64>, c: string) {
    c in weights && weights[c] > 0 && forall k :: k in weights ==> weights[k] <= weights[c]
  }

  /** What the loop may choose: an outcome of greatest weight, or nothing when no weight is positive. */
  ghost predicate IsWinner(weights: map<string, int64>, c: string) {
    IsTop(weights, c) || (c == "" && forall k :: k in weights ==> weights[k] <= 0)
  }

  lemma {:induction false} ArgMaxPrefix(weights: map<string, int64>, order: seq<string>)
    ensures var (c, m) := ArgMax(weights, order);
      && (forall i :: 0 <= i < |order| && order[i] in weights ==> weights[order[i]] <= m)
      && ((c, m) == ("", 0) || (c in order && c in weights && weights[c] == m > 0))
  {
    if order != [] {
      ArgMaxPrefix(weights, order[..|order| - 1]);
      assert order == order[..|order| - 1] + [order[|order| - 1]];
    }
  }

  /** Whatever the iteration order, the choice is a winner. */
  lemma ArgMaxIsWinner(weights: map<string, int64>, order: seq<string>)
    requires Lists(order, weights.Keys)
    ensures IsWinner(weights, ArgMax(weights, order).0)
  {
    ArgMaxPrefix(weights, order);
    var m := ArgMax(weights, order).1;
    forall k | k in weights ensures weights[k] <= m {
      assert k in order;
    }
  }

  lemma {:induction false} ArgMaxStays(weights: map<string, int64>, order: seq<string>, c: string)
    requires IsTop(weights, c) && order != [] && order[0] == c
    ensures ArgMax(weights, order) == (c, weights[c])
  {
    if |order| > 1 {
      ArgMaxStays(weights, order[..|order| - 1], c);
    } else {
      assert order[..0] == [];
    }
  }

  lemma {:induction false} OrderExists(s: set<string>) returns (order: seq<string>)
    ensures Lists(order, s)
    decreases |s|
  {
    order := [];
    if s != {} {
      var x :| x in s;
      var rest := OrderExists(s - {x});
      order := [x] + rest;
    }
  }

  /** Exactly the winners can be chosen: each is the choice of some iteration order. */
  lemma WinnersExact(weights: map<string, int64>, c: string)
    ensures IsWinner(weights, c)
       <==> exists order :: Lists(order, weights.Keys) && ArgMax(weights, order).0 == c
  {
    if IsWinner(weights, c) {
      if IsTop(weights, c) {
        var rest := OrderExists(weights.Keys - {c});
        var order := [c] + rest;
        ArgMaxStays(weights, order, c);
        assert Lists(order, weights.Keys);
      } else {
        var order := OrderExists(weights.Keys);
        ArgMaxPrefix(weights, order);
        assert Lists(order, weights.Keys) && ArgMax(weights, order).0 == c;
      }
    } else {
      forall order | Lists(order, weights.Keys) ensures ArgMax(weights, order).0 != c {
        ArgMaxIsWinner(weights, order);
      }
    }
  }

  /** The choice is independent of the iteration order exactly when there is one winner. */
  lemma OrderIrrelevant(weights: map<string, int64>)
    ensures (forall a, b :: Lists(a, weights.Keys) && Lists(b, weights.Keys) ==>
              ArgMax(weights, a).0 == ArgMax(weights, b).0)
       <==> (forall c, d :: IsWinner(weights, c) && IsWinner(weights, d) ==> c == d)
  {
    if forall c, d :: IsWinner(weights, c) && IsWinner(weights, d) ==> c == d {
      forall a, b | Lists(a, weights.Keys) && Lists(b, weights.Keys)
        ensures ArgMax(weights, a).0 == ArgMax(weights, b).0
      {
        ArgMaxIsWinner(weights, a);
        ArgMaxIsWinner(weights, b);
      }
    } else {
      var c, d :| IsWinner(weights, c) && IsWinner(weights, d) && c != d;
      WinnersExact(weights, c);
      WinnersExact(weights, d);
      var a :| Lists(a, weights.Keys) && ArgMax(weights, a).0 == c;
      var b :| Lists(b, weights.Keys) && ArgMax(weights, b).0 == d;
      assert Lists(a, weights.Keys) && Lists(b, weights.Keys) && ArgMax(weights, a).0 != ArgMax(weights, b).0;
    }
  }
}
