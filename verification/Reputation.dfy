/** Reputation scores: decimal text in a store, adjusted by a clamped int64 step. */
module Reputation {
  import opened GoInt
  import opened Results
  import opened Decimal

  datatype ReputationScore = ReputationScore(address: string, score: string, groupId: string)

  type Scores = map<string, ReputationScore>

  /** AdjustReputationScore; None when the stored text does not parse. */
  function Adjust(scores: Scores, address: string, groupId: string, adjustment: int64): Option<Scores> {
    var key := ScoreKey(address, groupId);
    var current := if key in scores then ParseInt(scores[key].score) else Some(0);
    match current
    case None => None
    case Some(c) =>
      var sum := ToInt64(c as int + adjustment as int);
      var newScore := if sum < 0 then 0 else sum;
      Some(scores[key := ReputationScore(address, FormatInt(newScore), groupId)])
  }

  /** Every stored score is the text of a natural number. */
  ghost predicate ScoresOk(scores: Scores) {
    forall k :: k in scores ==> ParseInt(scores[k].score).Some? && ParseInt(scores[k].score).value >= 0
  }

  /** The score under a key, absent counting as zero. */
  function ScoreAt(scores: Scores, key: string): int64 {
    if key in scores && ParseInt(scores[key].score).Some? then ParseInt(scores[key].score).value else 0
  }

  function Clamp(x: int): int {
    if x < 0 then 0 else x
  }

  lemma StoreScore(scores: Scores, key: string, r: ReputationScore, n: int64)
    requires ScoresOk(scores) && n >= 0 && ParseInt(r.score) == Some(n)
    ensures ScoresOk(scores[key := r]) && ScoreAt(scores[key := r], key) == n
    ensures forall k :: k != key ==> ScoreAt(scores[key := r], k) == ScoreAt(scores, k)
  {
  }

  /** The new score and its place, as numbers. */
  function NewScore(current: int64, adjustment: int64): int64 {
    Clamp(ToInt64(current as int + adjustment as int))
  }

  lemma AdjustShape(scores: Scores, address: string, groupId: string, adjustment: int64)
    requires ScoresOk(scores)
    ensures var key := ScoreKey(address, groupId);
      Adjust(scores, address, groupId, adjustment)
      == Some(scores[key := ReputationScore(address, FormatInt(NewScore(ScoreAt(scores, key), adjustment)), groupId)])
  {
  }

  lemma AdjustExact(scores: Scores, address: string, groupId: string, adjustment: int64)
    requires ScoresOk(scores)
    ensures Adjust(scores, address, groupId, adjustment).Some?
    ensures var key, s' := ScoreKey(address, groupId), Adjust(scores, address, groupId, adjustment).value;
      && ScoresOk(s') && s'.Keys == scores.Keys + {key}
      && ScoreAt(s', key) == NewScore(ScoreAt(scores, key), adjustment)
      && forall k :: k != key ==> ScoreAt(s', k) == ScoreAt(scores, k)
  {
    AdjustShape(scores, address, groupId, adjustment);
    var key := ScoreKey(address, groupId);
    var n := NewScore(ScoreAt(scores, key), adjustment);
    FormatRoundTrip(n);
    StoreScore(scores, key, ReputationScore(address, FormatInt(n), groupId), n);
  }

  // ---------- The walk of one score ----------

  /** A score after adjustments, absent overflow: it cannot fall below zero. */
  function Walk(start: int, adjustments: seq<int>): int {
    if adjustments == [] then start
    else
      var n := |adjustments| - 1;
      Clamp(Walk(start, adjustments[..n]) + adjustments[n])
  }

  /** The prefix sum A_n. */
  function Total(adjustments: seq<int>): int {
    if adjustments == [] then 0
    else
      var n := |adjustments| - 1;
      Total(adjustments[..n]) + adjustments[n]
  }

  /** low is the least of 0 and the start + A_k for 1 <= k <= n. */
  ghost predicate IsLow(start: int, adjustments: seq<int>, low: int) {
    && low <= 0
    && (forall k :: 1 <= k <= |adjustments| ==> low <= start + Total(adjustments[..k]))
    && (low == 0 || exists k :: 1 <= k <= |adjustments| && low == start + Total(adjustments[..k]))
  }

  /** The walk in closed form: the unclamped end point, raised by the deepest
      point below zero it would have passed. */
  lemma {:induction false} WalkClosedForm(start: int, adjustments: seq<int>, low: int)
    requires start >= 0 && IsLow(start, adjustments, low)
    ensures Walk(start, adjustments) == start + Total(adjustments) - low
  {
    if adjustments != [] {
      var n := |adjustments| - 1;
      var front := adjustments[..n];
      var before := LowExists(start, front);
      WalkClosedForm(start, front, before);
      LowStep(start, adjustments, before, low);
    }
  }

  /** points lists start + A_k for k from 0 to n. */
  ghost predicate ArePoints(start: int, adjustments: seq<int>, points: seq<int>) {
    |points| == |adjustments| + 1
    && forall k :: 0 <= k <= |adjustments| ==> points[k] == start + Total(adjustments[..k])
  }

  ghost predicate IsLowest(points: seq<int>, low: int) {
    && low <= 0
    && (forall k :: 1 <= k < |points| ==> low <= points[k])
    && (low == 0 || exists k :: 1 <= k < |points| && low == points[k])
  }

  lemma LowIsLowest(start: int, adjustments: seq<int>, points: seq<int>, low: int)
    requires ArePoints(start, adjustments, points) && IsLow(start, adjustments, low)
    ensures IsLowest(points, low)
  {
    if low != 0 {
      var k :| 1 <= k <= |adjustments| && low == start + Total(adjustments[..k]);
      assert points[k] == low;
    }
  }

  function Points(start: int, adjustments: seq<int>): seq<int> {
    if adjustments == [] then [start]
    else Points(start, adjustments[..|adjustments| - 1]) + [start + Total(adjustments)]
  }

  lemma {:induction false} PointsExact(start: int, adjustments: seq<int>)
    ensures ArePoints(start, adjustments, Points(start, adjustments))
  {
    if adjustments != [] {
      var n := |adjustments| - 1;
      var front := adjustments[..n];
      PointsExact(start, front);
      forall k | 0 <= k <= n + 1 ensures Points(start, adjustments)[k] == start + Total(adjustments[..k]) {
        if k == n + 1 {
          assert adjustments[..k] == adjustments;
        } else {
          assert front[..k] == adjustments[..k];
        }
      }
    }
  }

  lemma LowestStep(points: seq<int>, before: int, low: int)
    requires |points| > 1 && IsLowest(points[..|points| - 1], before) && IsLowest(points, low)
    ensures var last := points[|points| - 1];
      low == if before <= last then before else last
  {
  }

  lemma LowStep(start: int, adjustments: seq<int>, before: int, low: int)
    requires adjustments != [] && IsLow(start, adjustments[..|adjustments| - 1], before)
    requires IsLow(start, adjustments, low)
    ensures low == if before <= start + Total(adjustments) then before else start + Total(adjustments)
  {
    var front := adjustments[..|adjustments| - 1];
    var points, earlier := Points(start, adjustments), Points(start, front);
    PointsExact(start, adjustments);
    PointsExact(start, front);
    LowIsLowest(start, adjustments, points, low);
    LowIsLowest(start, front, earlier, before);
    assert points[..|points| - 1] == earlier;
    LowestStep(points, before, low);
  }

  lemma {:induction false} LowExists(start: int, adjustments: seq<int>) returns (low: int)
    ensures IsLow(start, adjustments, low)
    decreases |adjustments|
  {
    low := 0;
    if adjustments != [] {
      var n := |adjustments| - 1;
      var front := adjustments[..n];
      var before := LowExists(start, front);
      assert adjustments[..|adjustments|] == adjustments;
      assert forall k :: 1 <= k <= n ==> front[..k] == adjustments[..k];
      if before <= start + Total(adjustments) {
        low := before;
        if before != 0 {
          var k :| 1 <= k <= n && before == start + Total(front[..k]);
          assert before == start + Total(adjustments[..k]);
        }
      } else {
        low := start + Total(adjustments);
      }
    }
  }

  /** No step of the walk reaches 2^63. */
  predicate Fits(start: int, adjustments: seq<int>) {
    adjustments == []
    || var n := |adjustments| - 1;
      Fits(start, adjustments[..n]) && Walk(start, adjustments[..n]) + adjustments[n] < 0x8000_0000_0000_0000
  }

  lemma {:induction false} WalkNonNegative(start: int, adjustments: seq<int>)
    requires start >= 0
    ensures Walk(start, adjustments) >= 0
  {
  }

  /** One adjustment without overflow is one step of the walk, of that key only. */
  lemma AdjustStep(scores: Scores, address: string, groupId: string, adjustment: int64)
    requires ScoresOk(scores)
    ensures var key, r := ScoreKey(address, groupId), Adjust(scores, address, groupId, adjustment);
      && r.Some? && ScoresOk(r.value)
      && (forall k :: k != key ==> ScoreAt(r.value, k) == ScoreAt(scores, k))
      && ScoreAt(scores, key) >= 0
      && (ScoreAt(scores, key) as int + adjustment as int < 0x8000_0000_0000_0000 ==>
        ScoreAt(r.value, key) == Clamp(ScoreAt(scores, key) as int + adjustment as int))
  {
    AdjustExact(scores, address, groupId, adjustment);
    NewScoreFits(ScoreAt(scores, ScoreKey(address, groupId)), adjustment);
  }

  lemma NewScoreFits(current: int64, adjustment: int64)
    requires current >= 0
    ensures NewScore(current, adjustment) >= 0
    ensures current as int + adjustment as int < 0x8000_0000_0000_0000 ==>
      NewScore(current, adjustment) == Clamp(current as int + adjustment as int)
  {
  }
}
