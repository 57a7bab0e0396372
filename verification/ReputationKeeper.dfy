/** The reputation keeper as it updates its store. */
module ReputationKeeper {
  import opened GoInt
  import opened Decimal
  import opened Reputation

  class Keeper {
    var scores: Scores

    constructor ()
      ensures scores == map[]
    {
      scores := map[];
    }

    method GetReputationScore(address: string, groupId: string) returns (score: string, found: bool)
      ensures found <==> ScoreKey(address, groupId) in scores
      ensures score == if found then scores[ScoreKey(address, groupId)].score else "0"
    {
      var key := ScoreKey(address, groupId);
      if key !in scores { return "0", false; }
      return scores[key].score, true;
    }

    method SetReputationScore(address: string, groupId: string, score: string)
      modifies this
      ensures scores == old(scores)[ScoreKey(address, groupId) := ReputationScore(address, score, groupId)]
    {
      scores := scores[ScoreKey(address, groupId) := ReputationScore(address, score, groupId)];
    }

    /** A read, a clamped step and a write; nothing changes when the score does not parse. */
    method AdjustReputationScore(address: string, groupId: string, adjustment: int64) returns (ok: bool)
      modifies this
      ensures ok <==> Adjust(old(scores), address, groupId, adjustment).Some?
      ensures scores == if ok then Adjust(old(scores), address, groupId, adjustment).value else old(scores)
    {
      var currentScoreStr, found := GetReputationScore(address, groupId);
      var currentScore: int64 := 0;
      if found {
        var parsed := ParseInt(currentScoreStr);
        if parsed.None? { return false; }
        currentScore := parsed.value;
      }
      var newScore := ToInt64(currentScore as int + adjustment as int);
      if newScore < 0 {
        newScore := 0;
      }
      SetReputationScore(address, groupId, FormatInt(newScore));
      ok := true;
    }
  }
}
