/** The generated codecs of the messages nested in the settlement genesis state.
    A pointer receiver is a value passed in and handed back. */
module VoteCodec {
  import opened GoInt
  import opened Results
  import opened Buffers
  import opened Wire
  import opened WirePrint
  import opened Messages

  // ---------- Params: a message without fields ----------

  const PARAMS_SCHEMA: Schema := map[]

  function ApplyParams(p: Params, f: Field): Result<Params> {
    Ok(p)
  }

  function ReadParamsField(data: Slice, i: nat): Result<(Field, nat)> {
    ReadField(PARAMS_SCHEMA, data, i)
  }

  function ParseParams(p: Params, data: Slice): Result<Params> {
    Parse(ReadParamsField, ApplyParams, p, data, 0)
  }

  method UnmarshalParams(p: Params, dAtA: Slice) returns (err: Option<Error>)
    ensures ParseParams(p, dAtA) == if err.Some? then Err(err.value) else Ok(p)
  {
    var l, iNdEx := |dAtA|, 0;
    while iNdEx < l
      invariant 0 <= iNdEx <= l
      invariant Parse(ReadParamsField, ApplyParams, p, dAtA, iNdEx) == ParseParams(p, dAtA)
    {
      var tag := TagLoop(dAtA, iNdEx);
      if tag.Err? { return Some(tag.error); }
      var next := DefaultCase(dAtA, iNdEx);
      if next.Err? { return Some(next.error); }
      iNdEx := next.value;
    }
    return None;
  }

  // ---------- VoteCommit ----------

  type Commit = VoteCommit<seq<byte>>

  const EMPTY_COMMIT: Commit := VoteCommit(0, [], [])

  const COMMIT_SCHEMA: Schema := map[1 := VarintKind, 2 := BytesKind, 3 := BytesKind]

  function ApplyCommit(m: Commit, f: Field): Result<Commit> {
    if f.Unknown? then Ok(m)
    else if f.Num? then
      Ok(if f.num == 1 then m.(marketId := f.v) else m)
    else
      Ok(match f.num
         case 2 => m.(voter := f.b)
         case 3 => m.(commitment := f.b)
         case _ => m)
  }

  function ReadCommitField(data: Slice, i: nat): Result<(Field, nat)> {
    ReadField(COMMIT_SCHEMA, data, i)
  }

  function ParseCommit(m: Commit, data: Slice): Result<Commit> {
    Parse(ReadCommitField, ApplyCommit, m, data, 0)
  }

  function CommitGroups(m: Commit): seq<seq<Field>> {
    [NumFields(1, m.marketId), StringFields(2, m.voter), StringFields(3, m.commitment)]
  }

  function CommitParts(m: Commit): seq<seq<byte>> {
    [NumBytes(0x08, m.marketId), StringBytes(0x12, m.voter), StringBytes(0x1a, m.commitment)]
  }

  function CommitBytes(m: Commit): seq<byte> {
    Join(CommitParts(m), 0)
  }

  /** The struct after the first k fields of m. */
  function CommitUpto(m: Commit, k: nat): Commit {
    VoteCommit(if k > 0 then m.marketId else 0, if k > 1 then m.voter else [], if k > 2 then m.commitment else [])
  }

  lemma CommitGroup(m: Commit, k: nat)
    requires k < 3
    ensures AllFit(COMMIT_SCHEMA, CommitGroups(m)[k])
    ensures CommitParts(m)[k] == FieldsBytes(COMMIT_SCHEMA, CommitGroups(m)[k])
    ensures ApplyAll(ApplyCommit, CommitUpto(m, k), CommitGroups(m)[k]) == Ok(CommitUpto(m, k + 1))
  {
    match k
    case 0 => NumGroup(COMMIT_SCHEMA, 1, m.marketId);
    case 1 => StringGroup(COMMIT_SCHEMA, 2, m.voter);
    case _ => StringGroup(COMMIT_SCHEMA, 3, m.commitment);
  }

  /** Unmarshal into a fresh struct undoes Marshal. */
  lemma CommitRoundTrip(m: Commit)
    requires |CommitBytes(m)| < 0x8000_0000_0000_0000
    ensures ParseCommit(EMPTY_COMMIT, CommitBytes(m)) == Ok(m)
  {
    var ms := seq(4, k requires 0 <= k <= 3 => CommitUpto(m, k));
    forall k | 0 <= k < 3
      ensures AllFit(COMMIT_SCHEMA, CommitGroups(m)[k])
      ensures CommitParts(m)[k] == FieldsBytes(COMMIT_SCHEMA, CommitGroups(m)[k])
      ensures ApplyAll(ApplyCommit, ms[k], CommitGroups(m)[k]) == Ok(ms[k + 1])
    {
      CommitGroup(m, k);
    }
    ParseMessage(COMMIT_SCHEMA, ReadCommitField, ApplyCommit, ms, CommitGroups(m), CommitParts(m));
  }

  method SizeCommit(m: Commit) returns (n: nat)
    requires |CommitBytes(m)| < 0x8000_0000_0000_0000
    ensures n == |CommitBytes(m)|
  {
    ghost var p := CommitParts(m);
    assert |Join(p, 0)| == |p[0]| + |p[1]| + |p[2]| by {
      assert |Join(p, 2)| == |p[2]| + |Join(p, 3)|;
      assert |Join(p, 1)| == |p[1]| + |Join(p, 2)|;
      assert |Join(p, 0)| == |p[0]| + |Join(p, 1)|;
    }
    n := SizeNum(m.marketId);
    var l := SizeString(m.voter, 0x12);
    n := n + l;
    l := SizeString(m.commitment, 0x1a);
    n := n + l;
  }

  method MarshalCommit(m: Commit, dAtA: array<byte>, end: nat) returns (n: nat)
    requires |CommitBytes(m)| < 0x8000_0000_0000_0000 && |CommitBytes(m)| <= end <= dAtA.Length
    modifies dAtA
    ensures n == |CommitBytes(m)|
    ensures dAtA[..] == Splice(old(dAtA[..]), end - n, CommitBytes(m))
  {
    ghost var p, o := CommitParts(m), dAtA[..];
    var i := end;
    i := StringPart(dAtA, i, 0x1a, m.commitment, p, 2, o, end);
    i := StringPart(dAtA, i, 0x12, m.voter, p, 1, o, end);
    i := NumPart(dAtA, i, 0x08, m.marketId, p, 0, o, end);
    n := end - i;
  }

  /** The parser's switch: the payload at iNdEx of the record at preIndex. */
  method SwitchCommit(start: Commit, dAtA: Slice, fieldNum: int, wireType: int, preIndex: nat, iNdEx: nat)
    returns (m: Commit, r: Result<nat>)
    requires preIndex < iNdEx <= |dAtA|
    ensures match ReadPayload(COMMIT_SCHEMA, dAtA, preIndex, fieldNum, wireType, iNdEx)
      case Err(e) => r == Err(e)
      case Ok((f, j)) => r == Ok(j) && ApplyCommit(start, f) == Ok(m)
  {
    match fieldNum {
      case 1 =>
        var x := NumCase(dAtA, wireType, iNdEx);
        if x.Err? { return start, Err(x.error); }
        return start.(marketId := x.value.0), Ok(x.value.1);
      case 2 =>
        var x := BytesCase(dAtA, wireType, iNdEx);
        if x.Err? { return start, Err(x.error); }
        return start.(voter := x.value.0), Ok(x.value.1);
      case 3 =>
        var x := BytesCase(dAtA, wireType, iNdEx);
        if x.Err? { return start, Err(x.error); }
        return start.(commitment := x.value.0), Ok(x.value.1);
      case _ =>
        var x := DefaultCase(dAtA, preIndex);
        return start, x;
    }
  }

  /** Parses into a struct that holds start. */
  method UnmarshalCommit(start: Commit, dAtA: Slice) returns (m: Commit, err: Option<Error>)
    ensures ParseCommit(start, dAtA) == if err.Some? then Err(err.value) else Ok(m)
  {
    m := start;
    var l, iNdEx := |dAtA|, 0;
    while iNdEx < l
      invariant 0 <= iNdEx <= l
      invariant Parse(ReadCommitField, ApplyCommit, m, dAtA, iNdEx) == ParseCommit(start, dAtA)
    {
      var tag := TagLoop(dAtA, iNdEx);
      if tag.Err? { return m, Some(tag.error); }
      var next;
      m, next := SwitchCommit(m, dAtA, tag.value.0, tag.value.1, iNdEx, tag.value.2);
      if next.Err? { return m, Some(next.error); }
      iNdEx := next.value;
    }
    return m, None;
  }

  // ---------- VoteReveal ----------

  type Reveal = VoteReveal<seq<byte>>

  const EMPTY_REVEAL: Reveal := VoteReveal(0, [], [], [])

  const REVEAL_SCHEMA: Schema := map[1 := VarintKind, 2 := BytesKind, 3 := BytesKind, 4 := BytesKind]

  function ApplyReveal(m: Reveal, f: Field): Result<Reveal> {
    if f.Unknown? then Ok(m)
    else if f.Num? then
      Ok(if f.num == 1 then m.(marketId := f.v) else m)
    else
      Ok(match f.num
         case 2 => m.(voter := f.b)
         case 3 => m.(vote := f.b)
         case 4 => m.(nonce := f.b)
         case _ => m)
  }

  function ReadRevealField(data: Slice, i: nat): Result<(Field, nat)> {
    ReadField(REVEAL_SCHEMA, data, i)
  }

  function ParseReveal(m: Reveal, data: Slice): Result<Reveal> {
    Parse(ReadRevealField, ApplyReveal, m, data, 0)
  }

  function RevealGroups(m: Reveal): seq<seq<Field>> {
    [NumFields(1, m.marketId), StringFields(2, m.voter), StringFields(3, m.vote), StringFields(4, m.nonce)]
  }

  function RevealParts(m: Reveal): seq<seq<byte>> {
    [NumBytes(0x08, m.marketId), StringBytes(0x12, m.voter), StringBytes(0x1a, m.vote), StringBytes(0x22, m.nonce)]
  }

  function RevealBytes(m: Reveal): seq<byte> {
    Join(RevealParts(m), 0)
  }

  /** The struct after the first k fields of m. */
  function RevealUpto(m: Reveal, k: nat): Reveal {
    VoteReveal(if k > 0 then m.marketId else 0, if k > 1 then m.voter else [], if k > 2 then m.vote else [],
               if k > 3 then m.nonce else [])
  }

  lemma RevealGroup(m: Reveal, k: nat)
    requires k < 4
    ensures AllFit(REVEAL_SCHEMA, RevealGroups(m)[k])
    ensures RevealParts(m)[k] == FieldsBytes(REVEAL_SCHEMA, RevealGroups(m)[k])
    ensures ApplyAll(ApplyReveal, RevealUpto(m, k), RevealGroups(m)[k]) == Ok(RevealUpto(m, k + 1))
  {
    match k
    case 0 => NumGroup(REVEAL_SCHEMA, 1, m.marketId);
    case 1 => StringGroup(REVEAL_SCHEMA, 2, m.voter);
    case 2 => StringGroup(REVEAL_SCHEMA, 3, m.vote);
    case _ => StringGroup(REVEAL_SCHEMA, 4, m.nonce);
  }

  /** Unmarshal into a fresh struct undoes Marshal. */
  lemma RevealRoundTrip(m: Reveal)
    requires |RevealBytes(m)| < 0x8000_0000_0000_0000
    ensures ParseReveal(EMPTY_REVEAL, RevealBytes(m)) == Ok(m)
  {
    var ms := seq(5, k requires 0 <= k <= 4 => RevealUpto(m, k));
    forall k | 0 <= k < 4
      ensures AllFit(REVEAL_SCHEMA, RevealGroups(m)[k])
      ensures RevealParts(m)[k] == FieldsBytes(REVEAL_SCHEMA, RevealGroups(m)[k])
      ensures ApplyAll(ApplyReveal, ms[k], RevealGroups(m)[k]) == Ok(ms[k + 1])
    {
      RevealGroup(m, k);
    }
    ParseMessage(REVEAL_SCHEMA, ReadRevealField, ApplyReveal, ms, RevealGroups(m), RevealParts(m));
  }

  method SizeReveal(m: Reveal) returns (n: nat)
    requires |RevealBytes(m)| < 0x8000_0000_0000_0000
    ensures n == |RevealBytes(m)|
  {
    ghost var p := RevealParts(m);
    assert |Join(p, 0)| == |p[0]| + |p[1]| + |p[2]| + |p[3]| by {
      assert |Join(p, 3)| == |p[3]| + |Join(p, 4)|;
      assert |Join(p, 2)| == |p[2]| + |Join(p, 3)|;
      assert |Join(p, 1)| == |p[1]| + |Join(p, 2)|;
      assert |Join(p, 0)| == |p[0]| + |Join(p, 1)|;
    }
    n := SizeNum(m.marketId);
    var l := SizeString(m.voter, 0x12);
    n := n + l;
    l := SizeString(m.vote, 0x1a);
    n := n + l;
    l := SizeString(m.nonce, 0x22);
    n := n + l;
  }

  method MarshalReveal(m: Reveal, dAtA: array<byte>, end: nat) returns (n: nat)
    requires |RevealBytes(m)| < 0x8000_0000_0000_0000 && |RevealBytes(m)| <= end <= dAtA.Length
    modifies dAtA
    ensures n == |RevealBytes(m)|
    ensures dAtA[..] == Splice(old(dAtA[..]), end - n, RevealBytes(m))
  {
    ghost var p, o := RevealParts(m), dAtA[..];
    var i := end;
    i := StringPart(dAtA, i, 0x22, m.nonce, p, 3, o, end);
    i := StringPart(dAtA, i, 0x1a, m.vote, p, 2, o, end);
    i := StringPart(dAtA, i, 0x12, m.voter, p, 1, o, end);
    i := NumPart(dAtA, i, 0x08, m.marketId, p, 0, o, end);
    n := end - i;
  }

  /** The parser's switch: the payload at iNdEx of the record at preIndex. */
  method SwitchReveal(start: Reveal, dAtA: Slice, fieldNum: int, wireType: int, preIndex: nat, iNdEx: nat)
    returns (m: Reveal, r: Result<nat>)
    requires preIndex < iNdEx <= |dAtA|
    ensures match ReadPayload(REVEAL_SCHEMA, dAtA, preIndex, fieldNum, wireType, iNdEx)
      case Err(e) => r == Err(e)
      case Ok((f, j)) => r == Ok(j) && ApplyReveal(start, f) == Ok(m)
  {
    match fieldNum {
      case 1 =>
        var x := NumCase(dAtA, wireType, iNdEx);
        if x.Err? { return start, Err(x.error); }
        return start.(marketId := x.value.0), Ok(x.value.1);
      case 2 =>
        var x := BytesCase(dAtA, wireType, iNdEx);
        if x.Err? { return start, Err(x.error); }
        return start.(voter := x.value.0), Ok(x.value.1);
      case 3 =>
        var x := BytesCase(dAtA, wireType, iNdEx);
        if x.Err? { return start, Err(x.error); }
        return start.(vote := x.value.0), Ok(x.value.1);
      case 4 =>
        var x := BytesCase(dAtA, wireType, iNdEx);
        if x.Err? { return start, Err(x.error); }
        return start.(nonce := x.value.0), Ok(x.value.1);
      case _ =>
        var x := DefaultCase(dAtA, preIndex);
        return start, x;
    }
  }

  /** Parses into a struct that holds start. */
  method UnmarshalReveal(start: Reveal, dAtA: Slice) returns (m: Reveal, err: Option<Error>)
    ensures ParseReveal(start, dAtA) == if err.Some? then Err(err.value) else Ok(m)
  {
    m := start;
    var l, iNdEx := |dAtA|, 0;
    while iNdEx < l
      invariant 0 <= iNdEx <= l
      invariant Parse(ReadRevealField, ApplyReveal, m, dAtA, iNdEx) == ParseReveal(start, dAtA)
    {
      var tag := TagLoop(dAtA, iNdEx);
      if tag.Err? { return m, Some(tag.error); }
      var next;
      m, next := SwitchReveal(m, dAtA, tag.value.0, tag.value.1, iNdEx, tag.value.2);
      if next.Err? { return m, Some(next.error); }
      iNdEx := next.value;
    }
    return m, None;
  }

  // ---------- MarketOutcome ----------

  type Outcome = MarketOutcome<seq<byte>>

  const EMPTY_OUTCOME: Outcome := MarketOutcome(0, [])

  const OUTCOME_SCHEMA: Schema := map[1 := VarintKind, 2 := BytesKind]

  function ApplyOutcome(m: Outcome, f: Field): Result<Outcome> {
    if f.Unknown? then Ok(m)
    else if f.Num? then
      Ok(if f.num == 1 then m.(marketId := f.v) else m)
    else
      Ok(match f.num
         case 2 => m.(outcome := f.b)
         case _ => m)
  }

  function ReadOutcomeField(data: Slice, i: nat): Result<(Field, nat)> {
    ReadField(OUTCOME_SCHEMA, data, i)
  }

  function ParseOutcome(m: Outcome, data: Slice): Result<Outcome> {
    Parse(ReadOutcomeField, ApplyOutcome, m, data, 0)
  }

  function OutcomeGroups(m: Outcome): seq<seq<Field>> {
    [NumFields(1, m.marketId), StringFields(2, m.outcome)]
  }

  function OutcomeParts(m: Outcome): seq<seq<byte>> {
    [NumBytes(0x08, m.marketId), StringBytes(0x12, m.outcome)]
  }

  function OutcomeBytes(m: Outcome): seq<byte> {
    Join(OutcomeParts(m), 0)
  }

  /** The struct after the first k fields of m. */
  function OutcomeUpto(m: Outcome, k: nat): Outcome {
    MarketOutcome(if k > 0 then m.marketId else 0, if k > 1 then m.outcome else [])
  }

  lemma OutcomeGroup(m: Outcome, k: nat)
    requires k < 2
    ensures AllFit(OUTCOME_SCHEMA, OutcomeGroups(m)[k])
    ensures OutcomeParts(m)[k] == FieldsBytes(OUTCOME_SCHEMA, OutcomeGroups(m)[k])
    ensures ApplyAll(ApplyOutcome, OutcomeUpto(m, k), OutcomeGroups(m)[k]) == Ok(OutcomeUpto(m, k + 1))
  {
    match k
    case 0 => NumGroup(OUTCOME_SCHEMA, 1, m.marketId);
    case _ => StringGroup(OUTCOME_SCHEMA, 2, m.outcome);
  }

  /** Unmarshal into a fresh struct undoes Marshal. */
  lemma OutcomeRoundTrip(m: Outcome)
    requires |OutcomeBytes(m)| < 0x8000_0000_0000_0000
    ensures ParseOutcome(EMPTY_OUTCOME, OutcomeBytes(m)) == Ok(m)
  {
    var ms := seq(3, k requires 0 <= k <= 2 => OutcomeUpto(m, k));
    forall k | 0 <= k < 2
      ensures AllFit(OUTCOME_SCHEMA, OutcomeGroups(m)[k])
      ensures OutcomeParts(m)[k] == FieldsBytes(OUTCOME_SCHEMA, OutcomeGroups(m)[k])
      ensures ApplyAll(ApplyOutcome, ms[k], OutcomeGroups(m)[k]) == Ok(ms[k + 1])
    {
      OutcomeGroup(m, k);
    }
    ParseMessage(OUTCOME_SCHEMA, ReadOutcomeField, ApplyOutcome, ms, OutcomeGroups(m), OutcomeParts(m));
  }

  method SizeOutcome(m: Outcome) returns (n: nat)
    requires |OutcomeBytes(m)| < 0x8000_0000_0000_0000
    ensures n == |OutcomeBytes(m)|
  {
    ghost var p := OutcomeParts(m);
    assert |Join(p, 0)| == |p[0]| + |p[1]| by {
      assert |Join(p, 1)| == |p[1]| + |Join(p, 2)|;
      assert |Join(p, 0)| == |p[0]| + |Join(p, 1)|;
    }
    n := SizeNum(m.marketId);
    var l := SizeString(m.outcome, 0x12);
    n := n + l;
  }

  method MarshalOutcome(m: Outcome, dAtA: array<byte>, end: nat) returns (n: nat)
    requires |OutcomeBytes(m)| < 0x8000_0000_0000_0000 && |OutcomeBytes(m)| <= end <= dAtA.Length
    modifies dAtA
    ensures n == |OutcomeBytes(m)|
    ensures dAtA[..] == Splice(old(dAtA[..]), end - n, OutcomeBytes(m))
  {
    ghost var p, o := OutcomeParts(m), dAtA[..];
    var i := end;
    i := StringPart(dAtA, i, 0x12, m.outcome, p, 1, o, end);
    i := NumPart(dAtA, i, 0x08, m.marketId, p, 0, o, end);
    n := end - i;
  }

  /** The parser's switch: the payload at iNdEx of the record at preIndex. */
  method SwitchOutcome(start: Outcome, dAtA: Slice, fieldNum: int, wireType: int, preIndex: nat, iNdEx: nat)
    returns (m: Outcome, r: Result<nat>)
    requires preIndex < iNdEx <= |dAtA|
    ensures match ReadPayload(OUTCOME_SCHEMA, dAtA, preIndex, fieldNum, wireType, iNdEx)
      case Err(e) => r == Err(e)
      case Ok((f, j)) => r == Ok(j) && ApplyOutcome(start, f) == Ok(m)
  {
    match fieldNum {
      case 1 =>
        var x := NumCase(dAtA, wireType, iNdEx);
        if x.Err? { return start, Err(x.error); }
        return start.(marketId := x.value.0), Ok(x.value.1);
      case 2 =>
        var x := BytesCase(dAtA, wireType, iNdEx);
        if x.Err? { return start, Err(x.error); }
        return start.(outcome := x.value.0), Ok(x.value.1);
      case _ =>
        var x := DefaultCase(dAtA, preIndex);
        return start, x;
    }
  }

  /** Parses into a struct that holds start. */
  method UnmarshalOutcome(start: Outcome, dAtA: Slice) returns (m: Outcome, err: Option<Error>)
    ensures ParseOutcome(start, dAtA) == if err.Some? then Err(err.value) else Ok(m)
  {
    m := start;
    var l, iNdEx := |dAtA|, 0;
    while iNdEx < l
      invariant 0 <= iNdEx <= l
      invariant Parse(ReadOutcomeField, ApplyOutcome, m, dAtA, iNdEx) == ParseOutcome(start, dAtA)
    {
      var tag := TagLoop(dAtA, iNdEx);
      if tag.Err? { return m, Some(tag.error); }
      var next;
      m, next := SwitchOutcome(m, dAtA, tag.value.0, tag.value.1, iNdEx, tag.value.2);
      if next.Err? { return m, Some(next.error); }
      iNdEx := next.value;
    }
    return m, None;
  }
}
