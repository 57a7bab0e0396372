/** The generated codec of the settlement GenesisState: length-delimited nested messages. */
module GenesisCodec {
  import opened GoInt
  import opened Results
  import opened Buffers
  import opened Varint
  import opened Wire
  import opened WireFacts
  import opened WirePrint
  import opened Messages
  import opened VoteCodec

  type Genesis = GenesisState<seq<byte>>

  const EMPTY_GENESIS: Genesis := GenesisState(Params, [], [], [])

  const GENESIS_SCHEMA: Schema := map[1 := BytesKind, 2 := BytesKind, 3 := BytesKind, 4 := BytesKind]

  /** A nested record is parsed into a fresh element and appended; the params
      record is parsed into the params already there. */
  function ApplyGenesis(g: Genesis, f: Field): Result<Genesis> {
    if !f.Bytes? then Ok(g)
    else if |f.b| >= 0x8000_0000_0000_0000 then Err(InvalidLength)  // longer than any slice
    else
      match f.num
      case 1 => (match ParseParams(g.params, f.b)
                 case Err(e) => Err(e)
                 case Ok(p) => Ok(g.(params := p)))
      case 2 => (match ParseCommit(EMPTY_COMMIT, f.b)
                 case Err(e) => Err(e)
                 case Ok(c) => Ok(g.(commits := g.commits + [c])))
      case 3 => (match ParseReveal(EMPTY_REVEAL, f.b)
                 case Err(e) => Err(e)
                 case Ok(r) => Ok(g.(revealed := g.revealed + [r])))
      case 4 => (match ParseOutcome(EMPTY_OUTCOME, f.b)
                 case Err(e) => Err(e)
                 case Ok(o) => Ok(g.(outcomes := g.outcomes + [o])))
      case _ => Ok(g)
  }

  function ReadGenesisField(data: Slice, i: nat): Result<(Field, nat)> {
    ReadField(GENESIS_SCHEMA, data, i)
  }

  function ParseGenesis(g: Genesis, data: Slice): Result<Genesis> {
    Parse(ReadGenesisField, ApplyGenesis, g, data, 0)
  }

  function CommitList(ms: seq<Commit>): (r: seq<seq<byte>>)
    ensures |r| == |ms|
  {
    seq(|ms|, k requires 0 <= k < |ms| => CommitBytes(ms[k]))
  }

  function RevealList(ms: seq<Reveal>): (r: seq<seq<byte>>)
    ensures |r| == |ms|
  {
    seq(|ms|, k requires 0 <= k < |ms| => RevealBytes(ms[k]))
  }

  function OutcomeList(ms: seq<Outcome>): (r: seq<seq<byte>>)
    ensures |r| == |ms|
  {
    seq(|ms|, k requires 0 <= k < |ms| => OutcomeBytes(ms[k]))
  }

  /** The bytes of a genesis state; the params record is there even though empty. */
  function GenesisParts(g: Genesis): seq<seq<byte>> {
    [ TagBytes(0x0a, []),
      RepeatedBytes(0x12, CommitList(g.commits), 0),
      RepeatedBytes(0x1a, RevealList(g.revealed), 0),
      RepeatedBytes(0x22, OutcomeList(g.outcomes), 0) ]
  }

  function GenesisBytes(g: Genesis): seq<byte> {
    Join(GenesisParts(g), 0)
  }

  predicate AllSlices(bs: seq<seq<byte>>) {
    forall k :: 0 <= k < |bs| ==> |bs[k]| < 0x8000_0000_0000_0000
  }

  lemma ElementsFit(tag: byte, bs: seq<seq<byte>>)
    requires |RepeatedBytes(tag, bs, 0)| < 0x8000_0000_0000_0000
    ensures AllSlices(bs)
  {
    forall k | 0 <= k < |bs|
      ensures |bs[k]| < 0x8000_0000_0000_0000
    {
      RepeatedShrinks(tag, bs, 0, k);
    }
  }

  lemma ApplyCommitBytes(g: Genesis, b: Slice, m: Commit)
    requires ParseCommit(EMPTY_COMMIT, b) == Ok(m)
    ensures ApplyGenesis(g, Bytes(2, b)) == Ok(g.(commits := g.commits + [m]))
  {
  }

  lemma ApplyCommit(g: Genesis, ms: seq<Commit>, k: nat)
    requires k < |ms| && |CommitBytes(ms[k])| < 0x8000_0000_0000_0000
    ensures ApplyGenesis(g.(commits := g.commits + ms[..k]), Bytes(2, CommitBytes(ms[k])))
         == Ok(g.(commits := g.commits + ms[..k + 1]))
  {
    var g', b := g.(commits := g.commits + ms[..k]), CommitBytes(ms[k]);
    assert g.commits + ms[..k + 1] == g'.commits + [ms[k]];
    CommitRoundTrip(ms[k]);
    ApplyCommitBytes(g', b, ms[k]);
  }

  lemma ApplyRevealBytes(g: Genesis, b: Slice, m: Reveal)
    requires ParseReveal(EMPTY_REVEAL, b) == Ok(m)
    ensures ApplyGenesis(g, Bytes(3, b)) == Ok(g.(revealed := g.revealed + [m]))
  {
  }

  lemma ApplyReveal(g: Genesis, ms: seq<Reveal>, k: nat)
    requires k < |ms| && |RevealBytes(ms[k])| < 0x8000_0000_0000_0000
    ensures ApplyGenesis(g.(revealed := g.revealed + ms[..k]), Bytes(3, RevealBytes(ms[k])))
         == Ok(g.(revealed := g.revealed + ms[..k + 1]))
  {
    var g', b := g.(revealed := g.revealed + ms[..k]), RevealBytes(ms[k]);
    assert g.revealed + ms[..k + 1] == g'.revealed + [ms[k]];
    RevealRoundTrip(ms[k]);
    ApplyRevealBytes(g', b, ms[k]);
  }

  lemma ApplyOutcomeBytes(g: Genesis, b: Slice, m: Outcome)
    requires ParseOutcome(EMPTY_OUTCOME, b) == Ok(m)
    ensures ApplyGenesis(g, Bytes(4, b)) == Ok(g.(outcomes := g.outcomes + [m]))
  {
  }

  lemma ApplyOutcome(g: Genesis, ms: seq<Outcome>, k: nat)
    requires k < |ms| && |OutcomeBytes(ms[k])| < 0x8000_0000_0000_0000
    ensures ApplyGenesis(g.(outcomes := g.outcomes + ms[..k]), Bytes(4, OutcomeBytes(ms[k])))
         == Ok(g.(outcomes := g.outcomes + ms[..k + 1]))
  {
    var g', b := g.(outcomes := g.outcomes + ms[..k]), OutcomeBytes(ms[k]);
    assert g.outcomes + ms[..k + 1] == g'.outcomes + [ms[k]];
    OutcomeRoundTrip(ms[k]);
    ApplyOutcomeBytes(g', b, ms[k]);
  }

  lemma ParseTwo(g: Genesis, a: Slice, b: Slice, mid: Genesis, done: Genesis)
    requires |a| + |b| < 0x8000_0000_0000_0000
    requires ParseGenesis(g, a) == Ok(mid) && ParseGenesis(mid, b) == Ok(done)
    ensures ParseGenesis(g, a + b) == Ok(done)
  {
    ReadersCompose(ReadGenesisField, GENESIS_SCHEMA);
    ConcatIsMerge(ReadGenesisField, ApplyGenesis, g, a, b);
  }

  lemma ParseEmptyParams(g: Genesis)
    ensures |TagBytes(0x0a, [])| < 10
    ensures ParseGenesis(g, TagBytes(0x0a, [])) == Ok(g)
  {
    var fs := [Bytes(1, [])];
    assert fs[1..] == [];
    assert FieldsBytes(GENESIS_SCHEMA, fs) == TagBytes(0x0a, []);
    ReadersCompose(ReadGenesisField, GENESIS_SCHEMA);
    ParsePrinted(GENESIS_SCHEMA, ReadGenesisField, ApplyGenesis, g, fs);
  }

  lemma ParseCommits(g: Genesis, ms: seq<Commit>)
    requires |RepeatedBytes(0x12, CommitList(ms), 0)| < 0x8000_0000_0000_0000
    ensures ParseGenesis(g, RepeatedBytes(0x12, CommitList(ms), 0)) == Ok(g.(commits := g.commits + ms))
  {
    var with := (l: seq<Commit>) => g.(commits := g.commits + l);
    ElementsFit(0x12, CommitList(ms));
    forall k | 0 <= k < |ms|
      ensures ApplyGenesis(with(ms[..k]), Bytes(2, CommitList(ms)[k])) == Ok(with(ms[..k + 1]))
    {
      assert CommitList(ms)[k] == CommitBytes(ms[k]);
      ApplyCommit(g, ms, k);
    }
    ParseElements(GENESIS_SCHEMA, ReadGenesisField, ApplyGenesis, with, 2, ms, CommitList(ms));
    assert g.commits + [] == g.commits;
  }

  lemma ParseReveals(g: Genesis, ms: seq<Reveal>)
    requires |RepeatedBytes(0x1a, RevealList(ms), 0)| < 0x8000_0000_0000_0000
    ensures ParseGenesis(g, RepeatedBytes(0x1a, RevealList(ms), 0)) == Ok(g.(revealed := g.revealed + ms))
  {
    var with := (l: seq<Reveal>) => g.(revealed := g.revealed + l);
    ElementsFit(0x1a, RevealList(ms));
    forall k | 0 <= k < |ms|
      ensures ApplyGenesis(with(ms[..k]), Bytes(3, RevealList(ms)[k])) == Ok(with(ms[..k + 1]))
    {
      assert RevealList(ms)[k] == RevealBytes(ms[k]);
      ApplyReveal(g, ms, k);
    }
    ParseElements(GENESIS_SCHEMA, ReadGenesisField, ApplyGenesis, with, 3, ms, RevealList(ms));
    assert g.revealed + [] == g.revealed;
  }

  lemma ParseOutcomes(g: Genesis, ms: seq<Outcome>)
    requires |RepeatedBytes(0x22, OutcomeList(ms), 0)| < 0x8000_0000_0000_0000
    ensures ParseGenesis(g, RepeatedBytes(0x22, OutcomeList(ms), 0)) == Ok(g.(outcomes := g.outcomes + ms))
  {
    var with := (l: seq<Outcome>) => g.(outcomes := g.outcomes + l);
    ElementsFit(0x22, OutcomeList(ms));
    forall k | 0 <= k < |ms|
      ensures ApplyGenesis(with(ms[..k]), Bytes(4, OutcomeList(ms)[k])) == Ok(with(ms[..k + 1]))
    {
      assert OutcomeList(ms)[k] == OutcomeBytes(ms[k]);
      ApplyOutcome(g, ms, k);
    }
    ParseElements(GENESIS_SCHEMA, ReadGenesisField, ApplyGenesis, with, 4, ms, OutcomeList(ms));
    assert g.outcomes + [] == g.outcomes;
  }

  /** Unmarshal undoes Marshal, nested lists included; into a state that already
      holds lists, the printed ones are appended. */
  lemma ParseAppends(base: Genesis, g: Genesis)
    requires |GenesisBytes(g)| < 0x8000_0000_0000_0000
    ensures ParseGenesis(base, GenesisBytes(g))
         == Ok(GenesisState(base.params, base.commits + g.commits, base.revealed + g.revealed,
                            base.outcomes + g.outcomes))
  {
    var p := GenesisParts(g);
    PartsBelow(p);
    var g2 := base.(commits := base.commits + g.commits);
    var g3 := g2.(revealed := base.revealed + g.revealed);
    var g4 := g3.(outcomes := base.outcomes + g.outcomes);
    ParseOutcomes(g3, g.outcomes);
    ParseReveals(g2, g.revealed);
    ParseTwo(g2, p[2], p[3], g3, g4);
    ParseCommits(base, g.commits);
    ParseTwo(base, p[1], p[2] + p[3], g2, g4);
    ParseEmptyParams(base);
    ParseTwo(base, p[0], p[1] + (p[2] + p[3]), base, g4);
  }

  lemma GenesisRoundTrip(g: Genesis)
    requires |GenesisBytes(g)| < 0x8000_0000_0000_0000
    ensures ParseGenesis(EMPTY_GENESIS, GenesisBytes(g)) == Ok(g)
  {
    ParseAppends(EMPTY_GENESIS, g);
    assert g.params == Params;
    assert [] + g.commits == g.commits && [] + g.revealed == g.revealed && [] + g.outcomes == g.outcomes;
  }

  /** Parsing a concatenation merges. */
  lemma GenesisMerge(g: Genesis, a: Slice, b: Slice)
    requires |a| + |b| < 0x8000_0000_0000_0000
    requires ParseGenesis(g, a).Ok?
    ensures Agree(ParseGenesis(g, a + b), ParseGenesis(ParseGenesis(g, a).value, b))
  {
    ReadersCompose(ReadGenesisField, GENESIS_SCHEMA);
    ConcatIsMerge(ReadGenesisField, ApplyGenesis, g, a, b);
  }

  // ---------- The repeated nested messages, last one first ----------

  method MarshalCommits(ms: seq<Commit>, dAtA: array<byte>, end: nat) returns (i: nat)
    requires |RepeatedBytes(0x12, CommitList(ms), 0)| <= end <= dAtA.Length
    requires AllSlices(CommitList(ms))
    modifies dAtA
    ensures i + |RepeatedBytes(0x12, CommitList(ms), 0)| == end
    ensures dAtA[..] == Splice(old(dAtA[..]), i, RepeatedBytes(0x12, CommitList(ms), 0))
  {
    ghost var o, bs := dAtA[..], CommitList(ms);
    i := end;
    var iNdEx := |ms| - 1;
    while iNdEx >= 0
      invariant -1 <= iNdEx < |ms|
      invariant i + |RepeatedBytes(0x12, bs, iNdEx + 1)| == end
      invariant dAtA[..] == Splice(o, i, RepeatedBytes(0x12, bs, iNdEx + 1))
    {
      RepeatedShrinks(0x12, bs, 0, iNdEx);
      ghost var before := dAtA[..];
      var size := MarshalCommit(ms[iNdEx], dAtA, i);
      i := PrintVarint(dAtA, i - size, 0x12, size);
      SpliceBefore(before, i, TagVarint(0x12, size), bs[iNdEx]);
      SpliceBefore(o, i, TagBytes(0x12, bs[iNdEx]), RepeatedBytes(0x12, bs, iNdEx + 1));
      iNdEx := iNdEx - 1;
    }
  }

  method CommitsPart(ms: seq<Commit>, dAtA: array<byte>, start: nat, ghost parts: seq<seq<byte>>, ghost k: nat,
        ghost o: seq<byte>, ghost end: nat)
    returns (i: nat)
    requires k < |parts| && parts[k] == RepeatedBytes(0x12, CommitList(ms), 0)
    requires |Join(parts, 0)| < 0x8000_0000_0000_0000 && |Join(parts, 0)| <= end
    requires dAtA.Length == |o| && PrintedFrom(parts, k + 1, o, start, end, dAtA[..])
    modifies dAtA
    ensures PrintedFrom(parts, k, o, i, end, dAtA[..])
  {
    ghost var before := dAtA[..];
    JoinShrinks(parts, 0, k);
    PartFits(parts, k, o, start, end, before);
    ElementsFit(0x12, CommitList(ms));
    i := MarshalCommits(ms, dAtA, start);
    PrintStep(parts, k, o, start, i, end, before, dAtA[..]);
  }

  method SizeCommits(ms: seq<Commit>) returns (n: nat)
    requires AllSlices(CommitList(ms))
    ensures n == |RepeatedBytes(0x12, CommitList(ms), 0)|
  {
    ghost var bs := CommitList(ms);
    n := 0;
    for k := 0 to |ms|
      invariant n + |RepeatedBytes(0x12, bs, k)| == |RepeatedBytes(0x12, bs, 0)|
    {
      var l := SizeCommit(ms[k]);
      SovIsLength(l);
      n := n + 1 + l + Sov(l);
    }
  }

  method MarshalReveals(ms: seq<Reveal>, dAtA: array<byte>, end: nat) returns (i: nat)
    requires |RepeatedBytes(0x1a, RevealList(ms), 0)| <= end <= dAtA.Length
    requires AllSlices(RevealList(ms))
    modifies dAtA
    ensures i + |RepeatedBytes(0x1a, RevealList(ms), 0)| == end
    ensures dAtA[..] == Splice(old(dAtA[..]), i, RepeatedBytes(0x1a, RevealList(ms), 0))
  {
    ghost var o, bs := dAtA[..], RevealList(ms);
    i := end;
    var iNdEx := |ms| - 1;
    while iNdEx >= 0
      invariant -1 <= iNdEx < |ms|
      invariant i + |RepeatedBytes(0x1a, bs, iNdEx + 1)| == end
      invariant dAtA[..] == Splice(o, i, RepeatedBytes(0x1a, bs, iNdEx + 1))
    {
      RepeatedShrinks(0x1a, bs, 0, iNdEx);
      ghost var before := dAtA[..];
      var size := MarshalReveal(ms[iNdEx], dAtA, i);
      i := PrintVarint(dAtA, i - size, 0x1a, size);
      SpliceBefore(before, i, TagVarint(0x1a, size), bs[iNdEx]);
      SpliceBefore(o, i, TagBytes(0x1a, bs[iNdEx]), RepeatedBytes(0x1a, bs, iNdEx + 1));
      iNdEx := iNdEx - 1;
    }
  }

  method RevealsPart(ms: seq<Reveal>, dAtA: array<byte>, start: nat, ghost parts: seq<seq<byte>>, ghost k: nat,
        ghost o: seq<byte>, ghost end: nat)
    returns (i: nat)
    requires k < |parts| && parts[k] == RepeatedBytes(0x1a, RevealList(ms), 0)
    requires |Join(parts, 0)| < 0x8000_0000_0000_0000 && |Join(parts, 0)| <= end
    requires dAtA.Length == |o| && PrintedFrom(parts, k + 1, o, start, end, dAtA[..])
    modifies dAtA
    ensures PrintedFrom(parts, k, o, i, end, dAtA[..])
  {
    ghost var before := dAtA[..];
    JoinShrinks(parts, 0, k);
    PartFits(parts, k, o, start, end, before);
    ElementsFit(0x1a, RevealList(ms));
    i := MarshalReveals(ms, dAtA, start);
    PrintStep(parts, k, o, start, i, end, before, dAtA[..]);
  }

  method SizeReveals(ms: seq<Reveal>) returns (n: nat)
    requires AllSlices(RevealList(ms))
    ensures n == |RepeatedBytes(0x1a, RevealList(ms), 0)|
  {
    ghost var bs := RevealList(ms);
    n := 0;
    for k := 0 to |ms|
      invariant n + |RepeatedBytes(0x1a, bs, k)| == |RepeatedBytes(0x1a, bs, 0)|
    {
      var l := SizeReveal(ms[k]);
      SovIsLength(l);
      n := n + 1 + l + Sov(l);
    }
  }

  method MarshalOutcomes(ms: seq<Outcome>, dAtA: array<byte>, end: nat) returns (i: nat)
    requires |RepeatedBytes(0x22, OutcomeList(ms), 0)| <= end <= dAtA.Length
    requires AllSlices(OutcomeList(ms))
    modifies dAtA
    ensures i + |RepeatedBytes(0x22, OutcomeList(ms), 0)| == end
    ensures dAtA[..] == Splice(old(dAtA[..]), i, RepeatedBytes(0x22, OutcomeList(ms), 0))
  {
    ghost var o, bs := dAtA[..], OutcomeList(ms);
    i := end;
    var iNdEx := |ms| - 1;
    while iNdEx >= 0
      invariant -1 <= iNdEx < |ms|
      invariant i + |RepeatedBytes(0x22, bs, iNdEx + 1)| == end
      invariant dAtA[..] == Splice(o, i, RepeatedBytes(0x22, bs, iNdEx + 1))
    {
      RepeatedShrinks(0x22, bs, 0, iNdEx);
      ghost var before := dAtA[..];
      var size := MarshalOutcome(ms[iNdEx], dAtA, i);
      i := PrintVarint(dAtA, i - size, 0x22, size);
      SpliceBefore(before, i, TagVarint(0x22, size), bs[iNdEx]);
      SpliceBefore(o, i, TagBytes(0x22, bs[iNdEx]), RepeatedBytes(0x22, bs, iNdEx + 1));
      iNdEx := iNdEx - 1;
    }
  }

  method OutcomesPart(ms: seq<Outcome>, dAtA: array<byte>, start: nat, ghost parts: seq<seq<byte>>, ghost k: nat,
        ghost o: seq<byte>, ghost end: nat)
    returns (i: nat)
    requires k < |parts| && parts[k] == RepeatedBytes(0x22, OutcomeList(ms), 0)
    requires |Join(parts, 0)| < 0x8000_0000_0000_0000 && |Join(parts, 0)| <= end
    requires dAtA.Length == |o| && PrintedFrom(parts, k + 1, o, start, end, dAtA[..])
    modifies dAtA
    ensures PrintedFrom(parts, k, o, i, end, dAtA[..])
  {
    ghost var before := dAtA[..];
    JoinShrinks(parts, 0, k);
    PartFits(parts, k, o, start, end, before);
    ElementsFit(0x22, OutcomeList(ms));
    i := MarshalOutcomes(ms, dAtA, start);
    PrintStep(parts, k, o, start, i, end, before, dAtA[..]);
  }

  method SizeOutcomes(ms: seq<Outcome>) returns (n: nat)
    requires AllSlices(OutcomeList(ms))
    ensures n == |RepeatedBytes(0x22, OutcomeList(ms), 0)|
  {
    ghost var bs := OutcomeList(ms);
    n := 0;
    for k := 0 to |ms|
      invariant n + |RepeatedBytes(0x22, bs, k)| == |RepeatedBytes(0x22, bs, 0)|
    {
      var l := SizeOutcome(ms[k]);
      SovIsLength(l);
      n := n + 1 + l + Sov(l);
    }
  }

  /** The record of an empty nested message. */
  method EmptyPart(dAtA: array<byte>, start: nat, tag: byte, ghost parts: seq<seq<byte>>, ghost k: nat,
        ghost o: seq<byte>, ghost end: nat)
    returns (i: nat)
    requires k < |parts| && parts[k] == TagBytes(tag, []) && |Join(parts, 0)| <= end
    requires dAtA.Length == |o| && PrintedFrom(parts, k + 1, o, start, end, dAtA[..])
    modifies dAtA
    ensures PrintedFrom(parts, k, o, i, end, dAtA[..])
  {
    ghost var before := dAtA[..];
    PartFits(parts, k, o, start, end, before);
    assert TagBytes(tag, []) == TagVarint(tag, 0);
    i := PrintVarint(dAtA, start, tag, 0);
    PrintStep(parts, k, o, start, i, end, before, dAtA[..]);
  }

  /** The generated struct and its methods. */
  class GenesisMessage {
    var params: Params
    var commits: seq<Commit>
    var revealed: seq<Reveal>
    var outcomes: seq<Outcome>

    function Value(): Genesis
      reads this
    {
      GenesisState(params, commits, revealed, outcomes)
    }

    method Size() returns (n: nat)
      requires |GenesisBytes(Value())| < 0x8000_0000_0000_0000
      ensures n == |GenesisBytes(Value())|
    {
      ghost var p := GenesisParts(Value());
      PartsBelow(p);
      ElementsFit(0x12, CommitList(commits));
      ElementsFit(0x1a, RevealList(revealed));
      ElementsFit(0x22, OutcomeList(outcomes));
      SovIsLength(0);
      n := 1 + 0 + Sov(0);
      var l := SizeCommits(commits);
      n := n + l;
      l := SizeReveals(revealed);
      n := n + l;
      l := SizeOutcomes(outcomes);
      n := n + l;
    }

    /** Writes the message so that it ends right before `end`, last field first. */
    method MarshalToSizedBuffer(dAtA: array<byte>, end: nat) returns (n: nat)
      requires |GenesisBytes(Value())| < 0x8000_0000_0000_0000
      requires |GenesisBytes(Value())| <= end <= dAtA.Length
      modifies dAtA
      ensures n == |GenesisBytes(Value())|
      ensures dAtA[..] == Splice(old(dAtA[..]), end - n, GenesisBytes(Value()))
    {
      ghost var p, o := GenesisParts(Value()), dAtA[..];
      var i := OutcomesPart(outcomes, dAtA, end, p, 3, o, end);
      i := RevealsPart(revealed, dAtA, i, p, 2, o, end);
      i := CommitsPart(commits, dAtA, i, p, 1, o, end);
      i := EmptyPart(dAtA, i, 0x0a, p, 0, o, end);
      n := end - i;
    }

    method Marshal() returns (dAtA: array<byte>)
      requires |GenesisBytes(Value())| < 0x8000_0000_0000_0000
      ensures fresh(dAtA) && dAtA[..] == GenesisBytes(Value())
    {
      var size := Size();
      dAtA := new byte[size];
      ghost var o := dAtA[..];
      var n := MarshalToSizedBuffer(dAtA, size);
      SpliceIsSlices(o, 0, GenesisBytes(Value()));
    }

    /** The parser's switch: the payload at iNdEx of the record at preIndex. */
    method Switch(dAtA: Slice, fieldNum: int, wireType: int, preIndex: nat, iNdEx: nat) returns (r: Result<nat>)
      requires preIndex < iNdEx <= |dAtA|
      modifies this
      ensures match ReadPayload(GENESIS_SCHEMA, dAtA, preIndex, fieldNum, wireType, iNdEx)
        case Err(e) => r == Err(e)
        case Ok((f, j)) =>
          match ApplyGenesis(old(Value()), f)
          case Err(e) => r == Err(e)
          case Ok(g) => r == Ok(j) && Value() == g
    {
      match fieldNum {
        case 1 =>
          var x := BytesCase(dAtA, wireType, iNdEx);
          if x.Err? { return Err(x.error); }
          var err := UnmarshalParams(params, x.value.0);
          if err.Some? { return Err(err.value); }
          return Ok(x.value.1);
        case 2 =>
          var x := BytesCase(dAtA, wireType, iNdEx);
          if x.Err? { return Err(x.error); }
          var m, err := UnmarshalCommit(EMPTY_COMMIT, x.value.0);
          commits := commits + [m];
          if err.Some? { return Err(err.value); }
          return Ok(x.value.1);
        case 3 =>
          var x := BytesCase(dAtA, wireType, iNdEx);
          if x.Err? { return Err(x.error); }
          var m, err := UnmarshalReveal(EMPTY_REVEAL, x.value.0);
          revealed := revealed + [m];
          if err.Some? { return Err(err.value); }
          return Ok(x.value.1);
        case 4 =>
          var x := BytesCase(dAtA, wireType, iNdEx);
          if x.Err? { return Err(x.error); }
          var m, err := UnmarshalOutcome(EMPTY_OUTCOME, x.value.0);
          outcomes := outcomes + [m];
          if err.Some? { return Err(err.value); }
          return Ok(x.value.1);
        case _ =>
          r := DefaultCase(dAtA, preIndex);
      }
    }

    /** Parses into the struct as it is. On an error the struct may be half updated. */
    method Unmarshal(dAtA: Slice) returns (err: Option<Error>)
      modifies this
      ensures ParseGenesis(old(Value()), dAtA) == if err.Some? then Err(err.value) else Ok(Value())
    {
      var l, iNdEx := |dAtA|, 0;
      while iNdEx < l
        invariant 0 <= iNdEx <= l
        invariant Parse(ReadGenesisField, ApplyGenesis, Value(), dAtA, iNdEx) == ParseGenesis(old(Value()), dAtA)
      {
        var tag := TagLoop(dAtA, iNdEx);
        if tag.Err? { return Some(tag.error); }
        var next := Switch(dAtA, tag.value.0, tag.value.1, iNdEx, tag.value.2);
        if next.Err? { return Some(next.error); }
        iNdEx := next.value;
      }
      return None;
    }
  }

  lemma PartsBelow(p: seq<seq<byte>>)
    requires |p| == 4 && |Join(p, 0)| < 0x8000_0000_0000_0000
    ensures forall k :: 0 <= k < 4 ==> |p[k]| < 0x8000_0000_0000_0000
    ensures Join(p, 3) == p[3] && Join(p, 2) == p[2] + p[3]
    ensures Join(p, 1) == p[1] + (p[2] + p[3]) && Join(p, 0) == p[0] + (p[1] + (p[2] + p[3]))
  {
    assert Join(p, 4) == [];
    assert Join(p, 3) == p[3] + [] == p[3];
    assert Join(p, 2) == p[2] + Join(p, 3);
    assert Join(p, 1) == p[1] + Join(p, 2);
    assert Join(p, 0) == p[0] + Join(p, 1);
  }
}
