/** The wire format of every message told by literal tags, and that a message passes over
    every field it does not know. */
module FieldNumbers {
  import opened GoInt
  import opened Results
  import opened Messages
  import opened Varint
  import opened Wire
  import opened WireFacts
  import opened WirePrint
  import opened WireGrammar
  import opened MarketCodec
  import opened VoteCodec
  import opened GenesisCodec

  // ---------- One known field ----------

  /** One record that fits the schema is applied, and nothing else happens. */
  lemma OneField<M(!new)>(schema: Schema, read: Reader, apply: (M, Field) -> Result<M>, m: M, f: Field, data: Slice)
    requires ReaderOf(read, schema) && Fits(schema, f) && data == FieldBytes(f)
    ensures Parse(read, apply, m, data, 0) == apply(m, f)
  {
    FieldReads(schema, f);
    assert read(data, 0) == Ok((f, |data|));
  }

  lemma NumberBytes(tag: byte, num: nat, v: uint64)
    requires 0 < num < 16 && tag as int == 8 * num
    ensures TagVarint(tag, v) == FieldBytes(Num(num, v)) && |TagVarint(tag, v)| <= 11
  {
    UintBytesMean(v);
  }

  lemma StringIs(tag: byte, num: nat, b: seq<byte>)
    requires 0 < num < 16 && tag as int == 8 * num + 2
    ensures TagBytes(tag, b) == FieldBytes(Bytes(num, b))
  {
  }

  lemma OneNumber<M(!new)>(schema: Schema, read: Reader, apply: (M, Field) -> Result<M>, m: M, tag: byte, num: nat,
        v: uint64)
    requires ReaderOf(read, schema) && 0 < num < 16 && num in schema && schema[num].VarintKind? && tag as int == 8 * num
    ensures |TagVarint(tag, v)| <= 11
    ensures Parse(read, apply, m, TagVarint(tag, v), 0) == apply(m, Num(num, v))
  {
    NumberBytes(tag, num, v);
    OneField(schema, read, apply, m, Num(num, v), TagVarint(tag, v));
  }

  lemma OneString<M(!new)>(schema: Schema, read: Reader, apply: (M, Field) -> Result<M>, m: M, tag: byte, num: nat,
        b: seq<byte>)
    requires ReaderOf(read, schema) && 0 < num < 16 && num in schema && schema[num].BytesKind?
    requires tag as int == 8 * num + 2 && |TagBytes(tag, b)| < 0x8000_0000_0000_0000
    ensures Parse(read, apply, m, TagBytes(tag, b), 0) == apply(m, Bytes(num, b))
  {
    StringIs(tag, num, b);
    OneField(schema, read, apply, m, Bytes(num, b), TagBytes(tag, b));
  }

  lemma MarketNumber(m: Market, tag: byte, v: uint64)
    requires tag in [0x08, 0x28, 0x40, 0x48]
    ensures |TagVarint(tag, v)| <= 11
    ensures ParseMarket(m, TagVarint(tag, v))
         == Ok(if tag == 0x08 then m.(id := v)
               else if tag == 0x28 then m.(deadline := ToInt64(v))
               else if tag == 0x40 then m.(createdAt := ToInt64(v))
               else m.(totalPool := ToInt64(v)))
  {
    var num := if tag == 0x08 then 1 else if tag == 0x28 then 5 else if tag == 0x40 then 8 else 9;
    OneNumber(MARKET_SCHEMA, ReadMarketField, ApplyMarket, m, tag, num, v);
  }

  lemma MarketString(m: Market, tag: byte, b: seq<byte>)
    requires tag in [0x12, 0x1a, 0x22, 0x32, 0x3a, 0x52] && |TagBytes(tag, b)| < 0x8000_0000_0000_0000
    ensures ParseMarket(m, TagBytes(tag, b))
         == Ok(if tag == 0x12 then m.(question := b)
               else if tag == 0x1a then m.(outcomes := m.outcomes + [b])
               else if tag == 0x22 then m.(groupId := b)
               else if tag == 0x32 then m.(status := b)
               else if tag == 0x3a then m.(creator := b)
               else m.(outcomePools := m.outcomePools + [b]))
  {
    var num := if tag == 0x12 then 2 else if tag == 0x1a then 3 else if tag == 0x22 then 4
               else if tag == 0x32 then 6 else if tag == 0x3a then 7 else 10;
    OneString(MARKET_SCHEMA, ReadMarketField, ApplyMarket, m, tag, num, b);
  }

  lemma CommitFields(m: Commit, v: uint64, tag: byte, b: seq<byte>)
    requires tag in [0x12, 0x1a] && |TagBytes(tag, b)| < 0x8000_0000_0000_0000
    ensures |TagVarint(0x08, v)| <= 11 && ParseCommit(m, TagVarint(0x08, v)) == Ok(m.(marketId := v))
    ensures ParseCommit(m, TagBytes(tag, b)) == Ok(if tag == 0x12 then m.(voter := b) else m.(commitment := b))
  {
    OneNumber(COMMIT_SCHEMA, ReadCommitField, VoteCodec.ApplyCommit, m, 0x08, 1, v);
    OneString(COMMIT_SCHEMA, ReadCommitField, VoteCodec.ApplyCommit, m, tag, if tag == 0x12 then 2 else 3, b);
  }

  lemma RevealFields(m: Reveal, v: uint64, tag: byte, b: seq<byte>)
    requires tag in [0x12, 0x1a, 0x22] && |TagBytes(tag, b)| < 0x8000_0000_0000_0000
    ensures |TagVarint(0x08, v)| <= 11 && ParseReveal(m, TagVarint(0x08, v)) == Ok(m.(marketId := v))
    ensures ParseReveal(m, TagBytes(tag, b))
         == Ok(if tag == 0x12 then m.(voter := b) else if tag == 0x1a then m.(vote := b) else m.(nonce := b))
  {
    OneNumber(REVEAL_SCHEMA, ReadRevealField, VoteCodec.ApplyReveal, m, 0x08, 1, v);
    var num := if tag == 0x12 then 2 else if tag == 0x1a then 3 else 4;
    OneString(REVEAL_SCHEMA, ReadRevealField, VoteCodec.ApplyReveal, m, tag, num, b);
  }

  lemma OutcomeFields(m: Outcome, v: uint64, b: seq<byte>)
    requires |TagBytes(0x12, b)| < 0x8000_0000_0000_0000
    ensures |TagVarint(0x08, v)| <= 11 && ParseOutcome(m, TagVarint(0x08, v)) == Ok(m.(marketId := v))
    ensures ParseOutcome(m, TagBytes(0x12, b)) == Ok(m.(outcome := b))
  {
    OneNumber(OUTCOME_SCHEMA, ReadOutcomeField, VoteCodec.ApplyOutcome, m, 0x08, 1, v);
    OneString(OUTCOME_SCHEMA, ReadOutcomeField, VoteCodec.ApplyOutcome, m, 0x12, 2, b);
  }

  /** A nested message is parsed on its own into a fresh element; if it does not parse, nothing does. */
  lemma GenesisFields(g: Genesis, tag: byte, b: Slice)
    requires tag in [0x12, 0x1a, 0x22] && |TagBytes(tag, b)| < 0x8000_0000_0000_0000
    ensures tag == 0x12 ==> ParseGenesis(g, TagBytes(tag, b)) == match ParseCommit(EMPTY_COMMIT, b)
      case Err(e) => Err(e)
      case Ok(m) => Ok(g.(commits := g.commits + [m]))
    ensures tag == 0x1a ==> ParseGenesis(g, TagBytes(tag, b)) == match ParseReveal(EMPTY_REVEAL, b)
      case Err(e) => Err(e)
      case Ok(m) => Ok(g.(revealed := g.revealed + [m]))
    ensures tag == 0x22 ==> ParseGenesis(g, TagBytes(tag, b)) == match ParseOutcome(EMPTY_OUTCOME, b)
      case Err(e) => Err(e)
      case Ok(m) => Ok(g.(outcomes := g.outcomes + [m]))
  {
    var num := if tag == 0x12 then 2 else if tag == 0x1a then 3 else 4;
    OneString(GENESIS_SCHEMA, ReadGenesisField, ApplyGenesis, g, tag, num, b);
  }

  // ---------- What is printed ----------

  lemma Joined(parts: seq<seq<byte>>, k: nat, rest: seq<byte>) returns (s: seq<byte>)
    requires k < |parts| && Join(parts, k + 1) == rest
    ensures s == parts[k] + rest == Join(parts, k)
  {
    s := parts[k] + rest;
  }

  /** The tail of a message that no field is printed for. */
  lemma {:induction false} NothingJoined(parts: seq<seq<byte>>, k: nat)
    requires k <= |parts| && forall j :: k <= j < |parts| ==> parts[j] == []
    ensures Join(parts, k) == []
    decreases |parts| - k
  {
    if k < |parts| {
      NothingJoined(parts, k + 1);
    }
  }

  /** Nothing is printed for a zero, an empty string or an empty list. */
  lemma EmptyPrints()
    ensures MarketBytes(EMPTY_MARKET) == [] && CommitBytes(EMPTY_COMMIT) == []
    ensures RevealBytes(EMPTY_REVEAL) == [] && OutcomeBytes(EMPTY_OUTCOME) == []
  {
    NothingJoined(MarketParts(EMPTY_MARKET), 0);
    NothingJoined(CommitParts(EMPTY_COMMIT), 0);
    NothingJoined(RevealParts(EMPTY_REVEAL), 0);
    NothingJoined(OutcomeParts(EMPTY_OUTCOME), 0);
  }

  lemma OutcomesPrint(q: byte)
    ensures RepeatedBytes(0x1a, [[q], []], 0) == [0x1a, 1, q, 0x1a, 0]
  {
    assert RepeatedBytes(0x1a, [[q], []], 2) == [];
    assert RepeatedBytes(0x1a, [[q], []], 1) == TagBytes(0x1a, []);
    assert VarintBytes(0) == [0] && VarintBytes(1) == [1];
  }

  /** Five parts, the fourth of them empty, and nothing behind. */
  lemma FiveParts(p: seq<seq<byte>>)
    requires |p| == 10 && p[3] == [] && Join(p, 5) == []
    ensures Join(p, 0) == p[0] + p[1] + p[2] + p[4]
  {
    var s := Joined(p, 4, []);
    s := Joined(p, 3, s);
    s := Joined(p, 2, s);
    s := Joined(p, 1, s);
    s := Joined(p, 0, s);
  }

  /** A market with an id, a question, two outcomes and a deadline. */
  function SmallMarket(id: byte, q: byte, deadline: byte): Market {
    PredictionMarket(id as int, [q], [[q], []], [], deadline as int, [], [], 0, 0, [])
  }

  lemma SmallParts(id: byte, q: byte, deadline: byte)
    requires 0 < id < 0x80 && 0 < deadline < 0x80
    ensures var p := MarketParts(SmallMarket(id, q, deadline));
      && p[0] == [0x08, id] && p[1] == [0x12, 1, q] && p[2] == RepeatedBytes(0x1a, [[q], []], 0)
      && p[3] == [] && p[4] == [0x28, deadline] && forall k :: 5 <= k < 10 ==> p[k] == []
  {
  }

  /** Fields are printed by ascending number, each as a tag and a value. */
  lemma MarketPrints(id: byte, q: byte, deadline: byte)
    requires 0 < id < 0x80 && 0 < deadline < 0x80
    ensures MarketBytes(SmallMarket(id, q, deadline))
         == [0x08, id, 0x12, 1, q, 0x1a, 1, q, 0x1a, 0, 0x28, deadline]
  {
    SmallParts(id, q, deadline);
    OutcomesPrint(q);
    var p := MarketParts(SmallMarket(id, q, deadline));
    NothingJoined(p, 5);
    FiveParts(p);
    FivePieces(id, q, deadline);
  }

  lemma FivePieces(id: byte, q: byte, deadline: byte)
    ensures [0x08, id] + [0x12, 1, q] + [0x1a, 1, q, 0x1a, 0] + [0x28, deadline]
         == [0x08, id, 0x12, 1, q, 0x1a, 1, q, 0x1a, 0, 0x28, deadline]
  {
  }

  /** The messages of the genesis state, on records of small ids and one-byte strings. */
  lemma VotesPrint(id: byte, a: byte, b: byte, c: byte)
    requires 0 < id < 0x80
    ensures CommitBytes(VoteCommit(id as int, [a], [b])) == [0x08, id, 0x12, 1, a, 0x1a, 1, b]
    ensures RevealBytes(VoteReveal(id as int, [a], [b], [c])) == [0x08, id, 0x12, 1, a, 0x1a, 1, b, 0x22, 1, c]
    ensures OutcomeBytes(MarketOutcome(id as int, [a])) == [0x08, id, 0x12, 1, a]
  {
    ShortRecords(id, 0x12, a);
    ShortRecords(id, 0x1a, b);
    ShortRecords(id, 0x22, c);
    var p := CommitParts(VoteCommit(id as int, [a], [b]));
    var s := Joined(p, 2, []);
    s := Joined(p, 1, s);
    s := Joined(p, 0, s);
    p := RevealParts(VoteReveal(id as int, [a], [b], [c]));
    s := Joined(p, 3, []);
    s := Joined(p, 2, s);
    s := Joined(p, 1, s);
    s := Joined(p, 0, s);
    p := OutcomeParts(MarketOutcome(id as int, [a]));
    s := Joined(p, 1, []);
    s := Joined(p, 0, s);
  }

  lemma ShortRecords(id: byte, tag: byte, a: byte)
    requires 0 < id < 0x80
    ensures NumBytes(0x08, id as int) == [0x08, id] && StringBytes(tag, [a]) == [tag, 1, a]
  {
  }

  lemma FourParts(p: seq<seq<byte>>)
    requires |p| == 4
    ensures Join(p, 0) == p[0] + p[1] + p[2] + p[3]
  {
    var s := Joined(p, 3, []);
    s := Joined(p, 2, s);
    s := Joined(p, 1, s);
    s := Joined(p, 0, s);
  }

  lemma NoParams()
    ensures TagBytes(0x0a, []) == [0x0a, 0]
  {
    assert VarintBytes(0) == [0];
  }

  /** A genesis state prints its params, though empty, and then the nested messages, each with
      its length: commits, reveals and outcomes. */
  lemma GenesisPrints(g: Genesis)
    ensures GenesisBytes(g)
         == [0x0a, 0] + RepeatedBytes(0x12, CommitList(g.commits), 0) + RepeatedBytes(0x1a, RevealList(g.revealed), 0)
            + RepeatedBytes(0x22, OutcomeList(g.outcomes), 0)
  {
    NoParams();
    FourParts(GenesisParts(g));
  }

  // ---------- Fields a message does not know ----------

  lemma MarketUnknown(m: Market, a: Slice, u: Slice, b: Slice)
    requires StandsFor(MARKET_SCHEMA, u, |u|, Unknown)
    requires |a| + |u| + |b| < 0x8000_0000_0000_0000 && ParseMarket(m, a).Ok?
    ensures ParseMarket(m, u) == Ok(m)
    ensures Agree(ParseMarket(m, a + u + b), ParseMarket(m, a + b))
  {
    OneIsDropped(MARKET_SCHEMA, ReadMarketField, ApplyMarket, m, u);
    UnknownIsDropped(MARKET_SCHEMA, ReadMarketField, ApplyMarket, m, a, u, b);
  }

  lemma CommitUnknown(m: Commit, a: Slice, u: Slice, b: Slice)
    requires StandsFor(COMMIT_SCHEMA, u, |u|, Unknown)
    requires |a| + |u| + |b| < 0x8000_0000_0000_0000 && ParseCommit(m, a).Ok?
    ensures ParseCommit(m, u) == Ok(m)
    ensures Agree(ParseCommit(m, a + u + b), ParseCommit(m, a + b))
  {
    OneIsDropped(COMMIT_SCHEMA, ReadCommitField, VoteCodec.ApplyCommit, m, u);
    UnknownIsDropped(COMMIT_SCHEMA, ReadCommitField, VoteCodec.ApplyCommit, m, a, u, b);
  }

  lemma RevealUnknown(m: Reveal, a: Slice, u: Slice, b: Slice)
    requires StandsFor(REVEAL_SCHEMA, u, |u|, Unknown)
    requires |a| + |u| + |b| < 0x8000_0000_0000_0000 && ParseReveal(m, a).Ok?
    ensures ParseReveal(m, u) == Ok(m)
    ensures Agree(ParseReveal(m, a + u + b), ParseReveal(m, a + b))
  {
    OneIsDropped(REVEAL_SCHEMA, ReadRevealField, VoteCodec.ApplyReveal, m, u);
    UnknownIsDropped(REVEAL_SCHEMA, ReadRevealField, VoteCodec.ApplyReveal, m, a, u, b);
  }

  lemma OutcomeUnknown(m: Outcome, a: Slice, u: Slice, b: Slice)
    requires StandsFor(OUTCOME_SCHEMA, u, |u|, Unknown)
    requires |a| + |u| + |b| < 0x8000_0000_0000_0000 && ParseOutcome(m, a).Ok?
    ensures ParseOutcome(m, u) == Ok(m)
    ensures Agree(ParseOutcome(m, a + u + b), ParseOutcome(m, a + b))
  {
    OneIsDropped(OUTCOME_SCHEMA, ReadOutcomeField, VoteCodec.ApplyOutcome, m, u);
    UnknownIsDropped(OUTCOME_SCHEMA, ReadOutcomeField, VoteCodec.ApplyOutcome, m, a, u, b);
  }

  lemma GenesisUnknown(g: Genesis, a: Slice, u: Slice, b: Slice)
    requires StandsFor(GENESIS_SCHEMA, u, |u|, Unknown)
    requires |a| + |u| + |b| < 0x8000_0000_0000_0000 && ParseGenesis(g, a).Ok?
    ensures ParseGenesis(g, u) == Ok(g)
    ensures Agree(ParseGenesis(g, a + u + b), ParseGenesis(g, a + b))
  {
    OneIsDropped(GENESIS_SCHEMA, ReadGenesisField, ApplyGenesis, g, u);
    UnknownIsDropped(GENESIS_SCHEMA, ReadGenesisField, ApplyGenesis, g, a, u, b);
  }

  /** A string in field 11, which no market has: its bytes are no records of the market's. */
  lemma FieldEleven(m: Market, b: seq<byte>)
    requires |TagBytes(0x5a, b)| < 0x8000_0000_0000_0000
    ensures ParseMarket(m, TagBytes(0x5a, b)) == Ok(m)
  {
    var u, len := TagBytes(0x5a, b), VarintBytes(|b|);
    UintBytesMean(|b|);
    UintBytesMean(0x5a);
    assert u[0..1] == VarintBytes(0x5a);
    assert u[1..1 + |len|] == len;
    assert IsFieldTag(u, 0, 1, 11, WireType(Sized(1 + |len|)));
    assert IsValue(Sized(1 + |len|), u, 1, |u|);
    assert IsRecordOf(u, |u|, 11);
    OneIsDropped(MARKET_SCHEMA, ReadMarketField, ApplyMarket, m, u);
  }
}
