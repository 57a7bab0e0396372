/** Printing is the shortest form a parser accepts: what any accepted bytes parse to can
    be printed again in no more bytes, and read back. */
module Reprint {
  import opened GoInt
  import opened Results
  import opened Varint
  import opened Wire
  import opened WireFacts
  import opened WirePrint
  import opened Messages
  import opened VoteCodec
  import opened MarketCodec
  import opened GenesisCodec

  /** The bytes a record takes when printed. */
  function Cost(f: Field): nat {
    match f
    case Num(_, v) => |TagVarint(0, v)|
    case Bytes(_, b) => |TagBytes(0, b)|
    case Unknown => 0
  }

  // ---------- Reading costs at least as much as printing ----------

  /** A varint read from the input is no shorter than its value's own. */
  lemma VarintCost(data: seq<byte>, i: nat)
    requires Decode(data, i).Ok?
    ensures |VarintBytes(Decode(data, i).value.0)| <= Decode(data, i).value.1 - i
  {
    var (x, j) := Decode(data, i).value;
    VarintEndShape(data, i, 0);
    LebBelow(data[i..j]);
    assert x <= Leb(data[i..j]);
    VarintBytesMean(x, j - i);
  }

  lemma {:induction false} LebBelow(s: seq<byte>)
    ensures Leb(s) < Pow2(7 * |s|)
  {
    if s != [] {
      LebBelow(s[1..]);
      assert 7 * |s| == 7 * |s[1..]| + 7;
      ScaleSeven(1, 7 * |s[1..]|);
    }
  }

  lemma LengthCost(data: Slice, i: nat)
    requires Delimited(data, i).Ok?
    ensures var (j, k) := Delimited(data, i).value;
      |TagBytes(0, data[j..k])| <= 1 + (k - i)
  {
    VarintCost(data, i);
  }

  lemma PayloadCost(schema: Schema, data: Slice, i: nat, num: int, wireType: int, j: nat)
    requires i < j <= |data| && ReadPayload(schema, data, i, num, wireType, j).Ok?
    ensures var (f, k) := ReadPayload(schema, data, i, num, wireType, j).value;
      Cost(f) <= k - i
  {
    if num in schema {
      if schema[num].VarintKind? {
        VarintCost(data, j);
      } else {
        LengthCost(data, j);
      }
    }
  }

  lemma ReadCost(schema: Schema, data: Slice, i: nat)
    requires ReadField(schema, data, i).Ok? && i < |data|
    ensures var (f, k) := ReadField(schema, data, i).value;
      Cost(f) <= k - i
  {
    var (num, wireType, j) := ReadTag(data, i).value;
    PayloadCost(schema, data, i, num, wireType, j);
  }

  /** Taking a record in adds at most its cost to what the message takes. */
  ghost predicate Frugal<M(!new)>(apply: (M, Field) -> Result<M>, size: M -> nat) {
    forall m, f :: apply(m, f).Ok? ==> size(apply(m, f).value) <= size(m) + Cost(f)
  }

  lemma {:induction false} ParseCost<M(!new)>(schema: Schema, read: Reader, apply: (M, Field) -> Result<M>,
        size: M -> nat, m: M, data: Slice, i: nat)
    requires ReaderOf(read, schema) && Frugal(apply, size) && i <= |data|
    requires Parse(read, apply, m, data, i).Ok?
    ensures size(Parse(read, apply, m, data, i).value) <= size(m) + (|data| - i)
    decreases |data| - i
  {
    if i < |data| {
      ReadCost(schema, data, i);
      assert read(data, i) == ReadField(schema, data, i);
      var (f, j) := read(data, i).value;
      ParseCost(schema, read, apply, size, apply(m, f).value, data, j);
    }
  }

  // ---------- Parts of a message ----------

  lemma {:induction false} JoinUpdate(parts: seq<seq<byte>>, k: nat, x: seq<byte>, j: nat)
    requires k < |parts| && j <= k
    ensures |Join(parts[k := x], j)| + |parts[k]| == |Join(parts, j)| + |x|
    decreases k - j
  {
    if j < k {
      JoinUpdate(parts, k, x, j + 1);
    } else {
      JoinAfter(parts, k, x, k + 1);
    }
  }

  lemma {:induction false} JoinAfter(parts: seq<seq<byte>>, k: nat, x: seq<byte>, j: nat)
    requires k < |parts| && k < j
    ensures Join(parts[k := x], j) == Join(parts, j)
    decreases |parts| - j
  {
    if j < |parts| {
      JoinAfter(parts, k, x, j + 1);
    }
  }

  /** One part changes, growing by at most cost. */
  lemma PartGrows(parts: seq<seq<byte>>, parts': seq<seq<byte>>, k: nat, cost: nat)
    requires k < |parts| == |parts'| && parts' == parts[k := parts'[k]]
    requires |parts'[k]| <= |parts[k]| + cost
    ensures |Join(parts', 0)| <= |Join(parts, 0)| + cost
  {
    JoinUpdate(parts, k, parts'[k], 0);
  }

  lemma {:induction false} RepeatedGrows(tag: byte, bs: seq<seq<byte>>, b: seq<byte>, k: nat)
    requires k <= |bs|
    ensures |RepeatedBytes(tag, bs + [b], k)| == |RepeatedBytes(tag, bs, k)| + |TagBytes(tag, b)|
    decreases |bs| - k
  {
    var all := bs + [b];
    assert RepeatedBytes(tag, all, k) == TagBytes(tag, all[k]) + RepeatedBytes(tag, all, k + 1);
    if k < |bs| {
      RepeatedGrows(tag, bs, b, k + 1);
      assert all[k] == bs[k];
    } else {
      assert RepeatedBytes(tag, all, k + 1) == [] == RepeatedBytes(tag, bs, k);
    }
  }

  // ---------- Markets ----------

  /** The part a record changes. */
  lemma MarketPart(m: Market, f: Field) returns (k: nat)
    requires ApplyMarket(m, f) != Ok(m)
    ensures k < 10
    ensures var p, p' := MarketParts(m), MarketParts(ApplyMarket(m, f).value);
      p' == p[k := p'[k]] && |p'[k]| <= |p[k]| + Cost(f)
  {
    if f.Num? {
      k := NumPlace(m, f.num, f.v);
    } else if f.num == 3 {
      k := 2;
      RepeatedGrows(0x1a, m.outcomes, f.b, 0);
    } else if f.num == 10 {
      k := 9;
      RepeatedGrows(0x52, m.outcomePools, f.b, 0);
    } else {
      k := StringPlace(m, f.num, f.b);
    }
  }

  lemma NumPlace(m: Market, num: int, v: uint64) returns (k: nat)
    requires ApplyMarket(m, Num(num, v)) != Ok(m)
    ensures k < 10
    ensures var p, p' := MarketParts(m), MarketParts(ApplyMarket(m, Num(num, v)).value);
      p' == p[k := p'[k]] && |p'[k]| <= |TagVarint(0, v)|
  {
    UintBack(v);
    k := match num case 1 => 0 case 5 => 4 case 8 => 7 case _ => 8;
    NumParts(m, v, ToInt64(v));
  }

  lemma UintBack(v: uint64)
    ensures ToUint64(ToInt64(v)) == v
  {
  }

  lemma NumParts(m: Market, v: uint64, x: int64)
    ensures MarketParts(m.(id := v)) == MarketParts(m)[0 := NumBytes(0x08, v)]
    ensures MarketParts(m.(deadline := x)) == MarketParts(m)[4 := NumBytes(0x28, ToUint64(x))]
    ensures MarketParts(m.(createdAt := x)) == MarketParts(m)[7 := NumBytes(0x40, ToUint64(x))]
    ensures MarketParts(m.(totalPool := x)) == MarketParts(m)[8 := NumBytes(0x48, ToUint64(x))]
  {
  }

  lemma StringPlace(m: Market, num: int, b: seq<byte>) returns (k: nat)
    requires num != 3 && num != 10 && ApplyMarket(m, Bytes(num, b)) != Ok(m)
    ensures k < 10
    ensures var p, p' := MarketParts(m), MarketParts(ApplyMarket(m, Bytes(num, b)).value);
      p' == p[k := p'[k]] && |p'[k]| <= |TagBytes(0, b)|
  {
    k := match num case 2 => 1 case 4 => 3 case 6 => 5 case _ => 6;
    var p, p' := MarketParts(m), MarketParts(ApplyMarket(m, Bytes(num, b)).value);
    assert forall j :: 0 <= j < 10 && j != k ==> p'[j] == p[j];
  }

  function MarketSize(m: Market): nat {
    |MarketBytes(m)|
  }

  lemma MarketFrugal()
    ensures Frugal(ApplyMarket, MarketSize)
  {
    forall m: Market, f | ApplyMarket(m, f).Ok?
      ensures MarketSize(ApplyMarket(m, f).value) <= MarketSize(m) + Cost(f)
    {
      if ApplyMarket(m, f) != Ok(m) {
        var k := MarketPart(m, f);
        PartGrows(MarketParts(m), MarketParts(ApplyMarket(m, f).value), k, Cost(f));
      }
    }
  }

  lemma EmptyMarketSize()
    ensures MarketBytes(EMPTY_MARKET) == []
  {
    JoinTen(MarketParts(EMPTY_MARKET));
  }

  /** Whatever bytes a market is parsed from, it prints in no more, and reads back. */
  lemma MarketReprints(a: Slice, m: Market)
    requires ParseMarket(EMPTY_MARKET, a) == Ok(m)
    ensures |MarketBytes(m)| <= |a| && ParseMarket(EMPTY_MARKET, MarketBytes(m)) == Ok(m)
  {
    MarketFrugal();
    EmptyMarketSize();
    ParseCost(MARKET_SCHEMA, ReadMarketField, ApplyMarket, MarketSize, EMPTY_MARKET, a, 0);
    MarketRoundTrip(m);
  }

  // ---------- The genesis state and what is nested in it ----------

  function CommitSize(m: VoteCodec.Commit): nat {
    |CommitBytes(m)|
  }

  lemma CommitFrugal()
    ensures Frugal(VoteCodec.ApplyCommit, CommitSize)
  {
    forall m: VoteCodec.Commit, f | VoteCodec.ApplyCommit(m, f).Ok?
      ensures CommitSize(VoteCodec.ApplyCommit(m, f).value) <= CommitSize(m) + Cost(f)
    {
      var p, p' := CommitParts(m), CommitParts(VoteCodec.ApplyCommit(m, f).value);
      if VoteCodec.ApplyCommit(m, f) != Ok(m) {
        PartGrows(p, p', f.num - 1, Cost(f));
      }
    }
  }

  function RevealSize(m: VoteCodec.Reveal): nat {
    |RevealBytes(m)|
  }

  lemma RevealFrugal()
    ensures Frugal(VoteCodec.ApplyReveal, RevealSize)
  {
    forall m: VoteCodec.Reveal, f | VoteCodec.ApplyReveal(m, f).Ok?
      ensures RevealSize(VoteCodec.ApplyReveal(m, f).value) <= RevealSize(m) + Cost(f)
    {
      var p, p' := RevealParts(m), RevealParts(VoteCodec.ApplyReveal(m, f).value);
      if VoteCodec.ApplyReveal(m, f) != Ok(m) {
        PartGrows(p, p', f.num - 1, Cost(f));
      }
    }
  }

  function OutcomeSize(m: VoteCodec.Outcome): nat {
    |OutcomeBytes(m)|
  }

  lemma OutcomeFrugal()
    ensures Frugal(VoteCodec.ApplyOutcome, OutcomeSize)
  {
    forall m: VoteCodec.Outcome, f | VoteCodec.ApplyOutcome(m, f).Ok?
      ensures OutcomeSize(VoteCodec.ApplyOutcome(m, f).value) <= OutcomeSize(m) + Cost(f)
    {
      var p, p' := OutcomeParts(m), OutcomeParts(VoteCodec.ApplyOutcome(m, f).value);
      if VoteCodec.ApplyOutcome(m, f) != Ok(m) {
        PartGrows(p, p', f.num - 1, Cost(f));
      }
    }
  }

  lemma {:induction false} VarintGrows(x: nat, y: nat)
    requires x <= y
    ensures |VarintBytes(x)| <= |VarintBytes(y)|
  {
    if x >= 0x80 {
      VarintGrows(x / 0x80, y / 0x80);
    }
  }

  /** A nested message printed in no more bytes than it came in takes no more as a record. */
  lemma ElementGrows(tag: byte, bs: seq<seq<byte>>, printed: seq<byte>, b: seq<byte>)
    requires |printed| <= |b|
    ensures |RepeatedBytes(tag, bs + [printed], 0)| <= |RepeatedBytes(tag, bs, 0)| + |TagBytes(0, b)|
  {
    RepeatedGrows(tag, bs, printed, 0);
    VarintGrows(|printed|, |b|);
  }

  function GenesisSize(g: Genesis): nat {
    |GenesisBytes(g)|
  }

  lemma CommitPrinted(b: Slice)
    requires ParseCommit(EMPTY_COMMIT, b).Ok?
    ensures |CommitBytes(ParseCommit(EMPTY_COMMIT, b).value)| <= |b|
  {
    CommitFrugal();
    assert CommitBytes(EMPTY_COMMIT) == [];
    ParseCost(COMMIT_SCHEMA, ReadCommitField, VoteCodec.ApplyCommit, CommitSize, EMPTY_COMMIT, b, 0);
  }

  lemma CommitAdded(g: Genesis, c: VoteCodec.Commit, b: Slice)
    requires |CommitBytes(c)| <= |b|
    ensures GenesisSize(g.(commits := g.commits + [c])) <= GenesisSize(g) + |TagBytes(0, b)|
  {
    var p, p' := GenesisParts(g), GenesisParts(g.(commits := g.commits + [c]));
    assert CommitList(g.commits + [c]) == CommitList(g.commits) + [CommitBytes(c)];
    ElementGrows(0x12, CommitList(g.commits), CommitBytes(c), b);
    assert p' == p[1 := p'[1]];
    PartGrows(p, p', 1, |TagBytes(0, b)|);
  }

  lemma CommitTaken(g: Genesis, b: Slice)
    requires ParseCommit(EMPTY_COMMIT, b).Ok?
    ensures ApplyGenesis(g, Bytes(2, b)).Ok?
    ensures GenesisSize(ApplyGenesis(g, Bytes(2, b)).value) <= GenesisSize(g) + |TagBytes(0, b)|
  {
    CommitPrinted(b);
    CommitAdded(g, ParseCommit(EMPTY_COMMIT, b).value, b);
  }

  lemma RevealPrinted(b: Slice)
    requires ParseReveal(EMPTY_REVEAL, b).Ok?
    ensures |RevealBytes(ParseReveal(EMPTY_REVEAL, b).value)| <= |b|
  {
    RevealFrugal();
    assert RevealBytes(EMPTY_REVEAL) == [];
    ParseCost(REVEAL_SCHEMA, ReadRevealField, VoteCodec.ApplyReveal, RevealSize, EMPTY_REVEAL, b, 0);
  }

  lemma RevealAdded(g: Genesis, r: VoteCodec.Reveal, b: Slice)
    requires |RevealBytes(r)| <= |b|
    ensures GenesisSize(g.(revealed := g.revealed + [r])) <= GenesisSize(g) + |TagBytes(0, b)|
  {
    var p, p' := GenesisParts(g), GenesisParts(g.(revealed := g.revealed + [r]));
    assert RevealList(g.revealed + [r]) == RevealList(g.revealed) + [RevealBytes(r)];
    ElementGrows(0x1a, RevealList(g.revealed), RevealBytes(r), b);
    assert p' == p[2 := p'[2]];
    PartGrows(p, p', 2, |TagBytes(0, b)|);
  }

  lemma RevealTaken(g: Genesis, b: Slice)
    requires ParseReveal(EMPTY_REVEAL, b).Ok?
    ensures ApplyGenesis(g, Bytes(3, b)).Ok?
    ensures GenesisSize(ApplyGenesis(g, Bytes(3, b)).value) <= GenesisSize(g) + |TagBytes(0, b)|
  {
    RevealPrinted(b);
    RevealAdded(g, ParseReveal(EMPTY_REVEAL, b).value, b);
  }

  lemma OutcomePrinted(b: Slice)
    requires ParseOutcome(EMPTY_OUTCOME, b).Ok?
    ensures |OutcomeBytes(ParseOutcome(EMPTY_OUTCOME, b).value)| <= |b|
  {
    OutcomeFrugal();
    assert OutcomeBytes(EMPTY_OUTCOME) == [];
    ParseCost(OUTCOME_SCHEMA, ReadOutcomeField, VoteCodec.ApplyOutcome, OutcomeSize, EMPTY_OUTCOME, b, 0);
  }

  lemma OutcomeAdded(g: Genesis, o: VoteCodec.Outcome, b: Slice)
    requires |OutcomeBytes(o)| <= |b|
    ensures GenesisSize(g.(outcomes := g.outcomes + [o])) <= GenesisSize(g) + |TagBytes(0, b)|
  {
    var p, p' := GenesisParts(g), GenesisParts(g.(outcomes := g.outcomes + [o]));
    assert OutcomeList(g.outcomes + [o]) == OutcomeList(g.outcomes) + [OutcomeBytes(o)];
    ElementGrows(0x22, OutcomeList(g.outcomes), OutcomeBytes(o), b);
    assert p' == p[3 := p'[3]];
    PartGrows(p, p', 3, |TagBytes(0, b)|);
  }

  lemma OutcomeTaken(g: Genesis, b: Slice)
    requires ParseOutcome(EMPTY_OUTCOME, b).Ok?
    ensures ApplyGenesis(g, Bytes(4, b)).Ok?
    ensures GenesisSize(ApplyGenesis(g, Bytes(4, b)).value) <= GenesisSize(g) + |TagBytes(0, b)|
  {
    OutcomePrinted(b);
    OutcomeAdded(g, ParseOutcome(EMPTY_OUTCOME, b).value, b);
  }

  lemma GenesisFrugal()
    ensures Frugal(ApplyGenesis, GenesisSize)
  {
    forall g: Genesis, f | ApplyGenesis(g, f).Ok?
      ensures GenesisSize(ApplyGenesis(g, f).value) <= GenesisSize(g) + Cost(f)
    {
      GenesisTakes(g, f);
    }
  }

  lemma GenesisTakes(g: Genesis, f: Field)
    requires ApplyGenesis(g, f).Ok?
    ensures GenesisSize(ApplyGenesis(g, f).value) <= GenesisSize(g) + Cost(f)
  {
    if f.Bytes? && f.num == 2 {
      CommitTaken(g, f.b);
    } else if f.Bytes? && f.num == 3 {
      RevealTaken(g, f.b);
    } else if f.Bytes? && f.num == 4 {
      OutcomeTaken(g, f.b);
    } else if f.Bytes? && f.num == 1 {
      assert ParseParams(g.params, f.b).value == Params == g.params;
    }
  }

  lemma EmptyGenesisSize()
    ensures GenesisSize(EMPTY_GENESIS) == 2
  {
    var p := GenesisParts(EMPTY_GENESIS);
    assert CommitList([]) == [] && RevealList([]) == [] && OutcomeList([]) == [];
    assert Join(p, 2) == [] + Join(p, 3) == [];
    assert Join(p, 1) == [] + Join(p, 2) == [];
    assert Join(p, 0) == TagBytes(0x0a, []) + Join(p, 1);
  }

  /** The same for genesis states, which always print the two bytes of the params record. */
  lemma GenesisReprints(a: Slice, g: Genesis)
    requires ParseGenesis(EMPTY_GENESIS, a) == Ok(g)
    ensures |GenesisBytes(g)| <= |a| + 2
    ensures |a| + 2 < 0x8000_0000_0000_0000 ==> ParseGenesis(EMPTY_GENESIS, GenesisBytes(g)) == Ok(g)
  {
    GenesisFrugal();
    EmptyGenesisSize();
    ParseCost(GENESIS_SCHEMA, ReadGenesisField, ApplyGenesis, GenesisSize, EMPTY_GENESIS, a, 0);
    if |a| + 2 < 0x8000_0000_0000_0000 {
      GenesisRoundTrip(g);
    }
  }
}
