/** The generated codec of PredictionMarket. */
module MarketCodec {
  import opened GoInt
  import opened Results
  import opened Buffers
  import opened Wire
  import opened WireFacts
  import opened WirePrint
  import opened Messages

  type Market = PredictionMarket<seq<byte>>

  const EMPTY_MARKET: Market := PredictionMarket(0, [], [], [], 0, [], [], 0, 0, [])

  const MARKET_SCHEMA: Schema :=
    map[1 := VarintKind, 2 := BytesKind, 3 := BytesKind, 4 := BytesKind, 5 := VarintKind,
        6 := BytesKind, 7 := BytesKind, 8 := VarintKind, 9 := VarintKind, 10 := BytesKind]

  /** What one record does to the struct: scalars and strings are overwritten,
      repeated fields grow, unknown fields have no effect. */
  function ApplyMarket(m: Market, f: Field): Result<Market> {
    if f.Unknown? then Ok(m)
    else if f.Num? then
      Ok(match f.num
         case 1 => m.(id := f.v)
         case 5 => m.(deadline := ToInt64(f.v))
         case 8 => m.(createdAt := ToInt64(f.v))
         case 9 => m.(totalPool := ToInt64(f.v))
         case _ => m)
    else
      Ok(match f.num
         case 2 => m.(question := f.b)
         case 3 => m.(outcomes := m.outcomes + [f.b])
         case 4 => m.(groupId := f.b)
         case 6 => m.(status := f.b)
         case 7 => m.(creator := f.b)
         case 10 => m.(outcomePools := m.outcomePools + [f.b])
         case _ => m)
  }

  function ReadMarketField(data: Slice, i: nat): Result<(Field, nat)> {
    ReadField(MARKET_SCHEMA, data, i)
  }

  function ParseMarket(m: Market, data: Slice): Result<Market> {
    Parse(ReadMarketField, ApplyMarket, m, data, 0)
  }

  /** The records of a market, one group a field. */
  function MarketGroups(m: Market): (g: seq<seq<Field>>)
    ensures |g| == 10
  {
    [ NumFields(1, m.id),
      StringFields(2, m.question),
      RepeatedFields(3, m.outcomes),
      StringFields(4, m.groupId),
      NumFields(5, ToUint64(m.deadline)),
      StringFields(6, m.status),
      StringFields(7, m.creator),
      NumFields(8, ToUint64(m.createdAt)),
      NumFields(9, ToUint64(m.totalPool)),
      RepeatedFields(10, m.outcomePools) ]
  }

  /** The bytes of a market, one part a field, with the tags of the printer. */
  function MarketParts(m: Market): (p: seq<seq<byte>>)
    ensures |p| == 10
  {
    [ NumBytes(0x08, m.id),
      StringBytes(0x12, m.question),
      RepeatedBytes(0x1a, m.outcomes, 0),
      StringBytes(0x22, m.groupId),
      NumBytes(0x28, ToUint64(m.deadline)),
      StringBytes(0x32, m.status),
      StringBytes(0x3a, m.creator),
      NumBytes(0x40, ToUint64(m.createdAt)),
      NumBytes(0x48, ToUint64(m.totalPool)),
      RepeatedBytes(0x52, m.outcomePools, 0) ]
  }

  function MarketBytes(m: Market): seq<byte> {
    Join(MarketParts(m), 0)
  }

  lemma PartsAreGroups(m: Market, k: nat)
    requires k < 10
    ensures AllFit(MARKET_SCHEMA, MarketGroups(m)[k])
    ensures MarketParts(m)[k] == FieldsBytes(MARKET_SCHEMA, MarketGroups(m)[k])
  {
    match k
    case 0 => NumGroup(MARKET_SCHEMA, 1, m.id);
    case 1 => StringGroup(MARKET_SCHEMA, 2, m.question);
    case 2 => RepeatedGroup(MARKET_SCHEMA, 3, m.outcomes);
    case 3 => StringGroup(MARKET_SCHEMA, 4, m.groupId);
    case 4 => NumGroup(MARKET_SCHEMA, 5, ToUint64(m.deadline));
    case 5 => StringGroup(MARKET_SCHEMA, 6, m.status);
    case 6 => StringGroup(MARKET_SCHEMA, 7, m.creator);
    case 7 => NumGroup(MARKET_SCHEMA, 8, ToUint64(m.createdAt));
    case 8 => NumGroup(MARKET_SCHEMA, 9, ToUint64(m.totalPool));
    case _ => RepeatedGroup(MARKET_SCHEMA, 10, m.outcomePools);
  }

  /** Proto3 merging of the first k fields of m over base: a zero scalar or an
      empty string leaves the old value, repeated fields append. */
  function Overlay(base: Market, m: Market, k: nat): Market {
    PredictionMarket(
      if k > 0 && m.id != 0 then m.id else base.id,
      if k > 1 && m.question != [] then m.question else base.question,
      if k > 2 then base.outcomes + m.outcomes else base.outcomes,
      if k > 3 && m.groupId != [] then m.groupId else base.groupId,
      if k > 4 && m.deadline != 0 then m.deadline else base.deadline,
      if k > 5 && m.status != [] then m.status else base.status,
      if k > 6 && m.creator != [] then m.creator else base.creator,
      if k > 7 && m.createdAt != 0 then m.createdAt else base.createdAt,
      if k > 8 && m.totalPool != 0 then m.totalPool else base.totalPool,
      if k > 9 then base.outcomePools + m.outcomePools else base.outcomePools)
  }

  lemma ApplyOutcomes(m: Market, bs: seq<seq<byte>>)
    ensures ApplyAll(ApplyMarket, m, RepeatedFields(3, bs)) == Ok(m.(outcomes := m.outcomes + bs))
  {
    var with := (l: seq<seq<byte>>) => m.(outcomes := m.outcomes + l);
    forall k | 0 <= k < |bs| ensures ApplyMarket(with(bs[..k]), Bytes(3, bs[k])) == Ok(with(bs[..k + 1])) {
      assert m.outcomes + bs[..k + 1] == m.outcomes + bs[..k] + [bs[k]];
    }
    ApplyElements(ApplyMarket, with, 3, bs, bs);
    assert m.outcomes + [] == m.outcomes;
  }

  lemma ApplyPools(m: Market, bs: seq<seq<byte>>)
    ensures ApplyAll(ApplyMarket, m, RepeatedFields(10, bs)) == Ok(m.(outcomePools := m.outcomePools + bs))
  {
    var with := (l: seq<seq<byte>>) => m.(outcomePools := m.outcomePools + l);
    forall k | 0 <= k < |bs| ensures ApplyMarket(with(bs[..k]), Bytes(10, bs[k])) == Ok(with(bs[..k + 1])) {
      assert m.outcomePools + bs[..k + 1] == m.outcomePools + bs[..k] + [bs[k]];
    }
    ApplyElements(ApplyMarket, with, 10, bs, bs);
    assert m.outcomePools + [] == m.outcomePools;
  }

  lemma ApplyGroup(base: Market, m: Market, k: nat)
    requires k < 10
    ensures ApplyAll(ApplyMarket, Overlay(base, m, k), MarketGroups(m)[k]) == Ok(Overlay(base, m, k + 1))
  {
    var g, u := MarketGroups(m)[k], Overlay(base, m, k);
    match k
    case 0 => assert g == NumFields(1, m.id);
    case 1 => assert g == StringFields(2, m.question);
    case 2 => ApplyOutcomes(u, m.outcomes);
    case 3 => assert g == StringFields(4, m.groupId);
    case 4 => assert g == NumFields(5, ToUint64(m.deadline));
    case 5 => assert g == StringFields(6, m.status);
    case 6 => assert g == StringFields(7, m.creator);
    case 7 => assert g == NumFields(8, ToUint64(m.createdAt));
    case 8 => assert g == NumFields(9, ToUint64(m.totalPool));
    case _ => ApplyPools(u, m.outcomePools);
  }

  /** Parsing a printed market into any struct merges it over what is there. */
  lemma ParseOverlays(base: Market, m: Market)
    requires |MarketBytes(m)| < 0x8000_0000_0000_0000
    ensures ParseMarket(base, MarketBytes(m)) == Ok(Overlay(base, m, 10))
  {
    var ms := seq(11, k requires 0 <= k <= 10 => Overlay(base, m, k));
    forall k | 0 <= k < 10
      ensures AllFit(MARKET_SCHEMA, MarketGroups(m)[k])
      ensures MarketParts(m)[k] == FieldsBytes(MARKET_SCHEMA, MarketGroups(m)[k])
      ensures ApplyAll(ApplyMarket, ms[k], MarketGroups(m)[k]) == Ok(ms[k + 1])
    {
      PartsAreGroups(m, k);
      ApplyGroup(base, m, k);
    }
    assert ms[0] == base;
    ParseMessage(MARKET_SCHEMA, ReadMarketField, ApplyMarket, ms, MarketGroups(m), MarketParts(m));
  }

  /** Unmarshal undoes Marshal: parsing a printed market into a fresh struct gives it back. */
  lemma MarketRoundTrip(m: Market)
    requires |MarketBytes(m)| < 0x8000_0000_0000_0000
    ensures ParseMarket(EMPTY_MARKET, MarketBytes(m)) == Ok(m)
  {
    ParseOverlays(EMPTY_MARKET, m);
    assert [] + m.outcomes == m.outcomes && [] + m.outcomePools == m.outcomePools;
  }

  /** Parsing a concatenation merges: scalars last-wins, repeated fields append. */
  lemma MarketMerge(m: Market, a: Slice, b: Slice)
    requires |a| + |b| < 0x8000_0000_0000_0000
    requires ParseMarket(m, a).Ok?
    ensures Agree(ParseMarket(m, a + b), ParseMarket(ParseMarket(m, a).value, b))
  {
    ReadersCompose(ReadMarketField, MARKET_SCHEMA);
    ConcatIsMerge(ReadMarketField, ApplyMarket, m, a, b);
  }

  /** The generated struct and its methods. */
  class MarketMessage {
    var id: uint64
    var question: seq<byte>
    var outcomes: seq<seq<byte>>
    var groupId: seq<byte>
    var deadline: int64
    var status: seq<byte>
    var creator: seq<byte>
    var createdAt: int64
    var totalPool: int64
    var outcomePools: seq<seq<byte>>

    function Value(): Market
      reads this
    {
      PredictionMarket(id, question, outcomes, groupId, deadline, status, creator, createdAt, totalPool, outcomePools)
    }

    method Size() returns (n: nat)
      requires |MarketBytes(Value())| < 0x8000_0000_0000_0000
      ensures n == |MarketBytes(Value())|
    {
      ghost var parts := MarketParts(Value());
      JoinTen(parts);
      n := SizeNum(id);
      var l := SizeString(question, 0x12);
      n := n + l;
      l := SizeRepeated(outcomes, 0x1a);
      n := n + l;
      l := SizeString(groupId, 0x22);
      n := n + l;
      l := SizeNum(ToUint64(deadline));
      n := n + l;
      l := SizeString(status, 0x32);
      n := n + l;
      l := SizeString(creator, 0x3a);
      n := n + l;
      l := SizeNum(ToUint64(createdAt));
      n := n + l;
      l := SizeNum(ToUint64(totalPool));
      n := n + l;
      l := SizeRepeated(outcomePools, 0x52);
      n := n + l;
    }

    /** Writes the message so that it ends right before `end`, last field first. */
    method MarshalToSizedBuffer(dAtA: array<byte>, end: nat) returns (n: nat)
      requires |MarketBytes(Value())| < 0x8000_0000_0000_0000 && |MarketBytes(Value())| <= end <= dAtA.Length
      modifies dAtA
      ensures n == |MarketBytes(Value())|
      ensures dAtA[..] == Splice(old(dAtA[..]), end - n, MarketBytes(Value()))
    {
      var i := MarshalLater(dAtA, end);
      i := MarshalEarlier(dAtA, i, end, old(dAtA[..]));
      n := end - i;
    }

    /** Fields 10 down to 6. */
    method MarshalLater(dAtA: array<byte>, end: nat) returns (i: nat)
      requires |MarketBytes(Value())| < 0x8000_0000_0000_0000 && |MarketBytes(Value())| <= end <= dAtA.Length
      modifies dAtA
      ensures PrintedFrom(MarketParts(Value()), 5, old(dAtA[..]), i, end, dAtA[..])
    {
      ghost var parts, o := MarketParts(Value()), dAtA[..];
      i := end;
      i := RepeatedPart(dAtA, i, 0x52, outcomePools, parts, 9, o, end);
      i := NumPart(dAtA, i, 0x48, ToUint64(totalPool), parts, 8, o, end);
      i := NumPart(dAtA, i, 0x40, ToUint64(createdAt), parts, 7, o, end);
      i := StringPart(dAtA, i, 0x3a, creator, parts, 6, o, end);
      i := StringPart(dAtA, i, 0x32, status, parts, 5, o, end);
    }

    /** Fields 5 down to 1, in front of the later ones. */
    method MarshalEarlier(dAtA: array<byte>, start: nat, end: nat, ghost o: seq<byte>) returns (i: nat)
      requires |MarketBytes(Value())| < 0x8000_0000_0000_0000 && |MarketBytes(Value())| <= end <= dAtA.Length == |o|
      requires PrintedFrom(MarketParts(Value()), 5, o, start, end, dAtA[..])
      modifies dAtA
      ensures PrintedFrom(MarketParts(Value()), 0, o, i, end, dAtA[..])
    {
      ghost var parts := MarketParts(Value());
      i := start;
      i := NumPart(dAtA, i, 0x28, ToUint64(deadline), parts, 4, o, end);
      i := StringPart(dAtA, i, 0x22, groupId, parts, 3, o, end);
      i := RepeatedPart(dAtA, i, 0x1a, outcomes, parts, 2, o, end);
      i := StringPart(dAtA, i, 0x12, question, parts, 1, o, end);
      i := NumPart(dAtA, i, 0x08, id, parts, 0, o, end);
    }

    method Marshal() returns (dAtA: array<byte>)
      requires |MarketBytes(Value())| < 0x8000_0000_0000_0000
      ensures fresh(dAtA) && dAtA[..] == MarketBytes(Value())
    {
      var size := Size();
      dAtA := new byte[size];
      ghost var o := dAtA[..];
      var n := MarshalToSizedBuffer(dAtA, size);
      SpliceIsSlices(o, 0, MarketBytes(Value()));
    }

    /** The parser's switch: the payload at iNdEx of the record at preIndex. */
    method Switch(dAtA: Slice, fieldNum: int, wireType: int, preIndex: nat, iNdEx: nat) returns (r: Result<nat>)
      requires preIndex < iNdEx <= |dAtA|
      modifies this
      ensures match ReadPayload(MARKET_SCHEMA, dAtA, preIndex, fieldNum, wireType, iNdEx)
        case Err(e) => r == Err(e)
        case Ok((f, j)) => r == Ok(j) && ApplyMarket(old(Value()), f) == Ok(Value())
    {
      match fieldNum {
        case 1 =>
          var x := NumCase(dAtA, wireType, iNdEx);
          if x.Err? { return Err(x.error); }
          id := x.value.0;
          return Ok(x.value.1);
        case 2 =>
          var x := BytesCase(dAtA, wireType, iNdEx);
          if x.Err? { return Err(x.error); }
          question := x.value.0;
          return Ok(x.value.1);
        case 3 =>
          var x := BytesCase(dAtA, wireType, iNdEx);
          if x.Err? { return Err(x.error); }
          outcomes := outcomes + [x.value.0];
          return Ok(x.value.1);
        case 4 =>
          var x := BytesCase(dAtA, wireType, iNdEx);
          if x.Err? { return Err(x.error); }
          groupId := x.value.0;
          return Ok(x.value.1);
        case 5 =>
          var x := NumCase(dAtA, wireType, iNdEx);
          if x.Err? { return Err(x.error); }
          deadline := ToInt64(x.value.0);
          return Ok(x.value.1);
        case _ =>
          r := LaterFields(dAtA, fieldNum, wireType, preIndex, iNdEx);
      }
    }

    /** Its cases from field 6 on. */
    method LaterFields(dAtA: Slice, fieldNum: int, wireType: int, preIndex: nat, iNdEx: nat) returns (r: Result<nat>)
      requires preIndex < iNdEx <= |dAtA| && !(1 <= fieldNum <= 5)
      modifies this
      ensures match ReadPayload(MARKET_SCHEMA, dAtA, preIndex, fieldNum, wireType, iNdEx)
        case Err(e) => r == Err(e)
        case Ok((f, j)) => r == Ok(j) && ApplyMarket(old(Value()), f) == Ok(Value())
    {
      match fieldNum {
        case 6 =>
          var x := BytesCase(dAtA, wireType, iNdEx);
          if x.Err? { return Err(x.error); }
          status := x.value.0;
          return Ok(x.value.1);
        case 7 =>
          var x := BytesCase(dAtA, wireType, iNdEx);
          if x.Err? { return Err(x.error); }
          creator := x.value.0;
          return Ok(x.value.1);
        case 8 =>
          var x := NumCase(dAtA, wireType, iNdEx);
          if x.Err? { return Err(x.error); }
          createdAt := ToInt64(x.value.0);
          return Ok(x.value.1);
        case 9 =>
          var x := NumCase(dAtA, wireType, iNdEx);
          if x.Err? { return Err(x.error); }
          totalPool := ToInt64(x.value.0);
          return Ok(x.value.1);
        case 10 =>
          var x := BytesCase(dAtA, wireType, iNdEx);
          if x.Err? { return Err(x.error); }
          outcomePools := outcomePools + [x.value.0];
          return Ok(x.value.1);
        case _ =>
          r := DefaultCase(dAtA, preIndex);
      }
    }

    /** Parses into the struct as it is. On an error the struct may be half updated. */
    method Unmarshal(dAtA: Slice) returns (err: Option<Error>)
      modifies this
      ensures ParseMarket(old(Value()), dAtA) == if err.Some? then Err(err.value) else Ok(Value())
    {
      var l, iNdEx := |dAtA|, 0;
      while iNdEx < l
        invariant 0 <= iNdEx <= l
        invariant Parse(ReadMarketField, ApplyMarket, Value(), dAtA, iNdEx) == ParseMarket(old(Value()), dAtA)
      {
        var tag := TagLoop(dAtA, iNdEx);
        if tag.Err? { return Some(tag.error); }
        var next := Switch(dAtA, tag.value.0, tag.value.1, iNdEx, tag.value.2);
        if next.Err? { return Some(next.error); }
        iNdEx := next.value;
      }
      return None;
    }
  }
}
