/** The record layer under every generated message parser and printer:
    tag, payload, skipping of unknown fields, and the loop over records. */
module Wire {
  import opened GoInt
  import opened Results
  import opened Varint

  datatype Kind = VarintKind | BytesKind

  /** The known fields of a message type. */
  type Schema = map<int, Kind>

  /** What a Go slice can hold: its length is a non-negative int. */
  type Slice = s: seq<byte> | |s| < 0x8000_0000_0000_0000

  /** One record as a parser sees it; the contents of an unknown field are dropped. */
  datatype Field = Num(num: int, v: uint64) | Bytes(num: int, b: seq<byte>) | Unknown

  // ---------- Reading one record ----------

  /** `iNdEx += n` on a Go int, and the negative-sum check that follows it. */
  function Advance(i: nat, n: nat): (r: Result<nat>)
    requires i < 0x8000_0000_0000_0000 && n < 0x8000_0000_0000_0000
    ensures r == if i + n < 0x8000_0000_0000_0000 then Ok(i + n) else Err(InvalidLength)
  {
    var k := ToInt64(i + n);
    if k < 0 then Err(InvalidLength) else Ok(k)
  }

  /** A length prefix: a varint read as an int, which must not be negative. */
  function Length(data: Slice, i: nat): (r: Result<(nat, nat)>)
    ensures r.Ok? ==> i < r.value.1 <= |data| && r.value.0 < 0x8000_0000_0000_0000
  {
    match Decode(data, i)
    case Err(e) => Err(e)
    case Ok((x, j)) => if ToInt64(x) < 0 then Err(InvalidLength) else Ok((ToInt64(x), j))
  }

  /** One step of skipping: past the value of a record, and the group depth after it. */
  function SkipValue(data: Slice, wireType: int, i: nat, depth: nat): (r: Result<(nat, nat)>)
    requires i <= |data|
    ensures r.Ok? ==> i <= r.value.0 < 0x8000_0000_0000_0000
  {
    match wireType
    case 0 => (match VarintEnd(data, i, 0)
               case Err(e) => Err(e)
               case Ok(j) => Ok((j, depth)))
    case 1 => (match Advance(i, 8)
               case Err(e) => Err(e)
               case Ok(j) => Ok((j, depth)))
    case 2 => (match Length(data, i)
               case Err(e) => Err(e)
               case Ok((n, j)) =>
                 match Advance(j, n)
                 case Err(e) => Err(e)
                 case Ok(k) => Ok((k, depth)))
    case 3 => Ok((i, depth + 1))
    case 4 => if depth == 0 then Err(UnexpectedEndOfGroup) else Ok((i, depth - 1))
    case 5 => (match Advance(i, 4)
               case Err(e) => Err(e)
               case Ok(j) => Ok((j, depth)))
    case _ => Err(IllegalWireType)
  }

  /** skip: the length of the record at the start of data, groups included. */
  function Skip(data: Slice, i: nat, depth: nat): (r: Result<nat>)
    ensures r.Ok? ==> i < r.value < 0x8000_0000_0000_0000
    decreases |data| - i
  {
    if i >= |data| then Err(UnexpectedEOF)
    else
      match Decode(data, i)
      case Err(e) => Err(e)
      case Ok((wire, j)) =>
        match SkipValue(data, wire % 8, j, depth)
        case Err(e) => Err(e)
        case Ok((k, depth')) => if depth' == 0 then Ok(k) else Skip(data, k, depth')
  }

  /** A length-delimited payload: where it starts and ends. */
  function Delimited(data: Slice, i: nat): (r: Result<(nat, nat)>)
    ensures r.Ok? ==> i < r.value.0 <= r.value.1 <= |data|
  {
    match Length(data, i)
    case Err(e) => Err(e)
    case Ok((n, j)) =>
      match Advance(j, n)
      case Err(e) => Err(e)
      case Ok(k) => if k > |data| then Err(UnexpectedEOF) else Ok((j, k))
  }

  /** An unknown field: the record at i is skipped whole. */
  function ReadUnknown(data: Slice, i: nat): (r: Result<(Field, nat)>)
    requires i < |data|
    ensures r.Ok? ==> i < r.value.1 <= |data|
  {
    match Skip(data[i..], 0, 0)
    case Err(e) => Err(e)
    case Ok(n) =>
      match Advance(i, n)
      case Err(e) => Err(e)
      case Ok(k) => if k > |data| then Err(UnexpectedEOF) else Ok((Unknown, k))
  }

  /** A tag: field number, wire type, and the index after it. */
  function ReadTag(data: Slice, i: nat): (r: Result<(int, int, nat)>)
    ensures r.Ok? ==> i < r.value.2 <= |data|
  {
    match Decode(data, i)
    case Err(e) => Err(e)
    case Ok((wire, j)) =>
      var num, wireType := ToInt32(wire / 8), wire % 8;
      if wireType == 4 then Err(EndGroupOutsideGroup)
      else if num <= 0 then Err(IllegalTag)
      else Ok((num, wireType, j))
  }

  function ReadNum(data: Slice, wireType: int, i: nat): (r: Result<(uint64, nat)>)
    ensures r.Ok? ==> i < r.value.1 <= |data|
  {
    if wireType != 0 then Err(WrongWireType) else Decode(data, i)
  }

  function ReadBytes(data: Slice, wireType: int, i: nat): (r: Result<(seq<byte>, nat)>)
    ensures r.Ok? ==> i < r.value.1 <= |data|
  {
    if wireType != 2 then Err(WrongWireType)
    else
      match Delimited(data, i)
      case Err(e) => Err(e)
      case Ok((j, k)) => Ok((data[j..k], k))
  }

  /** The payload at j of field num of the record at i. */
  function ReadPayload(schema: Schema, data: Slice, i: nat, num: int, wireType: int, j: nat): (r: Result<(Field, nat)>)
    requires i < j <= |data|
    ensures r.Ok? ==> i < r.value.1 <= |data|
  {
    if num !in schema then ReadUnknown(data, i)
    else if schema[num].VarintKind? then
      match ReadNum(data, wireType, j)
      case Err(e) => Err(e)
      case Ok((v, k)) => Ok((Num(num, v), k))
    else
      match ReadBytes(data, wireType, j)
      case Err(e) => Err(e)
      case Ok((b, k)) => Ok((Bytes(num, b), k))
  }

  /** The record at i and the index after it. */
  function ReadField(schema: Schema, data: Slice, i: nat): (r: Result<(Field, nat)>)
    ensures r.Ok? ==> i < r.value.1 <= |data|
  {
    match ReadTag(data, i)
    case Err(e) => Err(e)
    case Ok((num, wireType, j)) => ReadPayload(schema, data, i, num, wireType, j)
  }

  /** How a message type reads one of its records. */
  type Reader = (Slice, nat) -> Result<(Field, nat)>

  /** The parser loop: every record from i on is applied to m in turn. */
  function Parse<M>(read: Reader, apply: (M, Field) -> Result<M>, m: M, data: Slice, i: nat): Result<M>
    decreases |data| - i
  {
    if i >= |data| then Ok(m)
    else
      match read(data, i)
      case Err(e) => Err(e)
      case Ok((f, j)) =>
        if !(i < j <= |data|) then Err(UnexpectedEOF)  // no reader does this
        else
          match apply(m, f)
          case Err(e) => Err(e)
          case Ok(m') => Parse(read, apply, m', data, j)
  }

  // ---------- The loops as written ----------

  /** The switch of skip on the wire type; the index it leads to may have wrapped around. */
  method SkipSwitch(dAtA: Slice, wireType: int, i: nat, depth: nat) returns (r: Result<(int, nat)>)
    requires i <= |dAtA|
    ensures match r
      case Err(e) => SkipValue(dAtA, wireType, i, depth) == Err(e)
      case Ok((j, d)) => SkipValue(dAtA, wireType, i, depth) == if j < 0 then Err(InvalidLength) else Ok((j, d))
  {
    match wireType {
      case 0 =>
        var x := ReadVarint(dAtA, i);
        if x.Err? { return Err(x.error); }
        return Ok((x.value.1, depth));
      case 1 =>
        return Ok((ToInt64(i + 8), depth));
      case 2 =>
        var x := ReadVarint(dAtA, i);
        if x.Err? { return Err(x.error); }
        var length := ToInt64(x.value.0);
        if length < 0 { return Err(InvalidLength); }
        return Ok((ToInt64(x.value.1 + length), depth));
      case 3 =>
        return Ok((i, depth + 1));
      case 4 =>
        if depth == 0 { return Err(UnexpectedEndOfGroup); }
        return Ok((i, depth - 1));
      case 5 =>
        return Ok((ToInt64(i + 4), depth));
      case _ =>
        return Err(IllegalWireType);
    }
  }

  /** skip as written; dAtA is the slice from the record's tag on. */
  method SkipLoop(dAtA: Slice) returns (r: Result<nat>)
    ensures r == Skip(dAtA, 0, 0)
  {
    var l, iNdEx, depth := |dAtA|, 0, 0;
    while iNdEx < l
      invariant 0 <= iNdEx < 0x8000_0000_0000_0000 && 0 <= depth
      invariant Skip(dAtA, iNdEx, depth) == Skip(dAtA, 0, 0)
    {
      var tag := ReadVarint(dAtA, iNdEx);
      if tag.Err? { return Err(tag.error); }
      var next := SkipSwitch(dAtA, tag.value.0 % 8, tag.value.1, depth);
      if next.Err? { return Err(next.error); }
      iNdEx, depth := next.value.0, next.value.1;
      if iNdEx < 0 { return Err(InvalidLength); }
      if depth == 0 { return Ok(iNdEx); }
    }
    return Err(UnexpectedEOF);
  }

  /** The head of every parser's loop body. */
  method TagLoop(dAtA: Slice, i: nat) returns (r: Result<(int, int, nat)>)
    ensures r == ReadTag(dAtA, i)
  {
    var tag := ReadVarint(dAtA, i);
    if tag.Err? { return Err(tag.error); }
    var wire := tag.value.0;
    var fieldNum, wireType := ToInt32(wire / 8), wire % 8;
    if wireType == 4 { return Err(EndGroupOutsideGroup); }
    if fieldNum <= 0 { return Err(IllegalTag); }
    return Ok((fieldNum, wireType, tag.value.1));
  }

  /** A case of a parser's switch for a varint field. */
  method NumCase(dAtA: Slice, wireType: int, i: nat) returns (r: Result<(uint64, nat)>)
    ensures r == ReadNum(dAtA, wireType, i)
  {
    if wireType != 0 { return Err(WrongWireType); }
    r := ReadVarint(dAtA, i);
  }

  /** A case of a parser's switch for a string, bytes or message field. */
  method BytesCase(dAtA: Slice, wireType: int, i: nat) returns (r: Result<(seq<byte>, nat)>)
    ensures r == ReadBytes(dAtA, wireType, i)
  {
    if wireType != 2 { return Err(WrongWireType); }
    var x := ReadVarint(dAtA, i);
    if x.Err? { return Err(x.error); }
    var iNdEx := x.value.1;
    var length := ToInt64(x.value.0);
    if length < 0 { return Err(InvalidLength); }
    var postIndex := ToInt64(iNdEx + length);
    if postIndex < 0 { return Err(InvalidLength); }
    if postIndex > |dAtA| { return Err(UnexpectedEOF); }
    return Ok((dAtA[iNdEx..postIndex], postIndex));
  }

  /** The default case of a parser's switch; i is the index of the tag. */
  method DefaultCase(dAtA: Slice, i: nat) returns (r: Result<nat>)
    requires i < |dAtA|
    ensures r == match ReadUnknown(dAtA, i) case Err(e) => Err(e) case Ok((_, k)) => Ok(k)
    ensures r.Ok? ==> i < r.value <= |dAtA| && ReadUnknown(dAtA, i) == Ok((Unknown, r.value))
  {
    var skippy := SkipLoop(dAtA[i..]);
    if skippy.Err? { return Err(skippy.error); }
    var iNdEx := ToInt64(i + skippy.value);
    if skippy.value < 0 || iNdEx < 0 { return Err(InvalidLength); }
    if iNdEx > |dAtA| { return Err(UnexpectedEOF); }
    return Ok(iNdEx);
  }
}
