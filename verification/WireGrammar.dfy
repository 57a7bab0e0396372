/** The wire format as a grammar of its own: what bytes are a tag, a value and a record, whatever
    the kind and however groups nest. A parser reads exactly those records, and passes over the
    fields it does not know. */
module WireGrammar {
  import opened GoInt
  import opened Results
  import opened Varint
  import opened Wire
  import opened WireFacts

  // ---------- The grammar ----------

  /** How the bytes of a value are laid out: a varint, eight bytes, a length that ends at
      payload and that many bytes from there, the records of a group, or four bytes. */
  datatype Value = VarintValue | EightBytes | Sized(payload: nat) | Group(body: Body) | FourBytes

  /** The records of a group up to its end tag; a record's tag ends at value, its value at end. */
  datatype Body = EndTag | Record(value: nat, layout: Value, end: nat, rest: Body)

  /** data[i..j] is a varint of at most ten bytes. */
  predicate IsVarintAt(data: seq<byte>, i: nat, j: nat) {
    i < j <= |data| && j - i <= 10 && IsVarint(data[i..j])
  }

  /** The uint64 that data[i..j] stands for. */
  function Meaning(data: seq<byte>, i: nat, j: nat): uint64
    requires i <= j <= |data|
  {
    ToUint64(Leb(data[i..j]))
  }

  function WireType(v: Value): nat {
    match v
    case VarintValue => 0
    case EightBytes => 1
    case Sized(_) => 2
    case Group(_) => 3
    case FourBytes => 5
  }

  /** data[i..j] is a tag of this wire type. */
  predicate IsTag(data: seq<byte>, i: nat, j: nat, wireType: nat) {
    IsVarintAt(data, i, j) && Meaning(data, i, j) % 8 == wireType
  }

  /** data[i..j] is a value so laid out. */
  predicate IsValue(v: Value, data: seq<byte>, i: nat, j: nat) {
    match v
    case VarintValue => IsVarintAt(data, i, j)
    case EightBytes => j == i + 8 <= |data|
    case Sized(k) => IsVarintAt(data, i, k) && j == k + Meaning(data, i, k) <= |data|
    case Group(body) => IsBody(body, data, i, j)
    case FourBytes => j == i + 4 <= |data|
  }

  /** data[i..j] is the records of a group and its end tag, which has wire type 4. */
  predicate IsBody(body: Body, data: seq<byte>, i: nat, j: nat) {
    match body
    case EndTag => IsTag(data, i, j, 4)
    case Record(k, v, m, rest) => IsTag(data, i, k, WireType(v)) && IsValue(v, data, k, m) && IsBody(rest, data, m, j)
  }

  lemma VarintReads(data: seq<byte>, i: nat, j: nat)
    requires IsVarintAt(data, i, j)
    ensures Decode(data, i) == Ok((Meaning(data, i, j), j)) && VarintEnd(data, i, 0) == Ok(j)
  {
    VarintEndAt(data, i, j, 0);
  }

  lemma VarintThere(data: seq<byte>, i: nat)
    requires VarintEnd(data, i, 0).Ok?
    ensures IsVarintAt(data, i, VarintEnd(data, i, 0).value)
  {
    VarintEndShape(data, i, 0);
  }

  /** The two ways in which there is no varint at i: ten bytes that all ask for another, or no
      byte left before one that does not. */
  lemma {:induction false} NoVarint(data: seq<byte>, i: nat, n: nat)
    requires n <= 10 && i <= |data|
    ensures VarintEnd(data, i, n) == Err(IntOverflow)
       <==> i + (10 - n) <= |data| && forall k :: i <= k < i + (10 - n) ==> data[k] >= 0x80
    ensures VarintEnd(data, i, n) == Err(UnexpectedEOF)
       <==> |data| < i + (10 - n) && forall k :: i <= k < |data| ==> data[k] >= 0x80
    decreases 10 - n
  {
    if n < 10 && i < |data| && data[i] >= 0x80 {
      NoVarint(data, i + 1, n + 1);
    }
  }

  lemma {:induction false} ValueGoesOn(v: Value, data: seq<byte>, i: nat, j: nat)
    requires IsValue(v, data, i, j)
    ensures i < j <= |data| || (v.Sized? && i <= j <= |data|)
    decreases v
  {
    if v.Group? {
      BodyGoesOn(v.body, data, i, j);
    }
  }

  lemma {:induction false} BodyGoesOn(body: Body, data: seq<byte>, i: nat, j: nat)
    requires IsBody(body, data, i, j)
    ensures i < j <= |data|
    decreases body
  {
    match body
    case EndTag =>
    case Record(k, v, m, rest) =>
      ValueGoesOn(v, data, k, m);
      BodyGoesOn(rest, data, m, j);
  }

  // ---------- Skipping passes over a record ----------

  /** Where skipping goes on after a record that ends at i, at the depth then reached. */
  function After(data: Slice, i: nat, depth: nat): Result<nat> {
    if depth == 0 then Ok(i) else Skip(data, i, depth)
  }

  /** One tag, and the step of skipping that its wire type asks for. */
  lemma SkipsTag(data: Slice, i: nat, k: nat, wireType: nat, depth: nat)
    requires IsTag(data, i, k, wireType)
    ensures Skip(data, i, depth)
         == match SkipValue(data, wireType, k, depth)
            case Err(e) => Err(e)
            case Ok((j, d)) => After(data, j, d)
  {
    VarintReads(data, i, k);
  }

  /** A value that is not a group. */
  lemma SkipsPlain(data: Slice, i: nat, v: Value, j: nat, depth: nat)
    requires !v.Group? && IsValue(v, data, i, j)
    ensures i <= |data| && SkipValue(data, WireType(v), i, depth) == Ok((j, depth))
  {
    match v
    case VarintValue => VarintReads(data, i, j);
    case Sized(k) => VarintReads(data, i, k);
    case _ =>
  }

  /** The same when the step succeeds. */
  lemma SkipsOn(data: Slice, i: nat, k: nat, wireType: nat, depth: nat, j: nat, d: nat)
    requires IsTag(data, i, k, wireType) && SkipValue(data, wireType, k, depth) == Ok((j, d))
    ensures Skip(data, i, depth) == After(data, j, d)
  {
    SkipsTag(data, i, k, wireType, depth);
  }

  lemma PlainRecord(data: Slice, i: nat, k: nat, v: Value, j: nat, depth: nat)
    requires IsTag(data, i, k, WireType(v)) && !v.Group? && IsValue(v, data, k, j)
    ensures Skip(data, i, depth) == After(data, j, depth)
  {
    SkipsPlain(data, k, v, j, depth);
    SkipsOn(data, i, k, WireType(v), depth, j, depth);
  }

  lemma OpensAndCloses(data: Slice, k: nat, depth: nat)
    requires k <= |data|
    ensures SkipValue(data, 3, k, depth) == Ok((k, depth + 1))
    ensures depth > 0 ==> SkipValue(data, 4, k, depth) == Ok((k, depth - 1))
  {
  }

  lemma GroupOpens(data: Slice, i: nat, k: nat, depth: nat)
    requires IsTag(data, i, k, 3)
    ensures Skip(data, i, depth) == After(data, k, depth + 1)
  {
    OpensAndCloses(data, k, depth);
    SkipsOn(data, i, k, 3, depth, k, depth + 1);
  }

  lemma GroupCloses(data: Slice, i: nat, k: nat, depth: nat)
    requires IsTag(data, i, k, 4) && depth > 0
    ensures Skip(data, i, depth) == After(data, k, depth - 1)
  {
    OpensAndCloses(data, k, depth);
    SkipsOn(data, i, k, 4, depth, k, depth - 1);
  }

  lemma {:induction false} SkipsRecord(data: Slice, i: nat, k: nat, v: Value, j: nat, depth: nat)
    requires IsTag(data, i, k, WireType(v)) && IsValue(v, data, k, j)
    ensures Skip(data, i, depth) == After(data, j, depth)
    decreases v
  {
    if v.Group? {
      GroupOpens(data, i, k, depth);
      SkipsBody(data, k, v.body, j, depth + 1);
    } else {
      PlainRecord(data, i, k, v, j, depth);
    }
  }

  lemma {:induction false} SkipsBody(data: Slice, i: nat, body: Body, j: nat, depth: nat)
    requires IsBody(body, data, i, j) && depth > 0
    ensures Skip(data, i, depth) == After(data, j, depth - 1)
    decreases body
  {
    match body
    case EndTag => GroupCloses(data, i, j, depth);
    case Record(k, v, m, rest) =>
      SkipsRecord(data, i, k, v, m, depth);
      SkipsBody(data, m, rest, j, depth);
  }

  // ---------- Only records are skipped ----------

  /** What a step of skipping passes over inside the data is a value of its kind. */
  lemma PlainThere(data: Slice, i: nat, wireType: nat, depth: nat, j: nat, d: nat) returns (v: Value)
    requires i <= |data| && wireType != 3 && wireType != 4
    requires SkipValue(data, wireType, i, depth) == Ok((j, d)) && j <= |data|
    ensures d == depth && !v.Group? && WireType(v) == wireType && IsValue(v, data, i, j) && i <= j
  {
    if wireType == 0 {
      v := VarintValue;
      VarintThere(data, i);
    } else if wireType == 1 {
      v := EightBytes;
    } else if wireType == 2 {
      v := Sized(VarintEnd(data, i, 0).value);
      VarintThere(data, i);
    } else {
      v := FourBytes;
    }
  }

  /** Skipping that succeeds has read a tag, and has passed its value. */
  lemma TagThere(data: Slice, i: nat, depth: nat) returns (k: nat, wireType: nat, j: nat, d: nat)
    requires Skip(data, i, depth).Ok?
    ensures IsTag(data, i, k, wireType) && wireType < 8
    ensures SkipValue(data, wireType, k, depth) == Ok((j, d)) && Skip(data, i, depth) == After(data, j, d)
  {
    k := VarintEnd(data, i, 0).value;
    VarintThere(data, i);
    wireType := Meaning(data, i, k) % 8;
    SkipsTag(data, i, k, wireType, depth);
    var step := SkipValue(data, wireType, k, depth).value;
    j, d := step.0, step.1;
  }

  /** Skipping that ends inside the data got there from inside. */
  lemma EndsInside(data: Slice, j: nat, depth: nat)
    requires After(data, j, depth).Ok? && After(data, j, depth).value <= |data|
    ensures j <= |data|
  {
  }

  /** Skipping inside groups passes over the rest of the innermost one first. */
  lemma {:induction false} BodyThere(data: Slice, i: nat, depth: nat) returns (body: Body, j: nat)
    requires depth > 0 && Skip(data, i, depth).Ok? && Skip(data, i, depth).value <= |data|
    ensures IsBody(body, data, i, j) && Skip(data, i, depth) == After(data, j, depth - 1)
    ensures i < j <= |data|
    decreases |data| - i, 0
  {
    var k, wireType, m, d := TagThere(data, i, depth);
    if wireType == 4 {
      body, j := EndTag, k;
    } else {
      var v: Value;
      v, m := ValueThere(data, k, wireType, m, d, depth);
      var rest;
      rest, j := BodyThere(data, m, depth);
      body := Record(k, v, m, rest);
    }
  }

  lemma {:induction false} ValueThere(data: Slice, k: nat, wireType: nat, m: nat, d: nat, depth: nat)
    returns (v: Value, j: nat)
    requires k <= |data| && wireType != 4 && SkipValue(data, wireType, k, depth) == Ok((m, d))
    requires After(data, m, d).Ok? && After(data, m, d).value <= |data|
    ensures WireType(v) == wireType && IsValue(v, data, k, j) && k <= j <= |data|
    ensures After(data, m, d) == After(data, j, depth)
    decreases |data| - k, 1
  {
    if wireType == 3 {
      OpensAndCloses(data, k, depth);
      var body;
      body, j := BodyThere(data, k, depth + 1);
      v := Group(body);
      GroupIsValue(body, data, k, j);
    } else {
      EndsInside(data, m, d);
      v := PlainThere(data, k, wireType, depth, m, d);
      j := m;
    }
  }

  lemma GroupIsValue(body: Body, data: seq<byte>, i: nat, j: nat)
    requires IsBody(body, data, i, j)
    ensures WireType(Group(body)) == 3 && IsValue(Group(body), data, i, j)
  {
  }

  // ---------- Unknown fields ----------

  /** data[i..n] is one record: a tag that ends at k, and a value of its wire type. */
  ghost predicate IsRecord(data: seq<byte>, i: nat, n: nat) {
    exists k, v :: IsTag(data, i, k, WireType(v)) && IsValue(v, data, k, n)
  }

  /** Skipping from a tag ends at n inside the data exactly when the bytes up to n are one
      record, whatever its kind and however its groups nest. */
  lemma SkipExact(data: Slice, i: nat, n: nat)
    requires n <= |data|
    ensures Skip(data, i, 0) == Ok(n) <==> IsRecord(data, i, n)
  {
    if IsRecord(data, i, n) {
      var k, v :| IsTag(data, i, k, WireType(v)) && IsValue(v, data, k, n);
      SkipsRecord(data, i, k, v, n, 0);
    }
    if Skip(data, i, 0) == Ok(n) {
      var k, wireType, m, d := TagThere(data, i, 0);
      if wireType == 4 {
        assert false;
      }
      var v, j := ValueThere(data, k, wireType, m, d, 0);
      assert IsTag(data, i, k, WireType(v));
    }
  }

  /** data[i..k] is a tag of this field number and wire type. */
  predicate IsFieldTag(data: seq<byte>, i: nat, k: nat, num: int, wireType: nat) {
    IsTag(data, i, k, wireType) && ToInt32(Meaning(data, i, k) / 8) == num
  }

  /** The tag rules: the end of a group only inside one, and a positive field number. */
  lemma TagExact(data: Slice, i: nat, num: int, wireType: nat, k: nat)
    ensures ReadTag(data, i) == Ok((num, wireType, k))
       <==> num > 0 && wireType != 4 && IsFieldTag(data, i, k, num, wireType)
    ensures IsFieldTag(data, i, k, num, wireType) ==>
      ReadTag(data, i) == if wireType == 4 then Err(EndGroupOutsideGroup)
                          else if num <= 0 then Err(IllegalTag)
                          else Ok((num, wireType, k))
  {
    if IsFieldTag(data, i, k, num, wireType) {
      VarintReads(data, i, k);
    }
    if ReadTag(data, i).Ok? {
      VarintThere(data, i);
    }
  }

  /** data[..n] is one record that stands for f: a varint field of the schema, a bytes field of
      the schema, or any value at all in a field that the schema does not have. */
  ghost predicate StandsFor(schema: Schema, data: seq<byte>, n: nat, f: Field) {
    match f
    case Num(num, x) => num > 0 && num in schema && schema[num].VarintKind? && IsNumRecord(data, n, num, x)
    case Bytes(num, b) => num > 0 && num in schema && schema[num].BytesKind? && IsBytesRecord(data, n, num, b)
    case Unknown => exists num | num > 0 && num !in schema :: IsRecordOf(data, n, num)
  }

  ghost predicate IsNumRecord(data: seq<byte>, n: nat, num: int, x: uint64) {
    exists k :: IsFieldTag(data, 0, k, num, 0) && IsVarintAt(data, k, n) && x == Meaning(data, k, n)
  }

  ghost predicate IsBytesRecord(data: seq<byte>, n: nat, num: int, b: seq<byte>) {
    exists k, p: nat :: IsFieldTag(data, 0, k, num, 2) && IsPayload(data, k, p, n) && b == data[p..n]
  }

  /** data[k..p] is a length and data[p..n] that many bytes. */
  predicate IsPayload(data: seq<byte>, k: nat, p: nat, n: nat)
    ensures IsPayload(data, k, p, n) ==> p <= n <= |data|
  {
    IsValue(Sized(p), data, k, n)
  }

  ghost predicate IsRecordOf(data: seq<byte>, n: nat, num: int) {
    exists k, v :: IsFieldTag(data, 0, k, num, WireType(v)) && IsValue(v, data, k, n)
  }

  lemma NumReads(schema: Schema, data: Slice, n: nat, num: int, k: nat)
    requires num > 0 && num in schema && schema[num].VarintKind?
    requires IsFieldTag(data, 0, k, num, 0) && IsVarintAt(data, k, n)
    ensures ReadField(schema, data, 0) == Ok((Num(num, Meaning(data, k, n)), n))
  {
    TagExact(data, 0, num, 0, k);
    VarintReads(data, k, n);
  }

  lemma BytesReads(schema: Schema, data: Slice, n: nat, num: int, k: nat, p: nat)
    requires num > 0 && num in schema && schema[num].BytesKind?
    requires IsFieldTag(data, 0, k, num, 2) && IsPayload(data, k, p, n)
    ensures ReadField(schema, data, 0) == Ok((Bytes(num, data[p..n]), n))
  {
    TagExact(data, 0, num, 2, k);
    VarintReads(data, k, p);
    assert Delimited(data, k) == Ok((p, n));
  }

  lemma UnknownReads(schema: Schema, data: Slice, n: nat, num: int, k: nat, v: Value)
    requires num > 0 && num !in schema
    requires IsFieldTag(data, 0, k, num, WireType(v)) && IsValue(v, data, k, n)
    ensures ReadField(schema, data, 0) == Ok((Unknown, n))
  {
    TagExact(data, 0, num, WireType(v), k);
    ValueGoesOn(v, data, k, n);
    SkipsRecord(data, 0, k, v, n, 0);
    assert data[0..] == data;
  }

  lemma NumThere(data: Slice, n: nat, num: int, wireType: nat, k: nat, x: uint64)
    requires IsFieldTag(data, 0, k, num, wireType) && ReadNum(data, wireType, k) == Ok((x, n))
    ensures IsNumRecord(data, n, num, x)
  {
    VarintThere(data, k);
  }

  lemma BytesThere(data: Slice, n: nat, num: int, wireType: nat, k: nat, b: seq<byte>)
    requires IsFieldTag(data, 0, k, num, wireType) && ReadBytes(data, wireType, k) == Ok((b, n))
    ensures IsBytesRecord(data, n, num, b)
  {
    VarintThere(data, k);
    assert IsPayload(data, k, Delimited(data, k).value.0, n);
  }

  lemma UnknownThere(data: Slice, n: nat, num: int, wireType: nat, k: nat)
    requires IsFieldTag(data, 0, k, num, wireType) && ReadUnknown(data, 0) == Ok((Unknown, n))
    ensures IsRecordOf(data, n, num)
  {
    assert data[0..] == data;
    SkipExact(data, 0, n);
    var j, v :| IsTag(data, 0, j, WireType(v)) && IsValue(v, data, j, n);
    VarintReads(data, 0, j);
    VarintReads(data, 0, k);
  }

  /** What a record stands for, told from what was read. */
  lemma FieldThere(schema: Schema, data: Slice, n: nat, f: Field)
    requires ReadField(schema, data, 0) == Ok((f, n))
    ensures StandsFor(schema, data, n, f)
  {
    var (num, wireType, k) := ReadTag(data, 0).value;
    TagExact(data, 0, num, wireType, k);
    if num !in schema {
      UnknownThere(data, n, num, wireType, k);
    } else if schema[num].VarintKind? {
      NumThere(data, n, num, wireType, k, f.v);
    } else {
      BytesThere(data, n, num, wireType, k, f.b);
    }
  }

  /** A parser reads f and stops at n exactly when data[..n] is a record that stands for f. */
  lemma RecordExact(schema: Schema, data: Slice, n: nat, f: Field)
    ensures ReadField(schema, data, 0) == Ok((f, n)) <==> StandsFor(schema, data, n, f)
  {
    if StandsFor(schema, data, n, f) {
      match f
      case Num(num, x) =>
        var k :| IsFieldTag(data, 0, k, num, 0) && IsVarintAt(data, k, n) && x == Meaning(data, k, n);
        NumReads(schema, data, n, num, k);
      case Bytes(num, b) =>
        var k, p: nat :| IsFieldTag(data, 0, k, num, 2) && IsPayload(data, k, p, n) && b == data[p..n];
        BytesReads(schema, data, n, num, k, p);
      case Unknown =>
        var num :| num > 0 && num !in schema && IsRecordOf(data, n, num);
        var k, v :| IsFieldTag(data, 0, k, num, WireType(v)) && IsValue(v, data, k, n);
        UnknownReads(schema, data, n, num, k, v);
    } else if ReadField(schema, data, 0) == Ok((f, n)) {
      FieldThere(schema, data, n, f);
    }
  }

  /** Bytes with a proper tag that are refused for their kind. */
  lemma RecordRefused(schema: Schema, data: Slice, num: int, wireType: nat, k: nat)
    requires IsFieldTag(data, 0, k, num, wireType)
    ensures wireType == 4 ==> ReadField(schema, data, 0) == Err(EndGroupOutsideGroup)
    ensures wireType != 4 && num <= 0 ==> ReadField(schema, data, 0) == Err(IllegalTag)
    ensures wireType != 4 && num > 0 && num in schema && wireType != (if schema[num].VarintKind? then 0 else 2)
        ==> ReadField(schema, data, 0) == Err(WrongWireType)
    ensures wireType > 5 && num > 0 && num !in schema ==> ReadField(schema, data, 0) == Err(IllegalWireType)
  {
    TagExact(data, 0, num, wireType, k);
    if wireType > 5 {
      SkipsTag(data, 0, k, wireType, 0);
      assert data[0..] == data;
    }
  }

  // ---------- What a message makes of unknown fields ----------

  /** Unknown records have no effect on a message. */
  ghost predicate DropsUnknown<M(!new)>(apply: (M, Field) -> Result<M>) {
    forall m :: apply(m, Unknown) == Ok(m)
  }

  /** One unknown record leaves the message as it was and ends where its bytes end. */
  lemma OneIsDropped<M(!new)>(schema: Schema, read: Reader, apply: (M, Field) -> Result<M>, m: M, u: Slice)
    requires ReaderOf(read, schema) && DropsUnknown(apply) && StandsFor(schema, u, |u|, Unknown)
    ensures Parse(read, apply, m, u, 0) == Ok(m)
  {
    RecordExact(schema, u, |u|, Unknown);
    assert read(u, 0) == Ok((Unknown, |u|));
  }

  /** Bytes with an unknown record in between parse as without it. */
  lemma UnknownIsDropped<M(!new)>(schema: Schema, read: Reader, apply: (M, Field) -> Result<M>, m: M, a: Slice,
        u: Slice, b: Slice)
    requires ReaderOf(read, schema) && DropsUnknown(apply) && StandsFor(schema, u, |u|, Unknown)
    requires |a| + |u| + |b| < 0x8000_0000_0000_0000 && Parse(read, apply, m, a, 0).Ok?
    ensures Agree(Parse(read, apply, m, a + u + b, 0), Parse(read, apply, m, a + b, 0))
  {
    ReadersCompose(read, schema);
    var am := Parse(read, apply, m, a, 0).value;
    OneIsDropped(schema, read, apply, am, u);
    ConcatIsMerge(read, apply, m, a, u);
    ConcatIsMerge(read, apply, m, a + u, b);
    ConcatIsMerge(read, apply, m, a, b);
  }
}
