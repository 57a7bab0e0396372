/** Parsing is local and compositional: a record reads the same with more bytes
    behind it or in front of it, so parsing a concatenation is parsing the second
    part into what the first part gave. */
module WireFacts {
  import opened GoInt
  import opened Results
  import opened Varint
  import opened Wire

  /** Equal results, up to which error an unsuccessful parse reports. */
  ghost predicate Agree<T(!new)>(r: Result<T>, s: Result<T>) {
    r == s || (r.Err? && s.Err?)
  }

  // ---------- More bytes behind ----------

  lemma {:induction false} VarintEndAppend(a: seq<byte>, b: seq<byte>, i: nat, n: nat)
    requires n <= 10 && VarintEnd(a, i, n).Ok?
    ensures VarintEnd(a + b, i, n) == VarintEnd(a, i, n)
    decreases 10 - n
  {
    assert (a + b)[i] == a[i];
    if a[i] >= 0x80 {
      VarintEndAppend(a, b, i + 1, n + 1);
    }
  }

  lemma DecodeAppend(a: seq<byte>, b: seq<byte>, i: nat)
    requires Decode(a, i).Ok?
    ensures Decode(a + b, i) == Decode(a, i)
  {
    VarintEndAppend(a, b, i, 0);
    var j := VarintEnd(a, i, 0).value;
    assert (a + b)[i..j] == a[i..j];
  }

  lemma SkipValueAppend(a: Slice, b: seq<byte>, wireType: int, i: nat, depth: nat)
    requires i <= |a| && |a| + |b| < 0x8000_0000_0000_0000
    requires SkipValue(a, wireType, i, depth).Ok?
    ensures SkipValue(a + b, wireType, i, depth) == SkipValue(a, wireType, i, depth)
  {
    if wireType == 0 {
      VarintEndAppend(a, b, i, 0);
    } else if wireType == 2 {
      DecodeAppend(a, b, i);
    }
  }

  lemma {:induction false} SkipAppend(a: Slice, b: seq<byte>, i: nat, depth: nat)
    requires |a| + |b| < 0x8000_0000_0000_0000
    requires Skip(a, i, depth).Ok?
    ensures Skip(a + b, i, depth) == Skip(a, i, depth)
    decreases |a| - i
  {
    DecodeAppend(a, b, i);
    var (wire, j) := Decode(a, i).value;
    SkipValueAppend(a, b, wire % 8, j, depth);
    var (k, depth') := SkipValue(a, wire % 8, j, depth).value;
    if depth' != 0 {
      SkipAppend(a, b, k, depth');
    }
  }

  lemma DelimitedAppend(a: Slice, b: seq<byte>, i: nat)
    requires |a| + |b| < 0x8000_0000_0000_0000
    requires Delimited(a, i).Ok?
    ensures Delimited(a + b, i) == Delimited(a, i)
    ensures var (j, k) := Delimited(a, i).value; (a + b)[j..k] == a[j..k]
  {
    DecodeAppend(a, b, i);
  }

  lemma ReadFieldAppend(schema: Schema, a: Slice, b: seq<byte>, i: nat)
    requires i < |a| && |a| + |b| < 0x8000_0000_0000_0000
    requires ReadField(schema, a, i).Ok?
    ensures ReadField(schema, a + b, i) == ReadField(schema, a, i)
  {
    DecodeAppend(a, b, i);
    var (num, wireType, j) := ReadTag(a, i).value;
    if num !in schema {
      assert (a + b)[i..] == a[i..] + b;
      SkipAppend(a[i..], b, 0, 0);
    } else if schema[num].VarintKind? {
      DecodeAppend(a, b, j);
    } else {
      DelimitedAppend(a, b, j);
    }
  }

  // ---------- Bytes in front ----------

  function Shift<T>(r: Result<(T, nat)>, n: nat): Result<(T, nat)> {
    if r.Ok? then Ok((r.value.0, r.value.1 + n)) else r
  }

  lemma {:induction false} VarintEndShift(a: seq<byte>, b: seq<byte>, i: nat, n: nat)
    requires n <= 10
    ensures VarintEnd(a + b, |a| + i, n)
         == match VarintEnd(b, i, n) case Err(e) => Err(e) case Ok(j) => Ok(|a| + j)
    decreases 10 - n
  {
    if n < 10 && i < |b| {
      assert (a + b)[|a| + i] == b[i];
      if b[i] >= 0x80 {
        VarintEndShift(a, b, i + 1, n + 1);
      }
    }
  }

  lemma DecodeShift(a: seq<byte>, b: seq<byte>, i: nat)
    ensures Decode(a + b, |a| + i) == Shift(Decode(b, i), |a|)
  {
    VarintEndShift(a, b, i, 0);
    if VarintEnd(b, i, 0).Ok? {
      var j := VarintEnd(b, i, 0).value;
      assert (a + b)[|a| + i..|a| + j] == b[i..j];
    }
  }

  lemma DelimitedShift(a: seq<byte>, b: Slice, i: nat)
    requires |a| + |b| < 0x8000_0000_0000_0000
    ensures Delimited(b, i).Err? ==> Delimited(a + b, |a| + i).Err?
    ensures Delimited(b, i).Ok? ==>
      var (j, k) := Delimited(b, i).value;
      Delimited(a + b, |a| + i) == Ok((|a| + j, |a| + k)) && (a + b)[|a| + j..|a| + k] == b[j..k]
  {
    DecodeShift(a, b, i);
  }

  lemma ReadUnknownShift(a: seq<byte>, b: Slice, i: nat)
    requires i < |b| && |a| + |b| < 0x8000_0000_0000_0000
    ensures Agree(ReadUnknown(a + b, |a| + i), Shift(ReadUnknown(b, i), |a|))
  {
    assert (a + b)[|a| + i..] == b[i..];
  }

  lemma ReadPayloadShift(schema: Schema, a: seq<byte>, b: Slice, i: nat, num: int, wireType: int, j: nat)
    requires i < j <= |b| && |a| + |b| < 0x8000_0000_0000_0000
    ensures Agree(ReadPayload(schema, a + b, |a| + i, num, wireType, |a| + j),
                  Shift(ReadPayload(schema, b, i, num, wireType, j), |a|))
  {
    if num !in schema {
      ReadUnknownShift(a, b, i);
    } else if schema[num].VarintKind? {
      DecodeShift(a, b, j);
    } else {
      DelimitedShift(a, b, j);
    }
  }

  lemma ReadFieldShift(schema: Schema, a: seq<byte>, b: Slice, i: nat)
    requires i < |b| && |a| + |b| < 0x8000_0000_0000_0000
    ensures Agree(ReadField(schema, a + b, |a| + i), Shift(ReadField(schema, b, i), |a|))
  {
    ReadTagShift(a, b, i);
    if ReadTag(b, i).Ok? {
      var (num, wireType, j) := ReadTag(b, i).value;
      ReadPayloadShift(schema, a, b, i, num, wireType, j);
    }
  }

  lemma ReadTagShift(a: seq<byte>, b: Slice, i: nat)
    requires |a| + |b| < 0x8000_0000_0000_0000
    ensures ReadTag(b, i).Err? ==> ReadTag(a + b, |a| + i).Err?
    ensures ReadTag(b, i).Ok? ==>
      var (num, wireType, j) := ReadTag(b, i).value;
      ReadTag(a + b, |a| + i) == Ok((num, wireType, |a| + j))
  {
    DecodeShift(a, b, i);
  }

  // ---------- Concatenation is merge ----------

  /** Records read the same with other bytes around them. */
  ghost predicate Compositional(read: Reader) {
    && (forall a: Slice, b: Slice, i: nat :: i < |a| && |a| + |b| < 0x8000_0000_0000_0000 && read(a, i).Ok?
         ==> read(a + b, i) == read(a, i))
    && (forall a: Slice, b: Slice, i: nat :: i < |b| && |a| + |b| < 0x8000_0000_0000_0000
         ==> Agree(read(a + b, |a| + i), Shift(read(b, i), |a|)))
  }

  /** read is reading by the given schema. */
  ghost predicate ReaderOf(read: Reader, schema: Schema) {
    forall data: Slice, i: nat :: read(data, i) == ReadField(schema, data, i)
  }

  lemma ReadersCompose(read: Reader, schema: Schema)
    requires ReaderOf(read, schema)
    ensures Compositional(read)
  {
    forall a: Slice, b: Slice, i: nat | i < |a| && |a| + |b| < 0x8000_0000_0000_0000 && read(a, i).Ok?
      ensures read(a + b, i) == read(a, i)
    {
      ReadFieldAppend(schema, a, b, i);
    }
    forall a: Slice, b: Slice, i: nat | i < |b| && |a| + |b| < 0x8000_0000_0000_0000
      ensures Agree(read(a + b, |a| + i), Shift(read(b, i), |a|))
    {
      ReadFieldShift(schema, a, b, i);
    }
  }

  lemma {:induction false} ParseShift<M(!new)>(read: Reader, apply: (M, Field) -> Result<M>, m: M, a: Slice,
        b: Slice, i: nat)
    requires Compositional(read) && |a| + |b| < 0x8000_0000_0000_0000
    ensures Agree(Parse(read, apply, m, a + b, |a| + i), Parse(read, apply, m, b, i))
    decreases |b| - i
  {
    if i < |b| {
      var r := read(b, i);
      assert Agree(read(a + b, |a| + i), Shift(r, |a|));
      if r.Ok? && i < r.value.1 <= |b| && apply(m, r.value.0).Ok? {
        ParseShift(read, apply, apply(m, r.value.0).value, a, b, r.value.1);
      }
    }
  }

  lemma {:induction false} ParseAppend<M(!new)>(read: Reader, apply: (M, Field) -> Result<M>, m: M, a: Slice,
        b: Slice, i: nat)
    requires Compositional(read) && i <= |a| && |a| + |b| < 0x8000_0000_0000_0000
    requires Parse(read, apply, m, a, i).Ok?
    ensures Parse(read, apply, m, a + b, i)
         == Parse(read, apply, Parse(read, apply, m, a, i).value, a + b, |a|)
    decreases |a| - i
  {
    if i < |a| {
      assert read(a + b, i) == read(a, i);
      var (f, j) := read(a, i).value;
      ParseAppend(read, apply, apply(m, f).value, a, b, j);
    }
  }

  /** If a parses, then parsing a + b is parsing b into what a gave. */
  lemma ConcatIsMerge<M(!new)>(read: Reader, apply: (M, Field) -> Result<M>, m: M, a: Slice, b: Slice)
    requires Compositional(read) && |a| + |b| < 0x8000_0000_0000_0000
    requires Parse(read, apply, m, a, 0).Ok?
    ensures Agree(Parse(read, apply, m, a + b, 0),
                  Parse(read, apply, Parse(read, apply, m, a, 0).value, b, 0))
  {
    ParseAppend(read, apply, m, a, b, 0);
    ParseShift(read, apply, Parse(read, apply, m, a, 0).value, a, b, 0);
  }
}
