/** Printing records: the bytes a message's records amount to, the statements of
    the generated printers that write them backwards into a sized buffer, and the
    proof that parsing undoes printing. */
module WirePrint {
  import opened GoInt
  import opened Results
  import opened Buffers
  import opened Varint
  import opened Wire
  import opened WireFacts

  /** A tag and a varint. */
  function TagVarint(tag: byte, v: uint64): seq<byte> {
    [tag] + VarintBytes(v)
  }

  /** A tag, a length, and that many bytes. */
  function TagBytes(tag: byte, b: seq<byte>): seq<byte> {
    [tag] + VarintBytes(|b|) + b
  }

  /** The bytes of one record. Every field number of these messages is below 16,
      so every tag is one byte. */
  function FieldBytes(f: Field): seq<byte>
    requires !f.Unknown? && 0 < f.num < 16
  {
    if f.Num? then TagVarint((8 * f.num) as byte, f.v) else TagBytes((8 * f.num + 2) as byte, f.b)
  }

  /** A record that a parser with this schema will recognise. */
  predicate Fits(schema: Schema, f: Field) {
    && !f.Unknown? && 0 < f.num < 16
    && f.num in schema
    && (f.Num? <==> schema[f.num].VarintKind?)
  }

  predicate AllFit(schema: Schema, fs: seq<Field>) {
    forall k :: 0 <= k < |fs| ==> Fits(schema, fs[k])
  }

  function FieldsBytes(schema: Schema, fs: seq<Field>): seq<byte>
    requires AllFit(schema, fs)
  {
    if fs == [] then [] else FieldBytes(fs[0]) + FieldsBytes(schema, fs[1..])
  }

  function ApplyAll<M>(apply: (M, Field) -> Result<M>, m: M, fs: seq<Field>): Result<M> {
    if fs == [] then Ok(m)
    else
      match apply(m, fs[0])
      case Err(e) => Err(e)
      case Ok(m') => ApplyAll(apply, m', fs[1..])
  }

  // ---------- Parsing undoes printing ----------

  lemma TagReads(data: Slice, tag: byte)
    requires |data| > 0 && data[0] == tag < 0x80
    ensures Decode(data, 0) == Ok((tag as int, 1))
  {
    assert VarintBytes(tag as int) == [tag];
    VarintRoundTrip(data, 0, tag as int);
  }

  lemma FieldReads(schema: Schema, f: Field)
    requires Fits(schema, f) && |FieldBytes(f)| < 0x8000_0000_0000_0000
    ensures ReadField(schema, FieldBytes(f), 0) == Ok((f, |FieldBytes(f)|))
  {
    var data := FieldBytes(f);
    TagReads(data, data[0]);
    if f.Num? {
      assert data[1..] == VarintBytes(f.v);
      VarintRoundTrip(data, 1, f.v);
    } else {
      var len := VarintBytes(|f.b|);
      assert data[1..] == len + f.b;
      VarintRoundTrip(data, 1, |f.b|);
      assert data[1 + |len|..|data|] == f.b;
    }
  }

  /** Parsing printed records applies exactly those records, in order. */
  lemma {:induction false} ParsePrinted<M(!new)>(schema: Schema, read: Reader, apply: (M, Field) -> Result<M>, m: M,
        fs: seq<Field>)
    requires ReaderOf(read, schema) && Compositional(read)
    requires AllFit(schema, fs) && |FieldsBytes(schema, fs)| < 0x8000_0000_0000_0000
    ensures Agree(Parse(read, apply, m, FieldsBytes(schema, fs), 0), ApplyAll(apply, m, fs))
  {
    if fs != [] {
      var e, rest := FieldBytes(fs[0]), FieldsBytes(schema, fs[1..]);
      FieldReads(schema, fs[0]);
      var r := apply(m, fs[0]);
      if r.Ok? {
        assert Parse(read, apply, m, e, 0) == Ok(r.value);
        ConcatIsMerge(read, apply, m, e, rest);
        ParsePrinted(schema, read, apply, r.value, fs[1..]);
      } else {
        assert read(e + rest, 0) == read(e, 0);
      }
    }
  }

  // ---------- The records of a message, grouped by Go field ----------

  /** A scalar field is left out when zero. */
  function NumFields(num: int, v: uint64): seq<Field> {
    if v == 0 then [] else [Num(num, v)]
  }

  function NumBytes(tag: byte, v: uint64): seq<byte> {
    if v == 0 then [] else TagVarint(tag, v)
  }

  /** A string field is left out when empty. */
  function StringFields(num: int, b: seq<byte>): seq<Field> {
    if b == [] then [] else [Bytes(num, b)]
  }

  function StringBytes(tag: byte, b: seq<byte>): seq<byte> {
    if b == [] then [] else TagBytes(tag, b)
  }

  /** A repeated field has one record per element, empty ones included. */
  function RepeatedFields(num: int, bs: seq<seq<byte>>): (r: seq<Field>)
    ensures |r| == |bs| && forall k :: 0 <= k < |bs| ==> r[k] == Bytes(num, bs[k])
  {
    seq(|bs|, k requires 0 <= k < |bs| => Bytes(num, bs[k]))
  }

  function RepeatedBytes(tag: byte, bs: seq<seq<byte>>, k: nat): seq<byte>
    decreases |bs| - k
  {
    if k >= |bs| then [] else TagBytes(tag, bs[k]) + RepeatedBytes(tag, bs, k + 1)
  }

  lemma NumGroup(schema: Schema, num: int, v: uint64)
    requires 0 < num < 16 && num in schema && schema[num].VarintKind?
    ensures AllFit(schema, NumFields(num, v))
    ensures FieldsBytes(schema, NumFields(num, v)) == NumBytes((8 * num) as byte, v)
  {
  }

  lemma StringGroup(schema: Schema, num: int, b: seq<byte>)
    requires 0 < num < 16 && num in schema && schema[num].BytesKind?
    ensures AllFit(schema, StringFields(num, b))
    ensures FieldsBytes(schema, StringFields(num, b)) == StringBytes((8 * num + 2) as byte, b)
  {
  }

  lemma {:induction false} RepeatedGroupFrom(schema: Schema, num: int, bs: seq<seq<byte>>, k: nat)
    requires 0 < num < 16 && num in schema && schema[num].BytesKind? && k <= |bs|
    ensures AllFit(schema, RepeatedFields(num, bs))
    ensures FieldsBytes(schema, RepeatedFields(num, bs)[k..]) == RepeatedBytes((8 * num + 2) as byte, bs, k)
    decreases |bs| - k
  {
    if k < |bs| {
      RepeatedGroupFrom(schema, num, bs, k + 1);
      assert RepeatedFields(num, bs)[k..][1..] == RepeatedFields(num, bs)[k + 1..];
    }
  }

  lemma RepeatedGroup(schema: Schema, num: int, bs: seq<seq<byte>>)
    requires 0 < num < 16 && num in schema && schema[num].BytesKind?
    ensures AllFit(schema, RepeatedFields(num, bs))
    ensures FieldsBytes(schema, RepeatedFields(num, bs)) == RepeatedBytes((8 * num + 2) as byte, bs, 0)
  {
    RepeatedGroupFrom(schema, num, bs, 0);
    assert RepeatedFields(num, bs)[0..] == RepeatedFields(num, bs);
  }

  predicate GroupsFit(schema: Schema, groups: seq<seq<Field>>) {
    forall k :: 0 <= k < |groups| ==> AllFit(schema, groups[k])
  }

  /** The parts from k on, one behind the other. */
  function Join(parts: seq<seq<byte>>, k: nat): seq<byte>
    decreases |parts| - k
  {
    if k >= |parts| then [] else parts[k] + Join(parts, k + 1)
  }

  function ApplyFrom<M>(apply: (M, Field) -> Result<M>, m: M, groups: seq<seq<Field>>, k: nat): Result<M>
    decreases |groups| - k
  {
    if k >= |groups| then Ok(m)
    else
      match ApplyAll(apply, m, groups[k])
      case Err(e) => Err(e)
      case Ok(m') => ApplyFrom(apply, m', groups, k + 1)
  }

  /** A chain of states, one element apart each, ends where applying the elements ends. */
  lemma {:induction false} ApplyElementChain<M(!new)>(apply: (M, Field) -> Result<M>, ms: seq<M>, num: int,
        bs: seq<seq<byte>>)
    requires |ms| == |bs| + 1
    requires forall j :: 0 <= j < |bs| ==> apply(ms[j], Bytes(num, bs[j])) == Ok(ms[j + 1])
    ensures ApplyAll(apply, ms[0], RepeatedFields(num, bs)) == Ok(ms[|bs|])
  {
    if bs != [] {
      assert RepeatedFields(num, bs)[1..] == RepeatedFields(num, bs[1..]);
      ApplyElementChain(apply, ms[1..], num, bs[1..]);
    }
  }

  /** Likewise for groups of records. */
  lemma {:induction false} ApplyGroupChain<M(!new)>(apply: (M, Field) -> Result<M>, ms: seq<M>,
        groups: seq<seq<Field>>, k: nat)
    requires |ms| == |groups| + 1 && k <= |groups|
    requires forall j :: 0 <= j < |groups| ==> ApplyAll(apply, ms[j], groups[j]) == Ok(ms[j + 1])
    ensures ApplyFrom(apply, ms[k], groups, k) == Ok(ms[|groups|])
    decreases |groups| - k
  {
    if k < |groups| {
      ApplyGroupChain(apply, ms, groups, k + 1);
    }
  }

  /** A repeated field whose elements are taken in one by one; with(l) is the state after the elements l. */
  lemma ApplyElements<M(!new), T>(apply: (M, Field) -> Result<M>, with: seq<T> -> M, num: int,
        ms: seq<T>, bs: seq<seq<byte>>)
    requires |bs| == |ms|
    requires forall k :: 0 <= k < |ms| ==> apply(with(ms[..k]), Bytes(num, bs[k])) == Ok(with(ms[..k + 1]))
    ensures ApplyAll(apply, with([]), RepeatedFields(num, bs)) == Ok(with(ms))
  {
    var chain := seq(|ms| + 1, k requires 0 <= k <= |ms| => with(ms[..k]));
    ApplyElementChain(apply, chain, num, bs);
    assert ms[..0] == [] && ms[..|ms|] == ms;
  }

  /** Parsing a printed repeated field takes its elements in. */
  lemma ParseElements<M(!new), T>(schema: Schema, read: Reader, apply: (M, Field) -> Result<M>, with: seq<T> -> M,
        num: int, ms: seq<T>, bs: seq<seq<byte>>)
    requires ReaderOf(read, schema) && 0 < num < 16 && num in schema && schema[num].BytesKind?
    requires |bs| == |ms| && |RepeatedBytes((8 * num + 2) as byte, bs, 0)| < 0x8000_0000_0000_0000
    requires forall k :: 0 <= k < |ms| ==> apply(with(ms[..k]), Bytes(num, bs[k])) == Ok(with(ms[..k + 1]))
    ensures Parse(read, apply, with([]), RepeatedBytes((8 * num + 2) as byte, bs, 0), 0) == Ok(with(ms))
  {
    ApplyElements(apply, with, num, ms, bs);
    RepeatedGroup(schema, num, bs);
    ReadersCompose(read, schema);
    ParsePrinted(schema, read, apply, with([]), RepeatedFields(num, bs));
  }

  /** Parsing a printed message goes through the states that its groups lead to. */
  lemma ParseMessage<M(!new)>(schema: Schema, read: Reader, apply: (M, Field) -> Result<M>, ms: seq<M>,
        groups: seq<seq<Field>>, parts: seq<seq<byte>>)
    requires ReaderOf(read, schema) && |ms| == |groups| + 1 && |parts| == |groups|
    requires forall k :: 0 <= k < |groups| ==>
      AllFit(schema, groups[k]) && parts[k] == FieldsBytes(schema, groups[k])
      && ApplyAll(apply, ms[k], groups[k]) == Ok(ms[k + 1])
    requires |Join(parts, 0)| < 0x8000_0000_0000_0000
    ensures Parse(read, apply, ms[0], Join(parts, 0), 0) == Ok(ms[|groups|])
  {
    ApplyGroupChain(apply, ms, groups, 0);
    ReadersCompose(read, schema);
    ParseGroups(schema, read, apply, ms[0], groups, parts, 0);
  }

  /** Parsing the printed parts of a message applies its groups in order. */
  lemma {:induction false} ParseGroups<M(!new)>(schema: Schema, read: Reader, apply: (M, Field) -> Result<M>, m: M,
        groups: seq<seq<Field>>, parts: seq<seq<byte>>, k: nat)
    requires ReaderOf(read, schema) && Compositional(read)
    requires GroupsFit(schema, groups) && |parts| == |groups|
    requires forall j :: 0 <= j < |groups| ==> parts[j] == FieldsBytes(schema, groups[j])
    requires |Join(parts, k)| < 0x8000_0000_0000_0000
    requires ApplyFrom(apply, m, groups, k).Ok?
    ensures Parse(read, apply, m, Join(parts, k), 0) == ApplyFrom(apply, m, groups, k)
    decreases |groups| - k
  {
    if k < |groups| {
      ParsePrinted(schema, read, apply, m, groups[k]);
      var m' := ApplyAll(apply, m, groups[k]).value;
      ConcatIsMerge(read, apply, m, parts[k], Join(parts, k + 1));
      ParseGroups(schema, read, apply, m', groups, parts, k + 1);
    }
  }

  lemma {:induction false} JoinShrinks(parts: seq<seq<byte>>, j: nat, k: nat)
    requires j <= k
    ensures |Join(parts, k)| <= |Join(parts, j)|
    decreases k - j
  {
    if j < k && j < |parts| {
      JoinShrinks(parts, j + 1, k);
    }
  }

  // ---------- The statements of the printers ----------

  /** A varint and, in front of it, its tag. */
  method PrintVarint(dAtA: array<byte>, end: nat, tag: byte, v: uint64) returns (i: nat)
    requires |TagVarint(tag, v)| <= end <= dAtA.Length
    modifies dAtA
    ensures i + |TagVarint(tag, v)| == end
    ensures dAtA[..] == Splice(old(dAtA[..]), i, TagVarint(tag, v))
  {
    ghost var o := dAtA[..];
    SovIsLength(v);
    i := EncodeVarint(dAtA, end, v);
    i := i - 1;
    SpliceOne(dAtA[..], i, tag);
    dAtA[i] := tag;
    SpliceBefore(o, i, [tag], VarintBytes(v));
  }

  method PrintNum(dAtA: array<byte>, end: nat, tag: byte, v: uint64) returns (i: nat)
    requires |NumBytes(tag, v)| <= end <= dAtA.Length
    modifies dAtA
    ensures i + |NumBytes(tag, v)| == end
    ensures dAtA[..] == Splice(old(dAtA[..]), i, NumBytes(tag, v))
  {
    i := end;
    if v != 0 {
      i := PrintVarint(dAtA, i, tag, v);
    }
  }

  /** copy(dAtA[start:], b) */
  method CopyInto(dAtA: array<byte>, start: nat, b: seq<byte>)
    requires start + |b| <= dAtA.Length
    modifies dAtA
    ensures dAtA[..] == Splice(old(dAtA[..]), start, b)
  {
    ghost var o := dAtA[..];
    forall k | 0 <= k < |b| {
      dAtA[start + k] := b[k];
    }
    SpliceAt(o, start, b);
  }

  /** A byte string and, in front of it, its length and tag. */
  method PrintBytes(dAtA: array<byte>, end: nat, tag: byte, b: seq<byte>) returns (i: nat)
    requires |b| < 0x8000_0000_0000_0000 && |TagBytes(tag, b)| <= end <= dAtA.Length
    modifies dAtA
    ensures i + |TagBytes(tag, b)| == end
    ensures dAtA[..] == Splice(old(dAtA[..]), i, TagBytes(tag, b))
  {
    ghost var o := dAtA[..];
    i := end - |b|;
    CopyInto(dAtA, i, b);
    i := PrintVarint(dAtA, i, tag, |b|);
    SpliceBefore(o, i, TagVarint(tag, |b|), b);
  }

  method PrintString(dAtA: array<byte>, end: nat, tag: byte, b: seq<byte>) returns (i: nat)
    requires |b| < 0x8000_0000_0000_0000 && |StringBytes(tag, b)| <= end <= dAtA.Length
    modifies dAtA
    ensures i + |StringBytes(tag, b)| == end
    ensures dAtA[..] == Splice(old(dAtA[..]), i, StringBytes(tag, b))
  {
    i := end;
    if |b| > 0 {
      i := PrintBytes(dAtA, i, tag, b);
    }
  }

  /** The elements of a repeated field, last one first. */
  method PrintRepeated(dAtA: array<byte>, end: nat, tag: byte, bs: seq<seq<byte>>) returns (i: nat)
    requires |RepeatedBytes(tag, bs, 0)| < 0x8000_0000_0000_0000
    requires |RepeatedBytes(tag, bs, 0)| <= end <= dAtA.Length
    modifies dAtA
    ensures i + |RepeatedBytes(tag, bs, 0)| == end
    ensures dAtA[..] == Splice(old(dAtA[..]), i, RepeatedBytes(tag, bs, 0))
  {
    ghost var o := dAtA[..];
    i := end;
    var iNdEx := |bs| - 1;
    while iNdEx >= 0
      invariant -1 <= iNdEx < |bs|
      invariant i + |RepeatedBytes(tag, bs, iNdEx + 1)| == end
      invariant dAtA[..] == Splice(o, i, RepeatedBytes(tag, bs, iNdEx + 1))
    {
      RepeatedShrinks(tag, bs, 0, iNdEx);
      i := PrintBytes(dAtA, i, tag, bs[iNdEx]);
      SpliceBefore(o, i, TagBytes(tag, bs[iNdEx]), RepeatedBytes(tag, bs, iNdEx + 1));
      iNdEx := iNdEx - 1;
    }
  }

  lemma {:induction false} RepeatedShrinks(tag: byte, bs: seq<seq<byte>>, j: nat, k: nat)
    requires j <= k
    ensures |RepeatedBytes(tag, bs, k)| <= |RepeatedBytes(tag, bs, j)|
    decreases k - j
  {
    if j < k && j < |bs| {
      RepeatedShrinks(tag, bs, j + 1, k);
    }
  }

  /** The state of a printer that has written the parts from k on, ending at `end`. */
  ghost predicate PrintedFrom(parts: seq<seq<byte>>, k: nat, o: seq<byte>, i: nat, end: nat, buf: seq<byte>) {
    && i + |Join(parts, k)| == end <= |o|
    && buf == Splice(o, i, Join(parts, k))
  }

  /** Printing the parts backwards: part k goes right before the later ones. */
  lemma PrintStep(parts: seq<seq<byte>>, k: nat, o: seq<byte>, j: nat, i: nat, end: nat, before: seq<byte>,
        after: seq<byte>)
    requires k < |parts| && PrintedFrom(parts, k + 1, o, j, end, before)
    requires i + |parts[k]| == j && after == Splice(before, i, parts[k])
    ensures PrintedFrom(parts, k, o, i, end, after)
  {
    SpliceBefore(o, i, parts[k], Join(parts, k + 1));
  }

  /** There is room for part k in front of the later ones. */
  lemma PartFits(parts: seq<seq<byte>>, k: nat, o: seq<byte>, i: nat, end: nat, buf: seq<byte>)
    requires k < |parts| && PrintedFrom(parts, k + 1, o, i, end, buf)
    requires |Join(parts, 0)| <= end
    ensures |parts[k]| <= i
  {
    JoinShrinks(parts, 0, k);
  }

  method NumPart(dAtA: array<byte>, start: nat, tag: byte, v: uint64, ghost parts: seq<seq<byte>>, ghost k: nat,
        ghost o: seq<byte>, ghost end: nat)
    returns (i: nat)
    requires k < |parts| && parts[k] == NumBytes(tag, v) && |Join(parts, 0)| <= end
    requires dAtA.Length == |o| && PrintedFrom(parts, k + 1, o, start, end, dAtA[..])
    modifies dAtA
    ensures PrintedFrom(parts, k, o, i, end, dAtA[..])
  {
    ghost var before := dAtA[..];
    JoinShrinks(parts, 0, k);
    PartFits(parts, k, o, start, end, before);
    i := PrintNum(dAtA, start, tag, v);
    PrintStep(parts, k, o, start, i, end, before, dAtA[..]);
  }

  method StringPart(dAtA: array<byte>, start: nat, tag: byte, b: seq<byte>, ghost parts: seq<seq<byte>>,
        ghost k: nat, ghost o: seq<byte>, ghost end: nat)
    returns (i: nat)
    requires k < |parts| && parts[k] == StringBytes(tag, b)
    requires |Join(parts, 0)| < 0x8000_0000_0000_0000 && |Join(parts, 0)| <= end
    requires dAtA.Length == |o| && PrintedFrom(parts, k + 1, o, start, end, dAtA[..])
    modifies dAtA
    ensures PrintedFrom(parts, k, o, i, end, dAtA[..])
  {
    ghost var before := dAtA[..];
    JoinShrinks(parts, 0, k);
    PartFits(parts, k, o, start, end, before);
    i := PrintString(dAtA, start, tag, b);
    PrintStep(parts, k, o, start, i, end, before, dAtA[..]);
  }

  method RepeatedPart(dAtA: array<byte>, start: nat, tag: byte, bs: seq<seq<byte>>, ghost parts: seq<seq<byte>>,
        ghost k: nat, ghost o: seq<byte>, ghost end: nat)
    returns (i: nat)
    requires k < |parts| && parts[k] == RepeatedBytes(tag, bs, 0)
    requires |Join(parts, 0)| < 0x8000_0000_0000_0000 && |Join(parts, 0)| <= end
    requires dAtA.Length == |o| && PrintedFrom(parts, k + 1, o, start, end, dAtA[..])
    modifies dAtA
    ensures PrintedFrom(parts, k, o, i, end, dAtA[..])
  {
    ghost var before := dAtA[..];
    JoinShrinks(parts, 0, k);
    PartFits(parts, k, o, start, end, before);
    i := PrintRepeated(dAtA, start, tag, bs);
    PrintStep(parts, k, o, start, i, end, before, dAtA[..]);
  }

  // ---------- Sizes ----------

  lemma JoinTen(p: seq<seq<byte>>)
    requires |p| == 10
    ensures |Join(p, 0)| == |p[0]| + |p[1]| + |p[2]| + |p[3]| + |p[4]| + |p[5]| + |p[6]| + |p[7]| + |p[8]| + |p[9]|
  {
    assert |Join(p, 8)| == |p[8]| + |p[9]| + |Join(p, 10)|;
    assert |Join(p, 6)| == |p[6]| + |p[7]| + |Join(p, 8)|;
    assert |Join(p, 4)| == |p[4]| + |p[5]| + |Join(p, 6)|;
    assert |Join(p, 2)| == |p[2]| + |p[3]| + |Join(p, 4)|;
  }

  method SizeNum(v: uint64) returns (n: nat)
    ensures forall tag :: n == |NumBytes(tag, v)|
  {
    SovIsLength(v);
    n := if v != 0 then 1 + Sov(v) else 0;
  }

  method SizeString(b: seq<byte>, ghost tag: byte) returns (n: nat)
    requires |StringBytes(tag, b)| < 0x8000_0000_0000_0000
    ensures n == |StringBytes(tag, b)|
  {
    var l := |b|;
    SovIsLength(l);
    n := if l > 0 then 1 + l + Sov(l) else 0;
  }

  method SizeRepeated(bs: seq<seq<byte>>, ghost tag: byte) returns (n: nat)
    requires |RepeatedBytes(tag, bs, 0)| < 0x8000_0000_0000_0000
    ensures n == |RepeatedBytes(tag, bs, 0)|
  {
    n := 0;
    for k := 0 to |bs|
      invariant n + |RepeatedBytes(tag, bs, k)| == |RepeatedBytes(tag, bs, 0)|
    {
      var l := |bs[k]|;
      SovIsLength(l);
      n := n + 1 + l + Sov(l);
    }
  }
}
