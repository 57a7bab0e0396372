/** Base-128 varints: the encoder that writes into a buffer from a computed
    start, the decoding loop, and the size function. */
module Varint {
  import opened GoInt
  import opened Results
  import opened Buffers

  /** The bytes of a varint: seven bits a byte, low bits first, bit 7 set on all but the last. */
  function VarintBytes(v: nat): (s: seq<byte>)
    ensures |s| > 0
  {
    if v < 0x80 then [v as byte] else [(v % 0x80 + 0x80) as byte] + VarintBytes(v / 0x80)
  }

  /** sov: the size of v's varint, computed from its bit length. */
  function Sov(x: uint64): nat {
    (BitLen(BitOr(x, 1)) + 6) / 7
  }

  lemma {:induction false} SevenBits(x: nat)
    requires x >= 0x80
    ensures BitLen(x) == 7 + BitLen(x / 0x80)
  {
    assert x / 2 / 2 / 2 / 2 / 2 / 2 / 2 == x / 0x80;
    var a := x / 2; var b := a / 2; var c := b / 2;
    var d := c / 2; var e := d / 2; var f := e / 2;
    assert BitLen(x) == 2 + BitLen(b);
    assert BitLen(b) == 2 + BitLen(d);
    assert BitLen(d) == 2 + BitLen(f);
    assert BitLen(f) == 1 + BitLen(f / 2);
  }

  lemma {:induction false} BitLenVsBytes(x: nat)
    requires x > 0
    ensures (BitLen(x) + 6) / 7 == |VarintBytes(x)|
  {
    if x >= 0x80 {
      SevenBits(x);
      BitLenVsBytes(x / 0x80);
    } else {
      SmallBitLen(x);
    }
  }

  lemma SmallBitLen(x: nat)
    requires 0 < x < 0x80
    ensures 1 <= BitLen(x) <= 7
  {
    var a := x / 2; var b := a / 2; var c := b / 2;
    var d := c / 2; var e := d / 2; var f := e / 2;
    assert f / 2 == 0;
    assert BitLen(f) <= 1 && BitLen(e) <= 2 && BitLen(d) <= 3;
    assert BitLen(c) <= 4 && BitLen(b) <= 5 && BitLen(a) <= 6;
  }

  /** The size computed by bit length is the number of bytes written. */
  lemma SovIsLength(x: uint64)
    ensures Sov(x) == |VarintBytes(x)|
  {
    OrOne(x);
    if x == 0 {
      assert BitLen(1) == 1;
    } else if x % 2 == 0 {
      assert (x + 1) / 2 == x / 2;
      assert BitLen(x + 1) == BitLen(x);
      BitLenVsBytes(x);
    } else {
      BitLenVsBytes(x);
    }
  }

  /** Writes v's varint so that it ends right before offset. */
  method EncodeVarint(dAtA: array<byte>, offset: nat, v: uint64) returns (base: nat)
    requires Sov(v) <= offset <= dAtA.Length
    modifies dAtA
    ensures base + |VarintBytes(v)| == offset
    ensures dAtA[..] == Splice(old(dAtA[..]), base, VarintBytes(v))
  {
    SovIsLength(v);
    ghost var o := dAtA[..];
    ghost var done: seq<byte> := [];
    var off := offset - Sov(v);
    base := off;
    var x: uint64 := v;
    while x >= 0x80
      invariant base + |done| == off && off + |VarintBytes(x)| == offset
      invariant done + VarintBytes(x) == VarintBytes(v)
      invariant dAtA[..] == Splice(o, base, done)
    {
      var b := (x % 0x80 + 0x80) as byte;
      SpliceByte(o, base, done, b);
      dAtA[off] := b;
      done := done + [b];
      x := x / 0x80;
      off := off + 1;
    }
    SpliceByte(o, base, done, x as byte);
    dAtA[off] := x as byte;
  }

  /** b & 0x7F */
  function Low7(b: byte): (c: nat)
    ensures c == b as int % 0x80
  {
    if b < 0x80 then b as int else b as int - 0x80
  }

  /** What a varint's bytes stand for: their low seven bits, least significant first. */
  function Leb(s: seq<byte>): nat {
    if s == [] then 0 else Low7(s[0]) + 0x80 * Leb(s[1..])
  }

  predicate IsVarint(s: seq<byte>) {
    |s| > 0 && s[|s| - 1] < 0x80 && forall k :: 0 <= k < |s| - 1 ==> s[k] >= 0x80
  }

  /** Where the varint at i ends, with n of its at most ten bytes already passed. */
  function VarintEnd(data: seq<byte>, i: nat, n: nat): (r: Result<nat>)
    requires n <= 10
    ensures r.Ok? ==> i < r.value <= |data| && r.value - i <= 10 - n
    decreases 10 - n
  {
    if n == 10 then Err(IntOverflow)
    else if i >= |data| then Err(UnexpectedEOF)
    else if data[i] < 0x80 then Ok(i + 1)
    else VarintEnd(data, i + 1, n + 1)
  }

  /** The value and the end of the varint at i; bits past the 64th are lost. */
  function Decode(data: seq<byte>, i: nat): (r: Result<(uint64, nat)>)
    ensures r.Ok? ==> i < r.value.1 <= |data|
  {
    match VarintEnd(data, i, 0)
    case Err(e) => Err(e)
    case Ok(j) => Ok((ToUint64(Leb(data[i..j])), j))
  }

  lemma {:induction false} VarintEndAt(data: seq<byte>, i: nat, j: nat, n: nat)
    requires i < j <= |data| && IsVarint(data[i..j]) && n + (j - i) <= 10
    ensures VarintEnd(data, i, n) == Ok(j)
    decreases j - i
  {
    var s, t := data[i..j], data[i + 1..j];
    assert data[i] == s[0];
    if j > i + 1 {
      assert forall k :: 0 <= k < |t| ==> t[k] == s[k + 1];
      VarintEndAt(data, i + 1, j, n + 1);
    }
  }

  lemma {:induction false} VarintEndShape(data: seq<byte>, i: nat, n: nat)
    requires n <= 10 && VarintEnd(data, i, n).Ok?
    ensures IsVarint(data[i..VarintEnd(data, i, n).value])
    decreases 10 - n
  {
    var j := VarintEnd(data, i, n).value;
    if data[i] >= 0x80 {
      VarintEndShape(data, i + 1, n + 1);
      assert data[i..j] == [data[i]] + data[i + 1..j];
    }
  }

  /** Decoding accepts exactly the varints of at most ten bytes. */
  lemma DecodeExact(data: seq<byte>, i: nat, j: nat, x: uint64)
    requires i < j <= |data|
    ensures Decode(data, i) == Ok((x, j))
       <==> IsVarint(data[i..j]) && j - i <= 10 && x == ToUint64(Leb(data[i..j]))
  {
    if IsVarint(data[i..j]) && j - i <= 10 {
      VarintEndAt(data, i, j, 0);
    }
    if VarintEnd(data, i, 0).Ok? {
      VarintEndShape(data, i, 0);
    }
  }

  lemma {:induction false} VarintBytesMean(v: nat, n: nat)
    requires v < Pow2(7 * n) && n > 0
    ensures IsVarint(VarintBytes(v)) && Leb(VarintBytes(v)) == v && |VarintBytes(v)| <= n
  {
    var s := VarintBytes(v);
    if v < 0x80 {
      assert Leb(s) == v + 0x80 * Leb(s[1..]);
    } else {
      ScaleTable(1);
      ScaleSeven(1, 7 * (n - 1));
      VarintBytesMean(v / 0x80, n - 1);
      assert s[1..] == VarintBytes(v / 0x80);
    }
  }

  lemma UintBytesMean(v: uint64)
    ensures IsVarint(VarintBytes(v)) && Leb(VarintBytes(v)) == v && |VarintBytes(v)| <= 10
  {
    ScaleTable(1);
    VarintBytesMean(v, 10);
  }

  /** Decoding what the encoder wrote gives the value back and stops right after it. */
  lemma VarintRoundTrip(data: seq<byte>, i: nat, v: uint64)
    requires i <= |data| && VarintBytes(v) <= data[i..]
    ensures Decode(data, i) == Ok((v, i + |VarintBytes(v)|))
  {
    var s := VarintBytes(v);
    assert data[i..i + |s|] == s;
    UintBytesMean(v);
    DecodeSlice(data, i, s, v);
  }

  lemma DecodeAtEnd(data: seq<byte>, i: nat, j: nat)
    requires VarintEnd(data, i, 0) == Ok(j)
    ensures Decode(data, i) == Ok((ToUint64(Leb(data[i..j])), j))
  {
  }

  lemma DecodeSlice(data: seq<byte>, i: nat, s: seq<byte>, v: uint64)
    requires i + |s| <= |data| && data[i..i + |s|] == s
    requires IsVarint(s) && |s| <= 10 && Leb(s) == v
    ensures Decode(data, i) == Ok((v, i + |s|))
  {
    var j := i + |s|;
    VarintEndAt(data, i, j, 0);
    DecodeAtEnd(data, i, j);
    InRange(v);
  }

  lemma InRange(v: uint64)
    ensures ToUint64(v) == v
  {
  }

  lemma {:induction false} LebAppend(s: seq<byte>, b: byte)
    ensures Leb(s + [b]) == Leb(s) + Scale(Low7(b), 7 * |s|)
    ensures Leb(s) < Pow2(7 * |s|)
  {
    if s == [] {
      assert [b][1..] == [];
    } else {
      var t := s[1..];
      assert (s + [b])[1..] == t + [b];
      LebAppend(t, b);
      assert 7 * |s| == 7 * |t| + 7;
      ScaleSeven(1, 7 * |t|);
      ScaleSeven(Low7(b), 7 * |t|);
    }
  }

  /** A shifted byte stays a multiple of the shift's power of two; adding it to
      smaller bits loses what passes bit 63 and nothing else. */
  lemma ShlIsScale(acc: nat, c: nat, shift: nat) returns (kept: nat)
    requires shift <= 56 || shift == 63
    requires acc < Pow2(shift) && c < 0x80
    ensures Shl64(c, shift) == Scale(kept, shift)
    ensures acc + Shl64(c, shift) == ToUint64(acc + Scale(c, shift))
    ensures shift <= 56 ==> acc + Scale(c, shift) < 0x8000_0000_0000_0000
  {
    ScaleTable(1);
    if shift <= 56 {
      kept := c;
      ScaleBelow(c, shift);
      Pow2Monotone(shift + 7, 63);
    } else {
      kept := c % 2;
      ScaleTable(c);
      ScaleTable(kept);
      DropHigh(Scale(kept, shift), c / 2);
      DropHigh(acc + Scale(kept, shift), c / 2);
    }
  }

  lemma DropHigh(x: uint64, q: nat)
    ensures ToUint64(x + 0x1_0000_0000_0000_0000 * q) == x
  {
  }

  lemma OrIsSum(x: nat, c: nat, shift: nat)
    requires shift <= 56 || shift == 63
    requires x < Pow2(shift) && c < 0x80
    ensures BitOr(x, Shl64(c, shift)) == x + Shl64(c, shift)
  {
    var kept := ShlIsScale(x, c, shift);
    DisjointOr(x, kept, shift);
  }

  lemma SumIsAppend(s: seq<byte>, b: byte)
    requires |s| <= 9
    ensures Leb(s) < Pow2(7 * |s|)
    ensures Leb(s) + Shl64(Low7(b), 7 * |s|) == ToUint64(Leb(s + [b]))
    ensures |s| < 9 ==> Leb(s + [b]) < 0x8000_0000_0000_0000
  {
    LebAppend(s, b);
    var kept := ShlIsScale(Leb(s), Low7(b), 7 * |s|);
  }

  /** The loop body's `x |= uint64(b&0x7F) << shift` extends the value by one byte. */
  method OrIn(x: uint64, b: byte, shift: nat, ghost s: seq<byte>) returns (next: uint64)
    requires x == Leb(s) && |s| <= 9 && shift == 7 * |s|
    ensures next == ToUint64(Leb(s + [b]))
    ensures |s| < 9 ==> next == Leb(s + [b])
  {
    SumIsAppend(s, b);
    OrIsSum(x, Low7(b), shift);
    next := BitOr(x, Shl64(Low7(b), shift));
  }

  /** The decoding loop as written in every generated parser. */
  method ReadVarint(dAtA: seq<byte>, i: nat) returns (r: Result<(uint64, nat)>)
    ensures r == Decode(dAtA, i)
  {
    var l := |dAtA|;
    var iNdEx := i;
    var x: uint64 := 0;
    var shift: nat := 0;
    while true
      invariant i <= iNdEx && shift == 7 * (iNdEx - i) <= 70
      invariant iNdEx == i || iNdEx <= l
      invariant shift <= 63 && iNdEx <= l ==> x == Leb(dAtA[i..iNdEx])
      invariant VarintEnd(dAtA, i, 0) == VarintEnd(dAtA, iNdEx, iNdEx - i)
      decreases 70 - shift
    {
      if shift >= 64 { return Err(IntOverflow); }
      if iNdEx >= l { return Err(UnexpectedEOF); }
      var b := dAtA[iNdEx];
      x := OrIn(x, b, shift, dAtA[i..iNdEx]);
      assert dAtA[i..iNdEx + 1] == dAtA[i..iNdEx] + [b];
      iNdEx := iNdEx + 1;
      if b < 0x80 { return Ok((x, iNdEx)); }
      shift := shift + 7;
    }
  }
}
