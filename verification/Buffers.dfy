/** Writing a run of bytes into a buffer, and what two adjacent runs amount to. */
module Buffers {
  import opened GoInt

  /** o after writing the bytes of s one by one from index i on. */
  function Splice(o: seq<byte>, i: nat, s: seq<byte>): (r: seq<byte>)
    requires i + |s| <= |o|
    ensures |r| == |o|
    decreases |s|
  {
    if s == [] then o else Splice(o[i := s[0]], i + 1, s[1..])
  }

  lemma {:induction false} SpliceAt(o: seq<byte>, i: nat, s: seq<byte>)
    requires i + |s| <= |o|
    ensures forall k :: 0 <= k < |o| ==> Splice(o, i, s)[k] == if i <= k < i + |s| then s[k - i] else o[k]
    decreases |s|
  {
    if s != [] {
      SpliceAt(o[i := s[0]], i + 1, s[1..]);
    }
  }

  lemma SpliceIsSlices(o: seq<byte>, i: nat, s: seq<byte>)
    requires i + |s| <= |o|
    ensures Splice(o, i, s) == o[..i] + s + o[i + |s|..]
  {
    SpliceAt(o, i, s);
  }

  /** A run s then, right before it, a run t. */
  lemma SpliceBefore(o: seq<byte>, j: nat, t: seq<byte>, s: seq<byte>)
    requires j + |t| + |s| <= |o|
    ensures Splice(Splice(o, j + |t|, s), j, t) == Splice(o, j, t + s)
  {
    SpliceAt(o, j + |t|, s);
    SpliceAt(Splice(o, j + |t|, s), j, t);
    SpliceAt(o, j, t + s);
  }

  /** A run s then, right behind it, the byte c. */
  lemma SpliceByte(o: seq<byte>, i: nat, s: seq<byte>, c: byte)
    requires i + |s| < |o|
    ensures Splice(o, i, s)[i + |s| := c] == Splice(o, i, s + [c])
  {
    SpliceAt(o, i, s);
    SpliceAt(o, i, s + [c]);
  }

  /** A single byte. */
  lemma SpliceOne(o: seq<byte>, i: nat, c: byte)
    requires i < |o|
    ensures o[i := c] == Splice(o, i, [c])
  {
    SpliceAt(o, i, [c]);
  }
}
