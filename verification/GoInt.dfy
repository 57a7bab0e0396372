/** Go's fixed-width integers over Dafny's unbounded ones: wrap-around,
    two's-complement reinterpretation, bitwise OR, left shift and bit length. */
module GoInt {
  newtype byte = x: int | 0 <= x < 0x100
  type uint64 = x: int | 0 <= x < 0x1_0000_0000_0000_0000
  type int64 = x: int | -0x8000_0000_0000_0000 <= x < 0x8000_0000_0000_0000
  type int32 = x: int | -0x8000_0000 <= x < 0x8000_0000

  /** Go's conversion uint64(x): the low 64 bits. */
  function ToUint64(x: int): uint64 {
    if 0 <= x < 0x1_0000_0000_0000_0000 then x else x % 0x1_0000_0000_0000_0000
  }

  /** Go's conversion int64(x): the low 64 bits, read as two's complement. */
  function ToInt64(x: int): int64 {
    var u := ToUint64(x);
    if u < 0x8000_0000_0000_0000 then u else u - 0x1_0000_0000_0000_0000
  }

  /** Go's conversion int32(x). */
  function ToInt32(x: int): int32 {
    var u := if 0 <= x < 0x1_0000_0000 then x else x % 0x1_0000_0000;
    if u < 0x8000_0000 then u else u - 0x1_0000_0000
  }

  /** x shifted left by k bits in unbounded arithmetic. */
  function Scale(x: nat, k: nat): nat {
    if k == 0 then x else 2 * Scale(x, k - 1)
  }

  function Pow2(k: nat): nat {
    Scale(1, k)
  }

  /** The shift x << k on uint64: bits moved past bit 63 are lost. */
  function Shl64(x: nat, k: nat): uint64 {
    ToUint64(Scale(x, k))
  }

  /** Bitwise OR. */
  function BitOr(a: nat, b: nat): nat
    decreases a + b
  {
    if a == 0 then b
    else if b == 0 then a
    else (if a % 2 == 1 || b % 2 == 1 then 1 else 0) + 2 * BitOr(a / 2, b / 2)
  }

  /** math/bits.Len64: the number of bits needed to write x. */
  function BitLen(x: nat): nat {
    if x == 0 then 0 else 1 + BitLen(x / 2)
  }

  /** OR of numbers without a common bit is their sum. */
  lemma {:induction false} DisjointOr(a: nat, c: nat, k: nat)
    requires a < Pow2(k)
    ensures BitOr(a, Scale(c, k)) == a + Scale(c, k)
  {
    if k > 0 && a > 0 && Scale(c, k) > 0 {
      DisjointOr(a / 2, c, k - 1);
    }
  }

  lemma OrOne(x: nat)
    ensures BitOr(x, 1) == if x % 2 == 0 then x + 1 else x
  {
    if x > 0 {
      assert BitOr(x / 2, 0) == x / 2;
    }
  }

  lemma {:induction false} ScaleAdd(x: nat, y: nat, k: nat)
    ensures Scale(x + y, k) == Scale(x, k) + Scale(y, k)
  {
    if k > 0 {
      ScaleAdd(x, y, k - 1);
    }
  }

  lemma ScaleSeven(x: nat, k: nat)
    ensures Scale(x, k + 7) == 0x80 * Scale(x, k)
  {
    assert Scale(x, k + 7) == 2 * Scale(x, k + 6) == 4 * Scale(x, k + 5) == 8 * Scale(x, k + 4);
    assert Scale(x, k + 4) == 2 * Scale(x, k + 3) == 4 * Scale(x, k + 2) == 8 * Scale(x, k + 1);
  }

  /** What seven more bits at position k can add. */
  lemma ScaleBelow(c: nat, k: nat)
    requires c < 0x80
    ensures Scale(c, k) + Pow2(k) <= Pow2(k + 7)
  {
    ScaleSeven(1, k);
    ScaleAdd(c, 1, k);
    ScaleAdd(c + 1, 0x7f - c, k);
    ScaleTimes(0x80, k);
  }

  lemma {:induction false} ScaleTimes(x: nat, k: nat)
    requires x == 0x80
    ensures Scale(x, k) == 0x80 * Pow2(k)
  {
    if k > 0 {
      ScaleTimes(x, k - 1);
    }
  }

  lemma {:induction false} Pow2Monotone(j: nat, k: nat)
    requires j <= k
    ensures 0 < Pow2(j) <= Pow2(k)
  {
    if j < k {
      Pow2Monotone(j, k - 1);
    } else if j > 0 {
      Pow2Monotone(j - 1, k - 1);
    }
  }

  lemma ScaleTable(x: nat)
    ensures Scale(x, 7) == 0x80 * x
    ensures Scale(x, 63) == 0x8000_0000_0000_0000 * x
    ensures Scale(x, 70) == 0x40_0000_0000_0000_0000 * x
  {
    ScaleSeven(x, 0); ScaleSeven(x, 7); ScaleSeven(x, 14); ScaleSeven(x, 21); ScaleSeven(x, 28);
    ScaleSeven(x, 35); ScaleSeven(x, 42); ScaleSeven(x, 49); ScaleSeven(x, 56); ScaleSeven(x, 63);
  }
}
