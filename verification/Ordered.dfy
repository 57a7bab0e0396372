/** Iterating over a store: its keys in ascending order. */
module Ordered {
  ghost predicate TotalOrder<K(!new)>(le: (K, K) -> bool) {
    && (forall a, b :: le(a, b) || le(b, a))
    && (forall a, b :: le(a, b) && le(b, a) ==> a == b)
    && (forall a, b, c :: le(a, b) && le(b, c) ==> le(a, c))
  }

  predicate IsLeast<K>(le: (K, K) -> bool, s: set<K>, k: K) {
    k in s && forall x :: x in s ==> le(k, x)
  }

  lemma {:induction false} LeastExists<K(!new)>(le: (K, K) -> bool, s: set<K>)
    requires TotalOrder(le) && s != {}
    ensures exists k :: IsLeast(le, s, k)
    decreases |s|
  {
    var x :| x in s;
    if s == {x} {
      assert IsLeast(le, s, x);
    } else {
      var t := s - {x};
      LeastExists(le, t);
      var k :| IsLeast(le, t, k);
      assert s == t + {x};
      assert IsLeast(le, s, if le(x, k) then x else k);
    }
  }

  function Least<K(!new)>(le: (K, K) -> bool, s: set<K>): (k: K)
    requires TotalOrder(le) && s != {}
    ensures IsLeast(le, s, k)
  {
    LeastExists(le, s);
    var k :| IsLeast(le, s, k);
    k
  }

  /** Strictly ascending. */
  ghost predicate IsAscending<K(!new)>(le: (K, K) -> bool, r: seq<K>) {
    forall i, j :: 0 <= i < j < |r| ==> le(r[i], r[j]) && r[i] != r[j]
  }

  /** A key iterator over s, run to its end. */
  function Ascending<K(!new)>(le: (K, K) -> bool, s: set<K>): seq<K>
    requires TotalOrder(le)
    decreases |s|
  {
    if s == {} then []
    else
      var k := Least(le, s);
      [k] + Ascending(le, s - {k})
  }

  /** It yields the elements of s, each once, in ascending order. */
  lemma {:induction false} AscendingExact<K(!new)>(le: (K, K) -> bool, s: set<K>)
    requires TotalOrder(le)
    ensures var r := Ascending(le, s);
      IsAscending(le, r) && |r| == |s| && forall x :: x in r <==> x in s
    decreases |s|
  {
    if s != {} {
      AscendingExact(le, s - {Least(le, s)});
    }
  }

  predicate IdLe(a: nat, b: nat) {
    a <= b
  }

  lemma IdOrder()
    ensures TotalOrder(IdLe)
  {
  }

  /** Byte-wise lexicographic order, the order of string keys in the store. */
  predicate StrLe(a: string, b: string) {
    if a == [] then true
    else if b == [] then false
    else a[0] < b[0] || (a[0] == b[0] && StrLe(a[1..], b[1..]))
  }

  lemma StrOrder()
    ensures TotalOrder(StrLe)
  {
    forall a: string, b: string ensures StrLe(a, b) || StrLe(b, a) {
      StrTotal(a, b);
    }
    forall a: string, b: string | StrLe(a, b) && StrLe(b, a) ensures a == b {
      StrAntisymmetric(a, b);
    }
    forall a: string, b: string, c: string | StrLe(a, b) && StrLe(b, c) ensures StrLe(a, c) {
      StrTransitive(a, b, c);
    }
  }

  lemma {:induction false} StrTotal(a: string, b: string)
    ensures StrLe(a, b) || StrLe(b, a)
  {
    if a != [] && b != [] {
      StrTotal(a[1..], b[1..]);
    }
  }

  lemma {:induction false} StrAntisymmetric(a: string, b: string)
    requires StrLe(a, b) && StrLe(b, a)
    ensures a == b
  {
    if a != [] && b != [] {
      StrAntisymmetric(a[1..], b[1..]);
      assert a == [a[0]] + a[1..] && b == [b[0]] + b[1..];
    }
  }

  lemma {:induction false} StrTransitive(a: string, b: string, c: string)
    requires StrLe(a, b) && StrLe(b, c)
    ensures StrLe(a, c)
  {
    if a != [] && b != [] && c != [] && a[0] == b[0] == c[0] {
      StrTransitive(a[1..], b[1..], c[1..]);
    }
  }

  /** The keys of a store with numeric or text keys, as its iterator yields them. */
  function IdKeys(s: set<nat>): (keys: seq<nat>)
    ensures forall k :: k in keys <==> k in s
  {
    IdOrder();
    AscendingExact(IdLe, s);
    Ascending(IdLe, s)
  }

  function StrKeys(s: set<string>): (keys: seq<string>)
    ensures forall k :: k in keys <==> k in s
  {
    StrOrder();
    AscendingExact(StrLe, s);
    Ascending(StrLe, s)
  }

  lemma IdKeysAscend(s: set<nat>)
    ensures IsAscending(IdLe, IdKeys(s)) && |IdKeys(s)| == |s|
  {
    IdOrder();
    AscendingExact(IdLe, s);
  }

  lemma StrKeysAscend(s: set<string>)
    ensures IsAscending(StrLe, StrKeys(s)) && |StrKeys(s)| == |s|
  {
    StrOrder();
    AscendingExact(StrLe, s);
  }
}
