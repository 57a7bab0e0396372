/** Decimal text and the composite store keys built from it. */
module Decimal {
  import opened GoInt
  import opened Results

  function Digit(d: nat): char
    requires d < 10
  {
    ('0' as int + d) as char
  }

  predicate IsDigit(c: char) {
    '0' <= c <= '9'
  }

  function DigitValue(c: char): nat
    requires IsDigit(c)
  {
    c as int - '0' as int
  }

  predicate AllDigits(s: string) {
    forall k :: 0 <= k < |s| ==> IsDigit(s[k])
  }

  /** fmt's %d on a natural number. */
  function Text(n: nat): (s: string)
    ensures |s| > 0
  {
    if n < 10 then [Digit(n)] else Text(n / 10) + [Digit(n % 10)]
  }

  /** The number a run of digits denotes; None if it is not all digits. */
  function Number(s: string): Option<nat> {
    if s == "" then Some(0)
    else
      var n := |s| - 1;
      match Number(s[..n])
      case None => None
      case Some(x) => if IsDigit(s[n]) then Some(10 * x + DigitValue(s[n])) else None
  }

  lemma {:induction false} TextDenotes(n: nat)
    ensures AllDigits(Text(n)) && Number(Text(n)) == Some(n)
  {
    var s := Text(n);
    if n >= 10 {
      TextDenotes(n / 10);
      assert s[..|s| - 1] == Text(n / 10);
    } else {
      assert s[..0] == "";
    }
  }

  lemma TextInjective(m: nat, n: nat)
    requires Text(m) == Text(n)
    ensures m == n
  {
    TextDenotes(m);
    TextDenotes(n);
  }

  function Pow10(k: nat): nat {
    if k == 0 then 1 else 10 * Pow10(k - 1)
  }

  lemma {:induction false} TextLength(n: nat, k: nat)
    requires k > 0 && n < Pow10(k)
    ensures |Text(n)| <= k
  {
    assert Pow10(1) == 10 * Pow10(0) == 10;
    if n >= 10 {
      TextLength(n / 10, k - 1);
    }
  }

  /** A uint64 has at most 20 digits. */
  lemma Uint64Text(n: uint64)
    ensures |Text(n)| <= 20
  {
    assert Pow10(5) == 10_0000;
    assert Pow10(10) == 100_0000_0000 by { assert Pow10(8) == 1000 * Pow10(5); }
    assert Pow10(15) == 1000_0000_0000_0000 by { assert Pow10(13) == 1000 * Pow10(10); }
    assert Pow10(20) == 1_0000_0000_0000_0000_0000 by { assert Pow10(18) == 1000 * Pow10(15); }
    TextLength(n, 20);
  }

  // ---------- strconv ----------

  /** strconv.FormatInt in base 10. */
  function FormatInt(n: int): string {
    if n < 0 then "-" + Text(-n) else Text(n)
  }

  /** strconv.ParseInt in base 10 with 64 bits: None is a syntax or range error. */
  function ParseInt(s: string): Option<int64> {
    if s == "" then None
    else
      var signed := s[0] == '-' || s[0] == '+';
      if signed && |s| == 1 then None
      else
        match Number(if signed then s[1..] else s)
        case None => None
        case Some(n) =>
          if s[0] == '-' then (if n > 0x8000_0000_0000_0000 then None else Some(-(n as int)))
          else if n >= 0x8000_0000_0000_0000 then None else Some(n)
  }

  /** Every int64 comes back from its text. */
  lemma FormatRoundTrip(n: int64)
    ensures ParseInt(FormatInt(n)) == Some(n)
  {
    var m: nat := if n < 0 then -(n as int) else n;
    TextDenotes(m);
    if n < 0 {
      ParseSigned(Text(m), m);
    } else {
      assert IsDigit(Text(m)[0]);
    }
  }

  lemma ParseSigned(s: string, m: nat)
    requires s != "" && Number(s) == Some(m) && m <= 0x8000_0000_0000_0000
    ensures ParseInt("-" + s) == Some(-(m as int))
  {
    assert ("-" + s)[1..] == s;
  }

  /** The value of digits by place. */
  function Value(s: string): nat
    requires AllDigits(s)
  {
    if s == "" then 0 else DigitValue(s[0]) * Pow10(|s| - 1) + Value(s[1..])
  }

  lemma {:induction false} ValueLast(s: string)
    requires s != "" && AllDigits(s)
    ensures Value(s) == 10 * Value(s[..|s| - 1]) + DigitValue(s[|s| - 1])
  {
    var n := |s| - 1;
    if n > 0 {
      ValueLast(s[1..]);
      assert s[1..][..n - 1] == s[..n][1..];
      assert Value(s[..n]) == DigitValue(s[0]) * Pow10(n - 1) + Value(s[..n][1..]);
      TenTimes(DigitValue(s[0]), Pow10(n - 1));
    } else {
      assert Pow10(0) == 1 && s[1..] == "" && s[..0] == "";
    }
  }

  lemma TenTimes(d: nat, p: nat)
    ensures d * (10 * p) == 10 * (d * p)
  {
  }

  lemma {:induction false} NumberExact(s: string)
    ensures Number(s) == if AllDigits(s) then Some(Value(s)) else None
  {
    if s != "" {
      var n := |s| - 1;
      NumberExact(s[..n]);
      if AllDigits(s) {
        ValueLast(s);
      } else if AllDigits(s[..n]) {
        assert forall k :: 0 <= k < n ==> s[k] == s[..n][k];
      }
    }
  }

  /** s is an optional sign and digits, and n the number they make. */
  predicate IsNumeral(s: string, n: int) {
    if s != "" && (s[0] == '-' || s[0] == '+') then
      && |s| > 1 && AllDigits(s[1..])
      && n == if s[0] == '-' then -(Value(s[1..]) as int) else Value(s[1..])
    else s != "" && AllDigits(s) && n == Value(s)
  }

  /** ParseInt accepts exactly the numerals of the int64s, and gives their numbers. */
  lemma ParseExact(s: string, n: int64)
    ensures ParseInt(s) == Some(n) <==> IsNumeral(s, n)
  {
    NumberExact(s);
    if s != "" {
      NumberExact(s[1..]);
    }
  }

  /** %d writes no needless zero: of the digits for a number this is the one text without one. */
  lemma {:induction false} TextLeads(n: nat)
    ensures n > 0 ==> Text(n)[0] != '0'
    ensures n < 10 ==> Text(n) == [('0' as int + n) as char]
  {
    if n >= 10 {
      TextLeads(n / 10);
    }
  }

  // ---------- Keys ----------

  /** The part of a key that names the market. */
  function Prefix(marketId: nat): string {
    Text(marketId) + "/"
  }

  /** MarketVoterKey: "%d/%s". */
  function MarketVoterKey(marketId: nat, voter: string): string {
    Prefix(marketId) + voter
  }

  /** Digits cannot run past the slash: two prefixes at the start of one string are the same market's. */
  lemma PrefixDecides(m: nat, n: nat, s: string)
    requires Prefix(m) <= MarketVoterKey(n, s)
    ensures m == n
  {
    var p, key := Text(m), MarketVoterKey(n, s);
    TextDenotes(m);
    TextDenotes(n);
    assert key[|p|] == Prefix(m)[|p|] == '/';
    assert key[|Text(n)|] == '/';
    assert forall k :: 0 <= k < |p| ==> key[k] == Prefix(m)[k] == p[k];
    assert forall k :: 0 <= k < |Text(n)| ==> key[k] == Text(n)[k];
    assert forall k :: 0 <= k < |p| ==> IsDigit(key[k]);
    assert forall k :: 0 <= k < |Text(n)| ==> IsDigit(key[k]);
    assert |p| == |Text(n)|;
    assert p == Text(n);
    TextInjective(m, n);
  }

  /** Different (market, voter) pairs have different keys. */
  lemma KeyInjective(m: nat, v: string, n: nat, w: string)
    ensures MarketVoterKey(m, v) == MarketVoterKey(n, w) <==> m == n && v == w
  {
    if MarketVoterKey(m, v) == MarketVoterKey(n, w) {
      PrefixDecides(m, n, w);
      assert MarketVoterKey(m, v)[|Prefix(m)|..] == v;
      assert MarketVoterKey(n, w)[|Prefix(n)|..] == w;
    }
  }

  /** The reputation store's key: "%s:%s". */
  function ScoreKey(address: string, groupId: string): string {
    address + ":" + groupId
  }

  /** w splits the difference: b is a, a colon and w, and g is w, a colon and h. */
  predicate Overlaps(a: string, g: string, b: string, h: string) {
    a + ":" <= b && g == b[|a| + 1..] + ":" + h
  }

  /** When two (address, group) pairs share a key: only if they are the same, or one
      address runs on over the other's colon. */
  lemma ScoreKeysCollide(a: string, g: string, b: string, h: string)
    ensures ScoreKey(a, g) == ScoreKey(b, h)
       <==> (a == b && g == h) || Overlaps(a, g, b, h) || Overlaps(b, h, a, g)
  {
    if ScoreKey(a, g) == ScoreKey(b, h) {
      if |a| == |b| {
        SplitKey(a, g);
        SplitKey(b, h);
      } else if |a| < |b| {
        Overrun(a, g, b, h);
      } else {
        Overrun(b, h, a, g);
      }
    }
    if Overlaps(a, g, b, h) {
      assert b == a + ":" + b[|a| + 1..];
      assert ScoreKey(a, g) == ScoreKey(b, h);
    }
    if Overlaps(b, h, a, g) {
      assert a == b + ":" + a[|b| + 1..];
      assert ScoreKey(a, g) == ScoreKey(b, h);
    }
  }

  lemma SplitKey(a: string, g: string)
    ensures ScoreKey(a, g)[..|a|] == a && ScoreKey(a, g)[|a| + 1..] == g && ScoreKey(a, g)[|a|] == ':'
  {
  }

  lemma Overrun(a: string, g: string, b: string, h: string)
    requires ScoreKey(a, g) == ScoreKey(b, h) && |a| < |b|
    ensures Overlaps(a, g, b, h)
  {
    var key := ScoreKey(a, g);
    SplitKey(a, g);
    SplitKey(b, h);
    assert b[..|a| + 1] == key[..|a| + 1] == a + ":";
    assert key[|a| + 1..] == b[|a| + 1..] + ":" + h;
  }

  predicate NoColon(s: string) {
    ':' !in s
  }

  /** Addresses without a colon, as bech32 text is, never collide. */
  lemma ScoreKeyInjective(a: string, g: string, b: string, h: string)
    requires NoColon(a) && NoColon(b)
    ensures ScoreKey(a, g) == ScoreKey(b, h) <==> a == b && g == h
  {
    ScoreKeysCollide(a, g, b, h);
    if Overlaps(a, g, b, h) {
      ColonInside(a, b);
    }
    if Overlaps(b, h, a, g) {
      ColonInside(b, a);
    }
  }

  lemma ColonInside(a: string, b: string)
    requires a + ":" <= b
    ensures ':' in b
  {
    assert b[|a|] == (a + ":")[|a|];
  }
}
