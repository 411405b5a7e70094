/** Decimal numerals, and splitting and joining at a separator character. */
module Text {
  import opened PyValues

  // ----- decimal numerals -----

  predicate IsDigit(c: char) {
    '0' <= c <= '9'
  }

  function DigitChar(d: nat): (c: char)
    requires d < 10
    ensures IsDigit(c) && DigitValue(c) == d
  {
    "0123456789"[d]
  }

  function DigitValue(c: char): nat {
    if '0' <= c then c as int - '0' as int else 0
  }

  function Decimal(n: nat): (s: string)
    ensures s != [] && forall i | 0 <= i < |s| :: IsDigit(s[i])
  {
    if n < 10 then [DigitChar(n)] else Decimal(n / 10) + [DigitChar(n % 10)]
  }

  function ParseNat(s: string): nat {
    if s == [] then 0 else 10 * ParseNat(Front(s)) + DigitValue(Last(s))
  }

  lemma {:induction false} ParseDecimal(n: nat)
    ensures ParseNat(Decimal(n)) == n
  {
    var s := Decimal(n);
    if n >= 10 {
      assert Front(s) == Decimal(n / 10);
      ParseDecimal(n / 10);
    } else {
      assert Front(s) == [];
    }
  }

  lemma DecimalInjective(m: nat, n: nat)
    requires Decimal(m) == Decimal(n)
    ensures m == n
  {
    ParseDecimal(m);
    ParseDecimal(n);
  }

  function IntText(i: int): string {
    if i < 0 then "-" + Decimal(-i) else Decimal(i)
  }

  function ParseInt(s: string): int {
    if s != [] && s[0] == '-' then 0 - ParseNat(s[1..]) else ParseNat(s)
  }

  lemma DigitIsNoSign(c: char)
    requires IsDigit(c)
    ensures c != '-' && c != '.' && c != '['
  {
  }

  lemma ParseIntText(i: int)
    ensures ParseInt(IntText(i)) == i
  {
    hide DigitValue, IsDigit, Decimal, ParseNat;
    if i < 0 {
      assert IntText(i)[1..] == Decimal(-i);
      ParseDecimal(-i);
    } else {
      assert Decimal(i)[0] != '-' by { DigitIsNoSign(Decimal(i)[0]); }
      ParseDecimal(i);
    }
  }

  // ----- split and join -----

  predicate Lacks(s: string, c: char) {
    forall i | 0 <= i < |s| :: s[i] != c
  }

  /** `s.split(c)`: always at least one component; adjacent separators give empty ones. */
  function Split(s: string, c: char): (r: seq<string>)
    ensures r != []
  {
    if s == [] then [""]
    else
      var rest := Split(s[1..], c);
      if s[0] == c then [""] + rest else [[s[0]] + rest[0]] + rest[1..]
  }

  /** `c.join(comps)` */
  function Join(comps: seq<string>, c: char): string {
    if comps == [] then "" else if |comps| == 1 then comps[0] else comps[0] + [c] + Join(comps[1..], c)
  }

  lemma {:induction false} SplitFirst(a: string, s: string, c: char)
    requires Lacks(a, c)
    ensures Split(a + [c] + s, c) == [a] + Split(s, c)
  {
    if a == [] {
      assert ([] + [c] + s)[1..] == s;
    } else {
      assert (a + [c] + s)[1..] == a[1..] + [c] + s;
      SplitFirst(a[1..], s, c);
      assert (a + [c] + s)[0] == a[0] != c;
      assert [a[0]] + a[1..] == a;
    }
  }

  lemma {:induction false} SplitWhole(a: string, c: char)
    requires Lacks(a, c)
    ensures Split(a, c) == [a]
  {
    if a != [] {
      SplitWhole(a[1..], c);
      assert [a[0]] + a[1..] == a;
    }
  }

  /** Splitting undoes joining when no component contains the separator. */
  lemma {:induction false} SplitJoin(comps: seq<string>, c: char)
    requires comps != [] && forall i | 0 <= i < |comps| :: Lacks(comps[i], c)
    ensures Split(Join(comps, c), c) == comps
  {
    if |comps| == 1 {
      SplitWhole(comps[0], c);
    } else {
      SplitFirst(comps[0], Join(comps[1..], c), c);
      SplitJoin(comps[1..], c);
    }
  }

  lemma {:induction false} JoinConcat(a: seq<string>, b: seq<string>, c: char)
    requires a != [] && b != []
    ensures Join(a + b, c) == Join(a, c) + [c] + Join(b, c)
  {
    if |a| == 1 {
      assert (a + b)[1..] == b;
    } else {
      assert (a + b)[1..] == a[1..] + b;
      JoinConcat(a[1..], b, c);
    }
  }

  /** Joining undoes splitting, and no component contains the separator. */
  lemma {:induction false} JoinSplit(s: string, c: char)
    ensures Join(Split(s, c), c) == s
    ensures forall i | 0 <= i < |Split(s, c)| :: Lacks(Split(s, c)[i], c)
    decreases |s|
  {
    if s != [] {
      JoinSplit(s[1..], c);
      var rest := Split(s[1..], c);
      assert Split(s, c)[1..] == if s[0] == c then rest else rest[1..];
      assert s == [s[0]] + s[1..];
    }
  }
}
