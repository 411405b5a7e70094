/** `FullPermutation.get_all_permutations`: a memoised recursion whose cached lists agree with the
    plain one, and which lists every permutation exactly once. */
module Permutations {
  import opened PyValues
  import Bits

  type Perm = seq<nat>

  function InsertAt(s: Perm, loc: nat, x: nat): Perm
    requires loc <= |s|
  {
    s[..loc] + [x] + s[loc..]
  }

  /** The permutations made from `s` by inserting `x` at the first `n` places, in order. */
  function Spread(s: Perm, x: nat, n: nat): (r: seq<Perm>)
    requires n <= |s| + 1
    ensures |r| == n && forall i | 0 <= i < n :: r[i] == InsertAt(s, i, x)
  {
    if n == 0 then [] else Spread(s, x, n - 1) + [InsertAt(s, n - 1, x)]
  }

  predicate AllLength(perms: seq<Perm>, n: nat) {
    forall i | 0 <= i < |perms| :: |perms[i]| == n
  }

  function SpreadAll(perms: seq<Perm>, x: nat): (r: seq<Perm>)
    requires AllLength(perms, x)
    ensures AllLength(r, x + 1)
  {
    if perms == [] then [] else SpreadAll(Front(perms), x) + Spread(Last(perms), x, x + 1)
  }

  /** The uncached recursion, in the order in which the generator yields. */
  function Perms(n: nat): (r: seq<Perm>)
    ensures AllLength(r, n)
  {
    if n == 0 then [[]] else SpreadAll(Perms(n - 1), n - 1)
  }

  function Factorial(n: nat): nat {
    if n == 0 then 1 else n * Factorial(n - 1)
  }

  lemma {:induction false} SpreadAllCount(perms: seq<Perm>, x: nat)
    requires AllLength(perms, x)
    ensures |SpreadAll(perms, x)| == (x + 1) * |perms|
  {
    if perms != [] {
      SpreadAllCount(Front(perms), x);
      var k := |perms| - 1;
      assert (x + 1) * (k + 1) == (x + 1) * k + (x + 1);
    }
  }

  lemma {:induction false} PermsCount(n: nat)
    ensures |Perms(n)| == Factorial(n)
  {
    hide SpreadAll, AllLength;
    if n > 0 {
      PermsCount(n - 1);
      SpreadAllCount(Perms(n - 1), n - 1);
      assert Perms(n) == SpreadAll(Perms(n - 1), n - 1);
    }
  }

  // ----- the memoised generator -----

  const CACHED := 8

  /** The inner loop: a copy of `s` per place, with `x` inserted there. */
  method Insertions(s: Perm, x: nat) returns (r: seq<Perm>)
    requires |s| == x
    ensures r == Spread(s, x, x + 1)
  {
    r := [];
    for location := 0 to x + 1
      invariant r == Spread(s, x, location)
    {
      r := r + [InsertAt(s, location, x)];
    }
  }

  datatype Slot = Empty | Filled(perms: seq<Perm>)

  class PermutationCache {
    var cache: seq<Slot>

    /** Every filled slot holds what the uncached recursion yields. */
    ghost predicate Valid()
      reads this
    {
      && |cache| == CACHED && cache[0].Filled?
      && forall i | 0 <= i < CACHED && cache[i].Filled? :: cache[i].perms == Perms(i)
    }

    constructor ()
      ensures Valid()
    {
      hide Perms;
      PermsZero();
      cache := [Filled([[]]), Empty, Empty, Empty, Empty, Empty, Empty, Empty];
    }

    method GetAllPermutations(maxIndex: int) returns (r: Outcome<seq<Perm>>)
      requires Valid()
      modifies this
      ensures Valid()
      ensures if maxIndex < 0 then r == Raise(ValueError) else r == Ok(Perms(maxIndex))
      ensures forall i | 0 <= i < CACHED :: old(cache[i]).Filled? ==> cache[i] == old(cache[i])
      ensures |cache| == 8 && (0 <= maxIndex < 8 ==> cache[maxIndex].Filled?)
      decreases maxIndex
    {
      if maxIndex < 0 {
        return Raise(ValueError);
      }
      if maxIndex < |cache| {
        if cache[maxIndex].Filled? {
          return Ok(cache[maxIndex].perms);
        }
        var lists := Generate(maxIndex);
        cache := cache[maxIndex := Filled(lists)];
        return Ok(lists);
      } else {
        var lists := Generate(maxIndex);
        return Ok(lists);
      }
    }

    /** The generator behind both branches, run to its end. */
    method Generate(maxIndex: int) returns (r: seq<Perm>)
      requires Valid() && maxIndex >= 1
      modifies this
      ensures Valid() && r == Perms(maxIndex)
      ensures forall i | 0 <= i < CACHED :: old(cache[i]).Filled? ==> cache[i] == old(cache[i])
      decreases maxIndex, 0
    {
      hide Perms, SpreadAll, AllLength;
      var smaller := GetAllPermutations(maxIndex - 1);
      var perms := smaller.value;
      ghost var filled := cache;
      PermsStep(maxIndex);
      SpreadAllNone(maxIndex - 1);
      r := [];
      for i := 0 to |perms|
        invariant cache == filled
        invariant AllLength(perms[..i], maxIndex - 1) && r == SpreadAll(perms[..i], maxIndex - 1)
      {
        SpreadAllStep(perms, i, maxIndex - 1);
        var inserted := Insertions(perms[i], maxIndex - 1);
        r := r + inserted;
      }
      assert perms[..|perms|] == perms;
    }
  }

  lemma PermsZero()
    ensures Perms(0) == [[]]
  {
  }

  lemma PermsStep(n: nat)
    requires n > 0
    ensures Perms(n) == SpreadAll(Perms(n - 1), n - 1)
  {
  }

  lemma SpreadAllNone(x: nat)
    ensures AllLength([], x) && SpreadAll([], x) == []
  {
  }

  lemma SpreadAllStep(perms: seq<Perm>, i: nat, x: nat)
    requires AllLength(perms, x) && i < |perms|
    ensures AllLength(perms[..i], x) && AllLength(perms[..i + 1], x) && |perms[i]| == x
    ensures SpreadAll(perms[..i + 1], x) == SpreadAll(perms[..i], x) + Spread(perms[i], x, x + 1)
  {
    assert Front(perms[..i + 1]) == perms[..i];
  }

  // ----- each permutation exactly once -----

  /** A rearrangement of 0, ..., n - 1. */
  predicate IsPermutation(p: Perm, n: nat) {
    && |p| == n
    && (forall i | 0 <= i < n :: p[i] < n)
    && (forall i, j | 0 <= i < j < n :: p[i] != p[j])
  }

  predicate AllPermutations(perms: seq<Perm>, n: nat)
    ensures AllPermutations(perms, n) ==> AllLength(perms, n)
  {
    forall i | 0 <= i < |perms| :: IsPermutation(perms[i], n)
  }

  ghost predicate ListsAll(perms: seq<Perm>, n: nat) {
    forall p: Perm :: p in perms <==> IsPermutation(p, n)
  }

  predicate NoRepeats(perms: seq<Perm>) {
    forall i, j | 0 <= i < j < |perms| :: perms[i] != perms[j]
  }

  lemma InsertIsPermutation(s: Perm, loc: nat, n: nat)
    requires IsPermutation(s, n) && loc <= n
    ensures IsPermutation(InsertAt(s, loc, n), n + 1)
  {
    var p := InsertAt(s, loc, n);
    forall i | 0 <= i <= n
      ensures p[i] == if i < loc then s[i] else if i == loc then n else s[i - 1]
    {
    }
  }

  lemma RemoveAt(p: Perm, n: nat, loc: nat)
    requires IsPermutation(p, n + 1) && loc <= n && p[loc] == n
    ensures IsPermutation(p[..loc] + p[loc + 1..], n)
  {
    var s := p[..loc] + p[loc + 1..];
    forall i | 0 <= i < n
      ensures s[i] == p[if i < loc then i else i + 1] && s[i] < n
    {
      var k := if i < loc then i else i + 1;
      assert s[i] == p[k];
      assert p[k] != p[loc];
    }
    forall i, j | 0 <= i < j < n
      ensures s[i] != s[j]
    {
      var k, l := if i < loc then i else i + 1, if j < loc then j else j + 1;
      assert p[k] != p[l];
    }
  }

  /** Taking the largest element out of a permutation: what is left, and where it was. */
  lemma RemoveLargest(p: Perm, n: nat) returns (s: Perm, loc: nat)
    requires IsPermutation(p, n + 1)
    ensures loc <= n && IsPermutation(s, n) && p == InsertAt(s, loc, n)
  {
    LargestOccurs(p, n);
    loc :| loc <= n && p[loc] == n;
    RemoveAt(p, n, loc);
    hide IsPermutation;
    s := p[..loc] + p[loc + 1..];
    assert s[..loc] == p[..loc] && s[loc..] == p[loc + 1..];
  }

  lemma {:induction false} LargestOccurs(p: Perm, n: nat)
    requires IsPermutation(p, n + 1)
    ensures exists i :: 0 <= i <= n && p[i] == n
  {
    TooMany(p, n);
  }

  function Elements(p: Perm): set<nat> {
    set i | 0 <= i < |p| :: p[i]
  }

  lemma {:induction false} ElementsCount(p: Perm)
    requires forall i, j | 0 <= i < j < |p| :: p[i] != p[j]
    ensures |Elements(p)| == |p|
  {
    if p != [] {
      ElementsCount(Front(p));
      assert Elements(p) == Elements(Front(p)) + {Last(p)};
    }
  }

  lemma {:induction false} BelowCount(s: set<nat>, n: nat)
    requires forall x <- s :: x < n
    ensures |s| <= n
  {
    if n > 0 {
      BelowCount(s - {n - 1}, n - 1);
      assert s <= (s - {n - 1}) + {n - 1};
    } else {
      assert s == {};
    }
  }

  /** n + 1 different numbers are not all below n. */
  lemma TooMany(p: Perm, n: nat)
    requires |p| == n + 1 && forall i, j | 0 <= i < j < |p| :: p[i] != p[j]
    ensures exists i :: 0 <= i < |p| && p[i] >= n
  {
    ElementsCount(p);
    if forall i | 0 <= i <= n :: p[i] < n {
      BelowCount(Elements(p), n);
    }
  }

  lemma InsertInjective(s: Perm, i: nat, t: Perm, j: nat, n: nat)
    requires IsPermutation(s, n) && IsPermutation(t, n) && i <= n && j <= n
    requires InsertAt(s, i, n) == InsertAt(t, j, n)
    ensures s == t && i == j
  {
    var p := InsertAt(s, i, n);
    assert p[i] == n && p[j] == n;
    InsertIsPermutation(s, i, n);
    assert i == j;
    assert s == p[..i] + p[i + 1..] == t;
  }

  /** `q` is made of an entry of the list by inserting `x`. */
  ghost predicate MadeFrom(perms: seq<Perm>, x: nat, q: Perm)
    requires AllLength(perms, x)
  {
    exists i, loc: nat :: 0 <= i < |perms| && loc <= x && q == InsertAt(perms[i], loc, x)
  }

  lemma {:induction false} SpreadAllMembers(perms: seq<Perm>, x: nat)
    requires AllLength(perms, x)
    ensures forall q :: q in SpreadAll(perms, x) <==> MadeFrom(perms, x, q)
  {
    hide MadeFrom, SpreadAll;
    if perms == [] {
      SpreadAllNone(x);
      assert forall q :: !MadeFrom(perms, x, q) by { MadeFromNone(x); }
    } else {
      SpreadAllPop(perms, x);
      SpreadAllMembers(Front(perms), x);
      forall q
        ensures q in SpreadAll(perms, x) <==> MadeFrom(perms, x, q)
      {
        MadeFromLast(perms, x, q);
      }
    }
  }

  lemma MadeFromNone(x: nat)
    ensures AllLength([], x) && forall q :: !MadeFrom([], x, q)
  {
  }

  lemma MadeFromLast(perms: seq<Perm>, x: nat, q: Perm)
    requires AllLength(perms, x) && perms != []
    ensures AllLength(Front(perms), x) && |Last(perms)| == x
    ensures MadeFrom(perms, x, q) <==> MadeFrom(Front(perms), x, q) || q in Spread(Last(perms), x, x + 1)
  {
    hide InsertAt;
    var n, last := |perms| - 1, Spread(Last(perms), x, x + 1);
    if MadeFrom(Front(perms), x, q) {
      var i, loc: nat :| 0 <= i < n && loc <= x && q == InsertAt(Front(perms)[i], loc, x);
      assert q == InsertAt(perms[i], loc, x);
    }
    if q in last {
      var loc :| 0 <= loc < |last| && last[loc] == q;
      assert q == InsertAt(perms[n], loc, x);
    }
    if i, loc: nat :| 0 <= i < |perms| && loc <= x && q == InsertAt(perms[i], loc, x) {
      if i < n {
        assert q == InsertAt(Front(perms)[i], loc, x);
      } else {
        assert last[loc] == q;
      }
    }
  }

  lemma NoRepeatsConcat(a: seq<Perm>, b: seq<Perm>)
    requires NoRepeats(a) && NoRepeats(b) && forall p: Perm | p in a :: p !in b
    ensures NoRepeats(a + b)
  {
    var c := a + b;
    forall i: nat, j: nat | i < j < |c|
      ensures c[i] != c[j]
    {
      assert i < |a| ==> c[i] in a;
      assert j >= |a| ==> c[j] in b;
    }
  }

  lemma {:induction false} SpreadAllNoRepeats(perms: seq<Perm>, x: nat)
    requires AllPermutations(perms, x) && NoRepeats(perms)
    ensures NoRepeats(SpreadAll(perms, x))
  {
    hide IsPermutation;
    if perms != [] {
      var fewer := Front(perms);
      SpreadAllNoRepeats(fewer, x);
      SpreadAllMembers(fewer, x);
      var a, b := SpreadAll(fewer, x), Spread(Last(perms), x, x + 1);
      forall p: Perm | p in a
        ensures p !in b
      {
        NewBaseNewPermutations(perms, p, x);
      }
      SpreadNoRepeats(Last(perms), x);
      NoRepeatsConcat(a, b);
    }
  }

  lemma NewBaseNewPermutations(perms: seq<Perm>, p: Perm, x: nat)
    requires perms != [] && AllPermutations(perms, x) && NoRepeats(perms)
    requires p in SpreadAll(Front(perms), x)
    ensures p !in Spread(Last(perms), x, x + 1)
  {
    hide IsPermutation, SpreadAll;
    SpreadAllMembers(Front(perms), x);
    var k, loc: nat :| 0 <= k < |perms| - 1 && loc <= x && p == InsertAt(Front(perms)[k], loc, x);
    var last := Spread(Last(perms), x, x + 1);
    forall j: nat | j < |last|
      ensures last[j] != p
    {
      NewBaseNewPermutation(perms, k, loc, j, x);
    }
  }

  lemma SpreadNoRepeats(s: Perm, x: nat)
    requires IsPermutation(s, x)
    ensures NoRepeats(Spread(s, x, x + 1))
  {
    var perms := Spread(s, x, x + 1);
    forall i: nat, j: nat | i < j < |perms|
      ensures perms[i] != perms[j]
    {
      SpreadDistinct(s, x, i, j);
    }
  }

  lemma SpreadDistinct(s: Perm, x: nat, i: nat, j: nat)
    requires IsPermutation(s, x) && i <= x && j <= x && i != j
    ensures InsertAt(s, i, x) != InsertAt(s, j, x)
  {
    if InsertAt(s, i, x) == InsertAt(s, j, x) {
      InsertInjective(s, i, s, j, x);
    }
  }

  lemma NewBaseNewPermutation(perms: seq<Perm>, k: nat, loc: nat, j: nat, x: nat)
    requires AllPermutations(perms, x) && NoRepeats(perms)
    requires k < |perms| - 1 && loc <= x && j <= x
    ensures InsertAt(perms[k], loc, x) != InsertAt(Last(perms), j, x)
  {
    if InsertAt(perms[k], loc, x) == InsertAt(Last(perms), j, x) {
      InsertInjective(perms[k], loc, Last(perms), j, x);
    }
  }

  /** For every n the list holds each permutation of 0, ..., n - 1, nothing else, and none twice;
      so it has n! entries. */
  lemma {:induction false} PermsAreAllPermutations(n: nat)
    ensures ListsAll(Perms(n), n)
    ensures NoRepeats(Perms(n))
    ensures |Perms(n)| == Factorial(n)
  {
    hide SpreadAll;
    PermsCount(n);
    if n == 0 {
      assert Perms(0) == [[]];
    } else {
      PermsAreAllPermutations(n - 1);
      var perms := Perms(n - 1);
      assert forall i | 0 <= i < |perms| :: perms[i] in perms;
      SpreadAllNoRepeats(perms, n - 1);
      assert Perms(n) == SpreadAll(perms, n - 1);
      forall p: Perm
        ensures p in Perms(n) <==> IsPermutation(p, n)
      {
        PermsMember(p, n);
      }
    }
  }

  lemma PermsMember(p: Perm, n: nat)
    requires n > 0 && ListsAll(Perms(n - 1), n - 1)
    ensures p in Perms(n) <==> IsPermutation(p, n)
  {
    hide SpreadAll, Perms;
    var perms := Perms(n - 1);
    SpreadAllMembers(perms, n - 1);
    PermsStep(n);
    if p in Perms(n) {
      var i, loc: nat :| 0 <= i < |perms| && loc <= n - 1 && p == InsertAt(perms[i], loc, n - 1);
      assert perms[i] in perms;
      InsertIsPermutation(perms[i], loc, n - 1);
    }
    if IsPermutation(p, n) {
      hide IsPermutation, InsertAt;
      var i, loc := PermutationListed(p, n);
    }
  }

  lemma PermutationListed(p: Perm, n: nat) returns (i: nat, loc: nat)
    requires n > 0 && ListsAll(Perms(n - 1), n - 1) && IsPermutation(p, n)
    ensures i < |Perms(n - 1)| && loc <= n - 1 && p == InsertAt(Perms(n - 1)[i], loc, n - 1)
  {
    hide Perms, IsPermutation;
    var s;
    s, loc := RemoveLargest(p, n - 1);
    assert s in Perms(n - 1);
    i :| 0 <= i < |Perms(n - 1)| && Perms(n - 1)[i] == s;
  }

  // ----- in which order -----

  lemma PlaceBelow(j: nat, n: nat, d: nat, loc: nat)
    requires j < n && loc < d
    ensures j * d + loc < n * d
  {
    assert (j + 1) * d == j * d + d;
    Bits.MulLe(d, j + 1, n);
  }

  lemma {:induction false} SpreadAllAt(perms: seq<Perm>, x: nat, j: nat, loc: nat)
    requires AllLength(perms, x) && j < |perms| && loc <= x
    ensures j * (x + 1) + loc < |SpreadAll(perms, x)|
    ensures SpreadAll(perms, x)[j * (x + 1) + loc] == InsertAt(perms[j], loc, x)
    decreases |perms|
  {
    hide InsertAt, SpreadAll, AllLength;
    var fewer := Front(perms);
    SpreadAllPop(perms, x);
    PlacesAt(perms, x, j, loc);
    if j < |fewer| {
      SpreadAllAt(fewer, x, j, loc);
    } else {
      assert SpreadAll(perms, x)[|SpreadAll(fewer, x)| + loc] == Spread(Last(perms), x, x + 1)[loc];
    }
  }

  lemma PlacesAt(perms: seq<Perm>, x: nat, j: nat, loc: nat)
    requires AllLength(perms, x) && j < |perms| && loc <= x
    ensures AllLength(Front(perms), x) && j * (x + 1) + loc < |SpreadAll(perms, x)|
    ensures j == |perms| - 1 ==> j * (x + 1) == |SpreadAll(Front(perms), x)|
  {
    hide SpreadAll;
    SpreadAllCount(Front(perms), x);
    SpreadAllCount(perms, x);
    PlaceBelow(j, |perms|, x + 1, loc);
  }

  lemma SpreadAllPop(perms: seq<Perm>, x: nat)
    requires AllLength(perms, x) && perms != []
    ensures AllLength(Front(perms), x) && |Last(perms)| == x
    ensures SpreadAll(perms, x) == SpreadAll(Front(perms), x) + Spread(Last(perms), x, x + 1)
  {
  }

  /** `x` stands at this place, and the rest is what is left without it. */
  predicate StandsAt(p: Perm, place: nat, x: nat, rest: Perm) {
    place < |p| && p[place] == x && p[..place] + p[place + 1..] == rest
  }

  /** The order of the list: in entry `k` the largest number stands at place `k` modulo n, and without it the
      entry is the one at `k` divided by n in the list for n - 1. */
  lemma EntryAt(n: nat, k: nat)
    requires n > 0 && k < |Perms(n)|
    ensures k / n < |Perms(n - 1)| && StandsAt(Perms(n)[k], k % n, n - 1, Perms(n - 1)[k / n])
  {
    hide Perms, SpreadAll;
    PermsStep(n);
    var j, loc := k / n, k % n;
    assert k == j * n + loc;
    SpreadAllCount(Perms(n - 1), n - 1);
    if j >= |Perms(n - 1)| {
      Bits.MulLe(n, |Perms(n - 1)|, j);
    }
    SpreadAllAt(Perms(n - 1), n - 1, j, loc);
    var s, p := Perms(n - 1)[j], Perms(n)[k];
    assert p == s[..loc] + [n - 1] + s[loc..];
    assert p[..loc] == s[..loc] && p[loc + 1..] == s[loc..];
  }
}
