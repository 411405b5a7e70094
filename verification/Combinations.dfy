/** `FullPermutation.get_all_combinations`: a mixed-radix counter that yields every vector of digits
    once, least significant digit first. */
module Combinations {
  import Bits

  type Vector = seq<int>

  /** A digit whose count is zero or negative still takes the one value 0. */
  function Radix(count: int): (r: nat)
    ensures r >= 1
  {
    if count < 1 then 1 else count
  }

  function Product(counts: seq<int>): (r: nat)
    ensures r >= 1
  {
    if counts == [] then 1
    else
      MulPositive(Radix(counts[0]), Product(counts[1..]));
      Radix(counts[0]) * Product(counts[1..])
  }

  lemma MulPositive(a: nat, b: nat)
    requires a >= 1 && b >= 1
    ensures a * b >= 1
  {
    assert a * b >= a * 1;
  }

  predicate InRange(v: Vector, counts: seq<int>) {
    |v| == |counts| && forall i | 0 <= i < |v| :: 0 <= v[i] < Radix(counts[i])
  }

  /** The number a vector stands for, as a little-endian mixed-radix numeral. */
  function Rank(v: Vector, counts: seq<int>): int
    requires |v| == |counts|
  {
    if v == [] then 0 else v[0] + Radix(counts[0]) * Rank(v[1..], counts[1..])
  }

  lemma {:induction false} RankBound(v: Vector, counts: seq<int>)
    requires InRange(v, counts)
    ensures 0 <= Rank(v, counts) < Product(counts)
  {
    if v != [] {
      RankBound(v[1..], counts[1..]);
      var r, k, p := Radix(counts[0]), Rank(v[1..], counts[1..]), Product(counts[1..]);
      Bits.MulLe(r, 0, k);
      Bits.MulLe(r, k, p - 1);
      assert r * (p - 1) == r * p - r;
    }
  }

  /** A number below r plus a multiple of r determines both. */
  lemma DigitAndRest(r: nat, a: int, k: int, b: int, l: int)
    requires 0 <= a < r && 0 <= b < r && a + r * k == b + r * l
    ensures a == b && k == l
  {
    assert r * (k + 1) == r * k + r && r * (l + 1) == r * l + r;
    if k < l {
      Bits.MulLe(r, k + 1, l);
    } else if l < k {
      Bits.MulLe(r, l + 1, k);
    }
  }

  lemma {:induction false} RankInjective(v: Vector, w: Vector, counts: seq<int>)
    requires InRange(v, counts) && InRange(w, counts) && Rank(v, counts) == Rank(w, counts)
    ensures v == w
  {
    if v != [] {
      var k, l := Rank(v[1..], counts[1..]), Rank(w[1..], counts[1..]);
      DigitAndRest(Radix(counts[0]), v[0], k, w[0], l);
      RankInjective(v[1..], w[1..], counts[1..]);
      assert v == [v[0]] + v[1..] && w == [w[0]] + w[1..];
    }
  }

  function Zeros(n: nat): (z: Vector)
    ensures |z| == n && forall i | 0 <= i < n :: z[i] == 0
  {
    if n == 0 then [] else [0] + Zeros(n - 1)
  }

  lemma {:induction false} RankZeros(counts: seq<int>)
    ensures Rank(Zeros(|counts|), counts) == 0
  {
    if counts != [] {
      assert Zeros(|counts|)[1..] == Zeros(|counts| - 1);
      RankZeros(counts[1..]);
    }
  }

  /** The digits below `i` are at their largest. */
  predicate FullBelow(v: Vector, counts: seq<int>, i: nat)
    requires |v| == |counts| && i <= |v|
  {
    forall j | 0 <= j < i :: v[j] == Radix(counts[j]) - 1
  }

  /** The vector after a carry out of the digits below `i` into digit `i`. */
  function Carried(v: Vector, i: nat): Vector
    requires i < |v|
  {
    Zeros(i) + [v[i] + 1] + v[i + 1..]
  }

  /** A carry adds one. */
  lemma {:induction false} CarryAddsOne(v: Vector, counts: seq<int>, i: nat)
    requires |v| == |counts| && i < |v| && FullBelow(v, counts, i)
    ensures Rank(Carried(v, i), counts) == Rank(v, counts) + 1
  {
    var w := Carried(v, i);
    if i == 0 {
      assert w[1..] == v[1..];
    } else {
      assert w[0] == 0;
      assert w[1..] == Carried(v[1..], i - 1);
      CarryAddsOne(v[1..], counts[1..], i - 1);
      var r, k := Radix(counts[0]), Rank(v[1..], counts[1..]);
      assert r * (k + 1) == r * k + r;
    }
  }

  /** When every digit is at its largest, the last vector has been reached. */
  lemma {:induction false} FullIsLast(v: Vector, counts: seq<int>)
    requires |v| == |counts| && FullBelow(v, counts, |v|)
    ensures Rank(v, counts) == Product(counts) - 1
  {
    if v != [] {
      assert FullBelow(v[1..], counts[1..], |v| - 1) by {
        assert forall j | 0 <= j < |v| - 1 :: v[1..][j] == v[j + 1] && counts[1..][j] == counts[j + 1];
      }
      FullIsLast(v[1..], counts[1..]);
      var r, p := Radix(counts[0]), Product(counts[1..]);
      assert r * (p - 1) == r * p - r;
    }
  }

  /** The k-th yielded vector is the numeral of k; as many are yielded as there are numerals. */
  ghost predicate Counts(out: seq<Vector>, counts: seq<int>) {
    forall k | 0 <= k < |out| :: InRange(out[k], counts) && Rank(out[k], counts) == k
  }

  lemma CarryStaysInRange(v: Vector, counts: seq<int>, i: nat)
    requires InRange(v, counts) && i < |v| && v[i] + 1 < Radix(counts[i])
    ensures InRange(Carried(v, i), counts)
  {
  }

  /** The for loop with its else branch: one is added in place, and `overflow` tells that there was
      no vector left. */
  method CarryLoop(ret: array<int>, counts: seq<int>) returns (overflow: bool)
    requires InRange(ret[..], counts)
    modifies ret
    ensures overflow ==> Rank(old(ret[..]), counts) == Product(counts) - 1
    ensures !overflow ==> InRange(ret[..], counts) && Rank(ret[..], counts) == Rank(old(ret[..]), counts) + 1
  {
    hide Rank, Product, Zeros, Carried;
    ghost var v := ret[..];
    for i := 0 to |counts|
      invariant FullBelow(v, counts, i)
      invariant forall j | 0 <= j < i :: ret[j] == 0
      invariant forall j | i <= j < |v| :: ret[j] == v[j]
    {
      ret[i] := ret[i] + 1;
      if ret[i] >= counts[i] {
        ret[i] := 0;
      } else {
        IsCarried(ret[..], v, i);
        CarryStaysInRange(v, counts, i);
        CarryAddsOne(v, counts, i);
        return false;
      }
    }
    FullIsLast(v, counts);
    return true;
  }

  lemma IsCarried(w: Vector, v: Vector, i: nat)
    requires |w| == |v| && i < |v| && w[i] == v[i] + 1
    requires forall j | 0 <= j < i :: w[j] == 0
    requires forall j | i < j < |v| :: w[j] == v[j]
    ensures w == Carried(v, i)
  {
  }

  method GetAllCombinations(counts: seq<int>) returns (out: seq<Vector>)
    ensures |out| == Product(counts) && Counts(out, counts)
  {
    out := [];
    if |counts| == 0 {
      out := out + [[]];
      return;
    }
    hide Rank, Product, InRange;
    var ret := new int[|counts|](i => 0);
    FirstVector(ret[..], counts);
    while true
      invariant InRange(ret[..], counts) && Rank(ret[..], counts) == |out|
      invariant Counts(out, counts)
      invariant |out| < Product(counts)
      decreases Product(counts) - |out|
    {
      ghost var v := ret[..];
      out := out + [ret[..]];
      var nowX := ret[0];
      if nowX + 1 < counts[0] {
        FastStep(v, counts);
        ret[0] := nowX + 1;
        assert ret[..] == v[0 := nowX + 1];
        continue;
      }
      var overflow := CarryLoop(ret, counts);
      if overflow {
        return;
      }
      RankBound(ret[..], counts);
    }
  }

  lemma FirstVector(v: Vector, counts: seq<int>)
    requires |v| == |counts| && forall i | 0 <= i < |v| :: v[i] == 0
    ensures InRange(v, counts) && Rank(v, counts) == 0
  {
    assert v == Zeros(|counts|);
    RankZeros(counts);
  }

  /** The fast path of the first digit does what the carry loop would do. */
  lemma FastStep(v: Vector, counts: seq<int>)
    requires InRange(v, counts) && v != [] && v[0] + 1 < counts[0]
    ensures var w := v[0 := v[0] + 1];
            w == Carried(v, 0) && InRange(w, counts) && Rank(w, counts) == Rank(v, counts) + 1 < Product(counts)
  {
    var w := v[0 := v[0] + 1];
    assert w == Carried(v, 0);
    CarryAddsOne(v, counts, 0);
    RankBound(w, counts);
  }

  /** Each vector in range is yielded exactly once, at the place its numeral says. */
  lemma EachVectorOnce(out: seq<Vector>, counts: seq<int>, v: Vector)
    requires |out| == Product(counts) && Counts(out, counts) && InRange(v, counts)
    ensures 0 <= Rank(v, counts) < |out|
    ensures forall k | 0 <= k < |out| :: out[k] == v <==> k == Rank(v, counts)
  {
    RankBound(v, counts);
    RankInjective(v, out[Rank(v, counts)], counts);
  }

  /** The digits of the k-th vector, by division. */
  lemma FirstDigit(out: seq<Vector>, counts: seq<int>, k: nat)
    requires Counts(out, counts) && k < |out| && counts != []
    ensures out[k][0] == k % Radix(counts[0]) && Rank(out[k][1..], counts[1..]) == k / Radix(counts[0])
  {
    var r := Radix(counts[0]);
    assert k == (k % r) + r * (k / r);
    DigitAndRest(r, out[k][0], Rank(out[k][1..], counts[1..]), k % r, k / r);
  }

  predicate WithinCounts(v: Vector, counts: seq<int>) {
    |v| == |counts| && forall i | 0 <= i < |v| :: 0 <= v[i] < counts[i]
  }

  /** The result is what the documentation calls all combinations, every vector below the counts,
      exactly when no count is zero or negative; otherwise it holds one that is not. */
  lemma AllCombinationsIff(out: seq<Vector>, counts: seq<int>)
    requires |out| == Product(counts) && Counts(out, counts)
    ensures (forall v: Vector :: v in out <==> WithinCounts(v, counts)) <==>
            (forall i | 0 <= i < |counts| :: counts[i] >= 1)
  {
    if forall i | 0 <= i < |counts| :: counts[i] >= 1 {
      forall v: Vector
        ensures v in out <==> WithinCounts(v, counts)
      {
        assert WithinCounts(v, counts) <==> InRange(v, counts);
        if InRange(v, counts) {
          EachVectorOnce(out, counts, v);
          assert out[Rank(v, counts)] == v;
        }
      }
    } else {
      var i :| 0 <= i < |counts| && counts[i] < 1;
      assert out[0] in out;
      assert !(0 <= out[0][i] < counts[i]);
    }
  }
}
