/** A 32-bit word built from equally wide fields, by or-ing shifted entries or by summing them. */
module PackedWords {
  import opened Bits

  const STORAGE_BITS: nat := 32

  /** The packing loop: entry `j` shifted to field `j` and or-ed in. */
  function OrWord(xs: seq<nat>, w: nat, n: nat): nat
    requires n <= |xs|
  {
    if n == 0 then 0 else BitOr(OrWord(xs, w, n - 1), Shl32(xs[n - 1], w * (n - 1)))
  }

  /** The tensor form: shifted entries summed up. */
  function SumWord(xs: seq<nat>, w: nat, n: nat): nat
    requires n <= |xs|
  {
    if n == 0 then 0 else SumWord(xs, w, n - 1) + xs[n - 1] * Pow2(w * (n - 1))
  }

  predicate Fits(xs: seq<nat>, w: nat) {
    forall i | 0 <= i < |xs| :: xs[i] < Pow2(w)
  }

  lemma Pow2Of32()
    ensures Pow2(32) == WORD
  {
    assert Pow2(4) == 16;
    Pow2Add(4, 4);
    Pow2Add(8, 8);
    Pow2Add(16, 16);
  }

  lemma {:induction false} Pow2Monotone(a: nat, b: nat)
    requires a <= b
    ensures Pow2(a) <= Pow2(b)
  {
    if a < b {
      Pow2Monotone(a, b - 1);
    }
  }

  lemma FieldWidth(w: nat, n: nat)
    requires n > 0
    ensures w * n == w * (n - 1) + w
    ensures Pow2(w * n) == Pow2(w * (n - 1)) * Pow2(w)
  {
    hide Pow2;
    MulStep(w, n);
    Pow2Add(w * (n - 1), w);
  }

  lemma MulStep(w: nat, n: nat)
    requires n > 0
    ensures w * n == w * (n - 1) + w && w * (n - 1) >= 0
  {
    MulLe(w, 0, n - 1);
  }

  /** Adding one more field stays below the next power. */
  lemma PlaceField(a: nat, x: nat, p: nat, q: nat)
    requires a < p && x < q
    ensures a + x * p < p * q
  {
    MulLe(p, x + 1, q);
    assert p * (x + 1) == x * p + p;
  }

  lemma {:induction false} SumBound(xs: seq<nat>, w: nat, n: nat)
    requires n <= |xs| && Fits(xs, w)
    ensures SumWord(xs, w, n) < Pow2(w * n)
  {
    if n > 0 {
      SumBound(xs, w, n - 1);
      FieldWidth(w, n);
      PlaceField(SumWord(xs, w, n - 1), xs[n - 1], Pow2(w * (n - 1)), Pow2(w));
    }
  }

  /** A field shifted inside the word loses nothing. */
  lemma ShlFits(x: nat, w: nat, n: nat)
    requires n > 0 && x < Pow2(w) && w * n <= 32
    ensures Shl32(x, w * (n - 1)) == x * Pow2(w * (n - 1))
  {
    FieldWidth(w, n);
    PlaceField(0, x, Pow2(w * (n - 1)), Pow2(w));
    Pow2Monotone(w * n, 32);
    Pow2Of32();
    ModSmall(x * Pow2(w * (n - 1)), WORD);
  }

  lemma ModSmall(x: nat, d: nat)
    requires x < d
    ensures x % d == x
  {
    DivModUnique(x, d, 0, x);
  }

  lemma WidthMonotone(w: nat, m: nat, n: nat)
    requires m <= n
    ensures w * m <= w * n
  {
    MulLe(w, m, n);
  }

  /** Or-ing fields that fit is the same as summing them. */
  lemma {:induction false} OrIsSumWord(xs: seq<nat>, w: nat, n: nat)
    requires n <= |xs| && Fits(xs, w) && w * n <= 32
    ensures OrWord(xs, w, n) == SumWord(xs, w, n)
  {
    if n > 0 {
      WidthMonotone(w, n - 1, n);
      OrIsSumWord(xs, w, n - 1);
      ShlFits(xs[n - 1], w, n);
      SumBound(xs, w, n - 1);
      OrIsSum(SumWord(xs, w, n - 1), xs[n - 1], w * (n - 1));
    }
  }

  // ----- reading fields back -----

  lemma MaskIgnores(x: int, m: int, w: nat, v: nat)
    requires v >= w
    ensures Mask(x + m * Pow2(v), w) == Mask(x, w)
  {
    Pow2Add(v - w, w);
    MulAssoc(m, Pow2(v - w), Pow2(w));
    DivMul(x, Pow2(w), m * Pow2(v - w));
  }

  lemma ShrIgnores(x: int, m: int, s: nat, v: nat)
    requires v >= s
    ensures Shr(x + m * Pow2(v), s) == Shr(x, s) + m * Pow2(v - s)
  {
    Pow2Add(v - s, s);
    MulAssoc(m, Pow2(v - s), Pow2(s));
    DivMul(x, Pow2(s), m * Pow2(v - s));
  }

  /** What lies at or above the end of field `k` does not change it. */
  lemma FieldIgnores(x: int, m: int, w: nat, k: nat, v: nat)
    requires v >= w * k + w
    ensures Field(x + m * Pow2(v), w, k) == Field(x, w, k)
  {
    hide Pow2, Shr, Mask;
    var s := w * k;
    ShrIgnores(x, m, s, v);
    MaskIgnores(Shr(x, s), m, w, v - s);
  }

  lemma TopField(a: nat, x: nat, w: nat, k: nat)
    requires a < Pow2(w * k) && x < Pow2(w)
    ensures Field(a + x * Pow2(w * k), w, k) == x
  {
    DivModUnique(a + x * Pow2(w * k), Pow2(w * k), x, a);
    ModSmall(x, Pow2(w));
  }

  lemma {:induction false} FieldOfSum(xs: seq<nat>, w: nat, n: nat, k: nat)
    requires k < n <= |xs| && Fits(xs, w)
    ensures Field(SumWord(xs, w, n), w, k) == xs[k]
  {
    hide Field;
    if k == n - 1 {
      SumBound(xs, w, k);
      TopField(SumWord(xs, w, k), xs[k], w, k);
    } else {
      FieldOfSum(xs, w, n - 1, k);
      WidthMonotone(w, k + 1, n - 1);
      FieldWidth(w, k + 1);
      FieldIgnores(SumWord(xs, w, n - 1), xs[n - 1], w, k, w * (n - 1));
    }
  }

  /** Reinterpreting a word as signed keeps every field that lies inside the word. */
  lemma FieldOfInt32(x: int, w: nat, k: nat)
    requires w * k + w <= 32
    ensures Field(ToInt32(x), w, k) == Field(x, w, k)
  {
    hide Field;
    Pow2Of32();
    var u := x % WORD;
    assert x == u + (x / WORD) * WORD;
    FieldIgnores(u, x / WORD, w, k, 32);
    FieldIgnores(u, -1, w, k, 32);
    assert u + -1 * Pow2(32) == u - WORD;
  }

  /** Round trip: every entry that fits its field is read back from the packed signed word. */
  lemma UnpackWord(xs: seq<nat>, w: nat, n: nat, k: nat)
    requires k < n <= |xs| && Fits(xs, w) && w * n <= 32
    ensures Field(ToInt32(OrWord(xs, w, n)), w, k) == xs[k]
    ensures Field(ToInt32(SumWord(xs, w, n)), w, k) == xs[k]
  {
    hide Field, ToInt32;
    WidthMonotone(w, k + 1, n);
    FieldWidth(w, k + 1);
    OrIsSumWord(xs, w, n);
    FieldOfInt32(SumWord(xs, w, n), w, k);
    FieldOfSum(xs, w, n, k);
  }

  // ----- entries that do not fit -----

  lemma FieldOfShl(x: nat, w: nat, k: nat)
    requires w * k + w <= 32
    ensures Field(Shl32(x, w * k), w, k) == Mask(x, w)
  {
    hide Field;
    var y := x * Pow2(w * k);
    Pow2Of32();
    assert y == y % WORD + (y / WORD) * WORD;
    FieldIgnores(y % WORD, y / WORD, w, k, 32);
    ShiftBack(x, w, k);
  }

  lemma ShiftBack(x: nat, w: nat, k: nat)
    ensures Field(x * Pow2(w * k), w, k) == Mask(x, w)
  {
    DivModUnique(x * Pow2(w * k), Pow2(w * k), x, 0);
  }

  /** An entry whose low bits are all ones fills its field with ones, whatever else is or-ed in. */
  lemma {:induction false} OnesStay(xs: seq<nat>, w: nat, n: nat, k: nat)
    requires k < n <= |xs| && w * n <= 32 && Mask(xs[k], w) == Pow2(w) - 1
    ensures Field(OrWord(xs, w, n), w, k) == Pow2(w) - 1
  {
    hide Shl32, BitOr, Mask, Pow2;
    WidthMonotone(w, k + 1, n);
    FieldWidth(w, k + 1);
    var a, b := OrWord(xs, w, n - 1), Shl32(xs[n - 1], w * (n - 1));
    FieldOr(a, b, w, k);
    if k == n - 1 {
      FieldOfShl(xs[k], w, k);
      OrOnes(Field(a, w, k), w);
    } else {
      WidthMonotone(w, n - 1, n);
      OnesStay(xs, w, n - 1, k);
      OrOnes(Field(b, w, k), w);
    }
  }

  // ----- what a shifted word of ones does to the fields above it -----

  predicate AllOnes(x: nat) {
    x == WORD - 1
  }

  /** Nothing reaches a lower field. */
  lemma NothingBelow(x: nat, w: nat, j: nat, k: nat)
    requires k < j && w * k + w <= 32
    ensures Field(Shl32(x, w * j), w, k) == 0
  {
    hide Field;
    var y := x * Pow2(w * j);
    Pow2Of32();
    assert y == y % WORD + (y / WORD) * WORD;
    FieldIgnores(y % WORD, y / WORD, w, k, 32);
    LowerFieldEmpty(x, w, j, k);
  }

  lemma LowerFieldEmpty(x: nat, w: nat, j: nat, k: nat)
    requires k < j
    ensures Field(x * Pow2(w * j), w, k) == 0
  {
    hide Pow2;
    var i := j - k - 1;
    WidthSum(w, i, k + 1);
    FieldWidth(w, k + 1);
    Pow2Add(w * i, w * (k + 1));
    MultipleAbove(x, Pow2(w * i), Pow2(w), Pow2(w * k));
  }

  /** A multiple of two factors, divided by one, leaves nothing modulo the other. */
  lemma MultipleAbove(x: nat, a: nat, b: nat, c: nat)
    requires b > 0 && c > 0
    ensures x * (a * (c * b)) / c % b == 0
  {
    var z := x * a;
    assert x * (a * (c * b)) == z * b * c by {
      MulAssoc(x, a, c * b);
      MulAssoc(z, b, c);
      assert c * b == b * c;
    }
    DivModUnique(x * (a * (c * b)), c, z * b, 0);
    DivModUnique(z * b, b, z, 0);
  }

  lemma WidthSum(w: nat, a: nat, b: nat)
    ensures w * (a + b) == w * a + w * b
  {
  }

  /** A field that fits its place reaches no higher one. */
  lemma NothingAbove(x: nat, w: nat, j: nat, k: nat)
    requires j < k && x < Pow2(w) && w * k <= 32
    ensures Field(Shl32(x, w * j), w, k) == 0
  {
    hide Pow2, Shl32, Field;
    WidthMonotone(w, j + 1, k);
    ShlFits(x, w, j + 1);
    FieldWidth(w, j + 1);
    PlaceField(0, x, Pow2(w * j), Pow2(w));
    Pow2Monotone(w * (j + 1), w * k);
    BelowField(x * Pow2(w * j), w, k);
  }

  lemma BelowField(y: nat, w: nat, k: nat)
    requires y < Pow2(w * k)
    ensures Field(y, w, k) == 0
  {
    hide Pow2;
    DivModUnique(y, Pow2(w * k), 0, y);
    DivModUnique(0, Pow2(w), 0, 0);
  }

  lemma OnesShifted(s: nat)
    requires s <= 32
    ensures Shl32(WORD - 1, s) == WORD - Pow2(s)
  {
    Pow2Of32();
    Pow2Monotone(s, 32);
    var p := Pow2(s);
    assert (WORD - 1) * p == (p - 1) * WORD + (WORD - p);
    DivModUnique((WORD - 1) * p, WORD, p - 1, WORD - p);
  }

  /** A word of ones fills every field at and above its place. */
  lemma OnesAbove(w: nat, j: nat, k: nat)
    requires j <= k && w * k + w <= 32
    ensures Field(Shl32(WORD - 1, w * j), w, k) == Pow2(w) - 1
  {
    hide Pow2, Shl32;
    WidthMonotone(w, j, k);
    OnesShifted(w * j);
    Pow2Of32();
    Pow2Monotone(w * j, w * k);
    Pow2Add(w * k, 32 - w * k);
    Pow2Add(w, 32 - w * k - w);
    OnesDivided(Pow2(w * j), Pow2(w * k), Pow2(w), Pow2(32 - w * k - w));
  }

  /** From c * (b * e) take away at most c, divide by c, and look at what is left modulo b. */
  lemma OnesDivided(s: nat, c: nat, b: nat, e: nat)
    requires 0 < s <= c && b > 0 && e > 0
    ensures (c * (b * e) - s) / c % b == b - 1
  {
    var q := b * e;
    assert (q - 1) * c + (c - s) == c * q - s;
    DivModUnique(c * q - s, c, q - 1, c - s);
    assert (e - 1) * b + (b - 1) == q - 1;
    DivModUnique(q - 1, b, e - 1, b - 1);
  }

  ghost predicate OnesUpTo(xs: seq<nat>, n: nat, k: nat) {
    exists j :: 0 <= j < |xs| && j < n && j <= k && AllOnes(xs[j])
  }

  /** Every field of a word into which fitting entries and words of ones are or-ed: ones if a word of ones
      stands at its place or below, and otherwise its own entry. */
  lemma {:induction false} FieldOfWord(xs: seq<nat>, w: nat, n: nat, k: nat)
    requires n <= |xs| && w * n <= 32 && w * k + w <= 32
    requires forall j | 0 <= j < |xs| :: xs[j] < Pow2(w) || AllOnes(xs[j])
    ensures Field(OrWord(xs, w, n), w, k) ==
            if OnesUpTo(xs, n, k) then Pow2(w) - 1 else if k < n then xs[k] else 0
    decreases n
  {
    hide Field, Shl32, BitOr, Mask, Pow2, AllOnes;
    if n == 0 {
      EmptyField(w, k);
    } else {
      MulStep(w, n);
      FieldOfWord(xs, w, n - 1, k);
      var a, b := OrWord(xs, w, n - 1), Shl32(xs[n - 1], w * (n - 1));
      FieldOr(a, b, w, k);
      LastContribution(xs, w, n, k);
      OnesUpToStep(xs, n, k);
      OrZero(Field(a, w, k));
      OrZero(Field(b, w, k));
      FieldFits(a, w, k);
      FieldFits(b, w, k);
      OrOnes(Field(a, w, k), w);
      OrOnes(Field(b, w, k), w);
    }
  }

  lemma EmptyField(w: nat, k: nat)
    ensures Field(0, w, k) == 0
  {
    Pow2Monotone(0, w * k);
    DivModUnique(0, Pow2(w * k), 0, 0);
    DivModUnique(0, Pow2(w), 0, 0);
  }

  lemma FieldFits(x: nat, w: nat, k: nat)
    ensures Field(x, w, k) < Pow2(w)
  {
  }

  lemma OnesUpToStep(xs: seq<nat>, n: nat, k: nat)
    requires 0 < n <= |xs|
    ensures OnesUpTo(xs, n, k) <==> OnesUpTo(xs, n - 1, k) || (n - 1 <= k && AllOnes(xs[n - 1]))
  {
    hide AllOnes;
    if n - 1 <= k && AllOnes(xs[n - 1]) {
      assert OnesUpTo(xs, n, k);
    }
  }

  lemma LastContribution(xs: seq<nat>, w: nat, n: nat, k: nat)
    requires 0 < n <= |xs| && w * n <= 32 && w * k + w <= 32
    requires xs[n - 1] < Pow2(w) || AllOnes(xs[n - 1])
    ensures Field(Shl32(xs[n - 1], w * (n - 1)), w, k) ==
            if n - 1 > k then 0
            else if AllOnes(xs[n - 1]) then Pow2(w) - 1
            else if n - 1 == k then xs[k]
            else 0
  {
    hide Field, Shl32, Pow2;
    var x := xs[n - 1];
    if n - 1 > k {
      NothingBelow(x, w, n - 1, k);
    } else if AllOnes(x) {
      OnesAbove(w, n - 1, k);
    } else if n - 1 == k {
      FieldOfShl(x, w, k);
      MaskFits(x, w);
    } else {
      NothingAbove(x, w, n - 1, k);
    }
  }

  lemma MaskFits(x: nat, w: nat)
    requires x < Pow2(w)
    ensures Mask(x, w) == x
  {
    ModSmall(x, Pow2(w));
  }

  // ----- the value of a word -----

  /** The number whose digits are `xs`, the lowest first. */
  function Positional(xs: seq<int>, base: nat): int {
    if xs == [] then 0 else xs[0] + base * Positional(xs[1..], base)
  }

  /** A signed 32-bit number; where all entries are digits it is the number they spell, up to multiples of 2
      to the power of 32. */
  predicate IsWordOf(word: int, xs: seq<int>, base: nat) {
    && -0x8000_0000 <= word < 0x8000_0000
    && ((forall j | 0 <= j < |xs| :: 0 <= xs[j] < base) ==> (word - Positional(xs, base)) % 0x1_0000_0000 == 0)
  }

  lemma {:induction false} PositionalPush(xs: seq<int>, x: int, w: nat)
    ensures Positional(xs + [x], Pow2(w)) == Positional(xs, Pow2(w)) + x * Pow2(w * |xs|)
  {
    hide Pow2;
    if xs == [] {
      assert [x][1..] == [] && [] + [x] == [x];
      assert Pow2(w * 0) == 1 by { Pow2Zero(); }
      assert Positional([x], Pow2(w)) == x + Pow2(w) * Positional([], Pow2(w));
    } else {
      assert (xs + [x])[1..] == xs[1..] + [x];
      PositionalPush(xs[1..], x, w);
      FieldWidth(w, |xs|);
      Distribute(Pow2(w), Positional(xs[1..], Pow2(w)), x, Pow2(w * (|xs| - 1)));
    }
  }

  lemma Pow2Zero()
    ensures Pow2(0) == 1
  {
  }

  lemma Distribute(b: int, p: int, x: int, q: int)
    ensures b * (p + x * q) == b * p + x * (q * b)
  {
    MulAssoc(b, x, q);
    MulAssoc(x, b, q);
  }

  lemma {:induction false} SumIsPositional(xs: seq<nat>, w: nat, n: nat)
    requires n <= |xs|
    ensures SumWord(xs, w, n) == Positional(xs[..n], Pow2(w))
  {
    if n > 0 {
      hide Pow2, Positional;
      SumIsPositional(xs, w, n - 1);
      PositionalPush(xs[..n - 1], xs[n - 1], w);
      assert xs[..n - 1] + [xs[n - 1]] == xs[..n];
    }
  }

  /** The word that or-ing makes of the entries, reinterpreted as signed. */
  lemma SignedWord(xs: seq<nat>, ys: seq<int>, w: nat, base: nat)
    requires |xs| == |ys| && w * |xs| <= 32 && base == Pow2(w)
    requires (forall j | 0 <= j < |ys| :: 0 <= ys[j] < base) ==> forall j | 0 <= j < |ys| :: xs[j] == ys[j]
    ensures IsWordOf(ToInt32(OrWord(xs, w, |xs|)), ys, base)
  {
    hide ToInt32, OrWord, Positional, SumWord;
    ToInt32Is(OrWord(xs, w, |xs|));
    if forall j | 0 <= j < |ys| :: 0 <= ys[j] < base {
      assert xs == ys;
      OrIsSumWord(xs, w, |xs|);
      SumIsPositional(xs, w, |xs|);
      assert xs[..|xs|] == xs;
    }
  }
}
