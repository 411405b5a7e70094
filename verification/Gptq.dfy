/** GPTQ packing: `gptq_qweight_pack` packs groups of rows, `gptq_qzeros_pack` groups of columns,
    into 32-bit words. */
module Gptq {
  import opened Bits
  import opened PackedWords

  predicate Supported(wBit: nat) {
    wBit == 4 || wBit == 8
  }

  /** How many entries a word holds. */
  function PerWord(wBit: nat): nat
    requires Supported(wBit)
  {
    32 / wBit
  }

  /** The clamp and offset that precede packing: a signed entry becomes an unsigned field. */
  function ToField(x: int, wBit: nat): int
    requires Supported(wBit)
  {
    var half: int := Pow2(wBit - 1);
    (if x < 0 - half then 0 - half else if x > half - 1 then half - 1 else x) + half
  }

  lemma ToFieldFits(x: int, wBit: nat)
    requires Supported(wBit)
    ensures 0 <= ToField(x, wBit) < Pow2(wBit)
    ensures var half := if wBit == 4 then 8 else 128;
            ToField(x, wBit) == if x < -half then 0 else if x >= half then 2 * half - 1 else x + half
  {
    PowersOfWidths();
  }

  lemma PowersOfWidths()
    ensures Pow2(3) == 8 && Pow2(4) == 16 && Pow2(7) == 128 && Pow2(8) == 256
  {
    Pow2Add(4, 3);
    Pow2Add(4, 4);
  }

  function ColumnGroup(m: array2<int>, i: nat, n: nat, c: nat): (xs: seq<nat>)
    requires i + n <= m.Length0 && c < m.Length1
    reads m
    ensures |xs| == n && forall j | 0 <= j < n :: xs[j] == ToUint32(m[i + j, c])
  {
    if n == 0 then [] else ColumnGroup(m, i, n - 1, c) + [ToUint32(m[i + n - 1, c])]
  }

  function RowGroup(m: array2<int>, r: nat, i: nat, n: nat): (xs: seq<nat>)
    requires r < m.Length0 && i + n <= m.Length1
    reads m
    ensures |xs| == n && forall j | 0 <= j < n :: xs[j] == ToUint32(m[r, i + j])
  {
    if n == 0 then [] else RowGroup(m, r, i, n - 1) + [ToUint32(m[r, i + n - 1])]
  }

  /** Entries of a column, from row `i` on. */
  predicate InColumn(m: array2<int>, i: nat, c: nat, xs: seq<int>)
    reads m
  {
    i + |xs| <= m.Length0 && c < m.Length1 && forall j | 0 <= j < |xs| :: xs[j] == m[i + j, c]
  }

  /** Entries of a row, from column `i` on. */
  predicate InRow(m: array2<int>, r: nat, i: nat, xs: seq<int>)
    reads m
  {
    r < m.Length0 && i + |xs| <= m.Length1 && forall j | 0 <= j < |xs| :: xs[j] == m[r, i + j]
  }

  /** A word of entries is the number they spell with base 16 or 256. */
  lemma WordOfEntries(us: seq<nat>, xs: seq<int>, wBit: nat)
    requires Supported(wBit) && |us| == |xs| == 32 / wBit
    requires forall j | 0 <= j < |xs| :: us[j] == ToUint32(xs[j])
    ensures IsWordOf(ToInt32(OrWord(us, wBit, |us|)), xs, if wBit == 4 then 16 else 256)
  {
    hide ToInt32, OrWord, ToUint32, Pow2;
    PowersOfWidths();
    if forall j | 0 <= j < |xs| :: 0 <= xs[j] < Pow2(wBit) {
      forall j | 0 <= j < |xs|
        ensures us[j] == xs[j]
      {
        InRangeIsUint32(xs[j], wBit);
      }
    }
    SignedWord(us, xs, wBit, Pow2(wBit));
  }

  /** Word `k` of a packed side covers entries that exist. */
  lemma GroupInside(n: nat, wBit: nat, k: nat)
    requires Supported(wBit) && k < n / STORAGE_BITS * wBit
    ensures k * PerWord(wBit) + PerWord(wBit) <= n
  {
  }

  // ----- weights: groups of rows -----

  /** Row `r` of the packed weights, before it is made signed. */
  ghost predicate RowPacked(iweight: array2<int>, words: array2<int>, r: nat, wBit: nat)
    requires Supported(wBit) && r < words.Length0 && words.Length1 == iweight.Length1
    requires words.Length0 <= iweight.Length0 / STORAGE_BITS * wBit
    reads iweight, words
  {
    var per := PerWord(wBit);
    GroupInside(iweight.Length0, wBit, r);
    forall c | 0 <= c < words.Length1 :: words[r, c] == OrWord(ColumnGroup(iweight, r * per, per, c), wBit, per)
  }

  /** The inner loop: the entries of one group of rows are or-ed into one row of words. */
  method PackRow(iweight: array2<int>, words: array2<int>, row: nat, i: nat, wBit: nat)
    requires Supported(wBit) && row < words.Length0 && words.Length1 == iweight.Length1
    requires words.Length0 <= iweight.Length0 / STORAGE_BITS * wBit && i == row * PerWord(wBit)
    requires words != iweight
    requires forall c | 0 <= c < words.Length1 :: words[row, c] == 0
    modifies words
    ensures RowPacked(iweight, words, row, wBit)
    ensures forall r, c | 0 <= r < words.Length0 && 0 <= c < words.Length1 && r != row ::
              words[r, c] == old(words[r, c])
  {
    hide BitOr, Shl32, ToUint32;
    var per := PerWord(wBit);
    GroupInside(iweight.Length0, wBit, row);
    for j := i to i + per
      invariant forall c | 0 <= c < words.Length1 ::
                words[row, c] == OrWord(ColumnGroup(iweight, i, per, c), wBit, j - i)
      invariant forall r, c | 0 <= r < words.Length0 && 0 <= c < words.Length1 && r != row ::
                  words[r, c] == old(words[r, c])
    {
      forall c | 0 <= c < words.Length1 {
        words[row, c] := BitOr(words[row, c], Shl32(ToUint32(iweight[j, c]), wBit * (j - i)));
      }
    }
  }

  method GptqQweightPack(iweight: array2<int>, wBit: nat) returns (qweight: array2<int>)
    requires Supported(wBit)
    ensures qweight.Length0 == iweight.Length0 / 32 * wBit && qweight.Length1 == iweight.Length1
    ensures forall r, c | 0 <= r < qweight.Length0 && 0 <= c < qweight.Length1 ::
              && r * PerWord(wBit) + PerWord(wBit) <= iweight.Length0
              && qweight[r, c] ==
                 ToInt32(OrWord(ColumnGroup(iweight, r * PerWord(wBit), PerWord(wBit), c), wBit, PerWord(wBit)))
    ensures forall r: nat, c: nat, xs |
              r < qweight.Length0 && |xs| == 32 / wBit && InColumn(iweight, r * |xs|, c, xs) ::
              IsWordOf(qweight[r, c], xs, if wBit == 4 then 16 else 256)
  {
    hide OrWord, ToUint32, ToInt32, ColumnGroup, IsWordOf;
    var per := PerWord(wBit);
    var rows, cols := iweight.Length0 / STORAGE_BITS * wBit, iweight.Length1;
    var words := new int[rows, cols]((r, c) => 0);
    var i, row := 0, 0;
    while row < rows
      invariant row <= rows && i == row * per
      invariant fresh(words)
      invariant forall r | 0 <= r < row :: RowPacked(iweight, words, r, wBit)
      invariant forall r, c | row <= r < rows && 0 <= c < cols :: words[r, c] == 0
    {
      label before:
      PackRow(iweight, words, row, i, wBit);
      forall r | 0 <= r < row
        ensures RowPacked(iweight, words, r, wBit)
      {
        assert old@before(RowPacked(iweight, words, r, wBit));
        GroupInside(iweight.Length0, wBit, r);
      }
      i := i + per;
      row := row + 1;
    }
    qweight := new int[rows, cols]((r, c) requires 0 <= r < rows && 0 <= c < cols reads words => ToInt32(words[r, c]));
    forall r, c | 0 <= r < rows && 0 <= c < cols
      ensures r * per + per <= iweight.Length0
      ensures qweight[r, c] == ToInt32(OrWord(ColumnGroup(iweight, r * per, per, c), wBit, per))
    {
      GroupInside(iweight.Length0, wBit, r);
      assert RowPacked(iweight, words, r, wBit);
    }
    forall r: nat, c: nat, xs | r < rows && |xs| == 32 / wBit && InColumn(iweight, r * |xs|, c, xs)
      ensures IsWordOf(qweight[r, c], xs, if wBit == 4 then 16 else 256)
    {
      ColumnGroupIs(iweight, r * |xs|, c, xs);
      WordOfEntries(ColumnGroup(iweight, r * |xs|, |xs|, c), xs, wBit);
    }
  }

  lemma ColumnGroupIs(m: array2<int>, i: nat, c: nat, xs: seq<int>)
    requires InColumn(m, i, c, xs)
    ensures forall j | 0 <= j < |xs| :: ColumnGroup(m, i, |xs|, c)[j] == ToUint32(xs[j])
  {
    hide ToUint32;
  }

  lemma RowGroupIs(m: array2<int>, r: nat, i: nat, xs: seq<int>)
    requires InRow(m, r, i, xs)
    ensures forall j | 0 <= j < |xs| :: RowGroup(m, r, i, |xs|)[j] == ToUint32(xs[j])
  {
    hide ToUint32;
  }

  /** Where entry `k` of a side of length `n` is packed. */
  lemma EntryPlace(n: nat, wBit: nat, k: nat)
    requires Supported(wBit) && k < n / STORAGE_BITS * STORAGE_BITS
    ensures var per := PerWord(wBit);
            && k / per < n / STORAGE_BITS * wBit
            && (k / per) * per + k % per == k
            && wBit * per == 32
  {
  }

  lemma InRangeIsUint32(x: int, wBit: nat)
    requires Supported(wBit) && 0 <= x < Pow2(wBit)
    ensures ToUint32(x) == x
  {
    Pow2Monotone(wBit, 32);
    Pow2Of32();
  }

  /** Unpacking the weights gives back every entry of every complete group of 32 rows, provided the
      entries are the fields the clamp and offset make them. */
  lemma QweightRoundTrip(iweight: array2<int>, wBit: nat, qweight: array2<int>, k: nat, c: nat)
    requires Supported(wBit)
    requires qweight.Length0 == iweight.Length0 / STORAGE_BITS * wBit && qweight.Length1 == iweight.Length1
    requires forall r, c | 0 <= r < qweight.Length0 && 0 <= c < qweight.Length1 ::
               && r * PerWord(wBit) + PerWord(wBit) <= iweight.Length0
               && qweight[r, c] ==
                  ToInt32(OrWord(ColumnGroup(iweight, r * PerWord(wBit), PerWord(wBit), c), wBit, PerWord(wBit)))
    requires forall r, c | 0 <= r < iweight.Length0 && 0 <= c < iweight.Length1 :: 0 <= iweight[r, c] < Pow2(wBit)
    requires k < iweight.Length0 / 32 * 32 && c < iweight.Length1
    ensures k / PerWord(wBit) < qweight.Length0
    ensures Field(qweight[k / PerWord(wBit), c], wBit, k % PerWord(wBit)) == iweight[k, c]
  {
    hide Field, ToInt32, OrWord, Pow2, ToUint32;
    var per := PerWord(wBit);
    EntryPlace(iweight.Length0, wBit, k);
    var r, j := k / per, k % per;
    var xs := ColumnGroup(iweight, r * per, per, c);
    forall i | 0 <= i < per
      ensures xs[i] == iweight[r * per + i, c] && xs[i] < Pow2(wBit)
    {
      InRangeIsUint32(iweight[r * per + i, c], wBit);
    }
    UnpackWord(xs, wBit, per, j);
  }

  // ----- zero points: groups of columns -----

  ghost predicate ColPacked(zeros: array2<int>, words: array2<int>, col: nat, wBit: nat)
    requires Supported(wBit) && col < words.Length1 && words.Length0 == zeros.Length0
    requires words.Length1 <= zeros.Length1 / STORAGE_BITS * wBit
    reads zeros, words
  {
    var per := PerWord(wBit);
    GroupInside(zeros.Length1, wBit, col);
    forall r | 0 <= r < words.Length0 :: words[r, col] == OrWord(RowGroup(zeros, r, col * per, per), wBit, per)
  }

  method PackCol(zeros: array2<int>, words: array2<int>, col: nat, i: nat, wBit: nat)
    requires Supported(wBit) && col < words.Length1 && words.Length0 == zeros.Length0
    requires words.Length1 <= zeros.Length1 / STORAGE_BITS * wBit && i == col * PerWord(wBit)
    requires words != zeros
    requires forall r | 0 <= r < words.Length0 :: words[r, col] == 0
    modifies words
    ensures ColPacked(zeros, words, col, wBit)
    ensures forall r, c | 0 <= r < words.Length0 && 0 <= c < words.Length1 && c != col ::
              words[r, c] == old(words[r, c])
  {
    hide BitOr, Shl32, ToUint32;
    var per := PerWord(wBit);
    GroupInside(zeros.Length1, wBit, col);
    for j := i to i + per
      invariant forall r | 0 <= r < words.Length0 :: words[r, col] == OrWord(RowGroup(zeros, r, i, per), wBit, j - i)
      invariant forall r, c | 0 <= r < words.Length0 && 0 <= c < words.Length1 && c != col ::
                  words[r, c] == old(words[r, c])
    {
      forall r | 0 <= r < words.Length0 {
        words[r, col] := BitOr(words[r, col], Shl32(ToUint32(zeros[r, j]), wBit * (j - i)));
      }
    }
  }

  /** What the packed zero points hold: the decremented entries, as unsigned words. */
  ghost predicate ZerosPacked(zeros: array2<int>, qzeros: array2<int>, wBit: nat)
    requires Supported(wBit)
    reads zeros, qzeros
  {
    && qzeros.Length0 == zeros.Length0 && qzeros.Length1 == zeros.Length1 / STORAGE_BITS * wBit
    && forall r, c | 0 <= r < qzeros.Length0 && 0 <= c < qzeros.Length1 ::
         && c * PerWord(wBit) + PerWord(wBit) <= zeros.Length1
         && qzeros[r, c] == ToInt32(OrWord(RowGroup(zeros, r, c * PerWord(wBit), PerWord(wBit)), wBit, PerWord(wBit)))
  }

  /** The zero points are decremented in place, in the caller's tensor, and then packed. */
  method GptqQzerosPack(zeros: array2<int>, wBit: nat) returns (qzeros: array2<int>)
    requires Supported(wBit)
    modifies zeros
    ensures forall r, c | 0 <= r < zeros.Length0 && 0 <= c < zeros.Length1 :: zeros[r, c] == old(zeros[r, c]) - 1
    ensures fresh(qzeros) && ZerosPacked(zeros, qzeros, wBit)
    ensures qzeros.Length0 == zeros.Length0 && qzeros.Length1 == zeros.Length1 / 32 * wBit
    ensures forall r: nat, c: nat, xs | c < qzeros.Length1 && |xs| == 32 / wBit && InRow(zeros, r, c * |xs|, xs) ::
              IsWordOf(qzeros[r, c], xs, if wBit == 4 then 16 else 256)
  {
    hide OrWord, ToUint32, ToInt32, RowGroup, IsWordOf;
    forall r, c | 0 <= r < zeros.Length0 && 0 <= c < zeros.Length1 {
      zeros[r, c] := zeros[r, c] - 1;
    }
    var per := PerWord(wBit);
    var rows, cols := zeros.Length0, zeros.Length1 / STORAGE_BITS * wBit;
    var words := new int[rows, cols]((r, c) => 0);
    var i, col := 0, 0;
    label packing:
    while col < cols
      invariant col <= cols && i == col * per
      invariant fresh(words)
      invariant forall r, c | 0 <= r < zeros.Length0 && 0 <= c < zeros.Length1 :: zeros[r, c] == old(zeros[r, c]) - 1
      invariant forall c | 0 <= c < col :: ColPacked(zeros, words, c, wBit)
      invariant forall r, c | 0 <= r < rows && col <= c < cols :: words[r, c] == 0
    {
      label before:
      PackCol(zeros, words, col, i, wBit);
      forall c | 0 <= c < col
        ensures ColPacked(zeros, words, c, wBit)
      {
        assert old@before(ColPacked(zeros, words, c, wBit));
        GroupInside(zeros.Length1, wBit, c);
      }
      i := i + per;
      col := col + 1;
    }
    qzeros := new int[rows, cols]((r, c) requires 0 <= r < rows && 0 <= c < cols reads words => ToInt32(words[r, c]));
    forall r, c | 0 <= r < rows && 0 <= c < cols
      ensures c * per + per <= zeros.Length1
      ensures qzeros[r, c] == ToInt32(OrWord(RowGroup(zeros, r, c * per, per), wBit, per))
    {
      GroupInside(zeros.Length1, wBit, c);
      assert ColPacked(zeros, words, c, wBit);
    }
    ZeroWords(zeros, qzeros, wBit);
  }

  lemma ZeroWords(zeros: array2<int>, qzeros: array2<int>, wBit: nat)
    requires Supported(wBit) && ZerosPacked(zeros, qzeros, wBit)
    ensures forall r: nat, c: nat, xs | c < qzeros.Length1 && |xs| == 32 / wBit && InRow(zeros, r, c * |xs|, xs) ::
              IsWordOf(qzeros[r, c], xs, if wBit == 4 then 16 else 256)
  {
    hide OrWord, ToUint32, ToInt32, RowGroup, IsWordOf;
    forall r: nat, c: nat, xs | c < qzeros.Length1 && |xs| == 32 / wBit && InRow(zeros, r, c * |xs|, xs)
      ensures IsWordOf(qzeros[r, c], xs, if wBit == 4 then 16 else 256)
    {
      RowGroupIs(zeros, r, c * |xs|, xs);
      WordOfEntries(RowGroup(zeros, r, c * |xs|, |xs|), xs, wBit);
    }
  }

  /** The zero point at `k` as a reader of the packed words decodes it: the field plus one. */
  ghost function DecodedZero(qzeros: array2<int>, wBit: nat, r: nat, k: nat): int
    requires Supported(wBit) && r < qzeros.Length0 && k / PerWord(wBit) < qzeros.Length1
    reads qzeros
  {
    Field(qzeros[r, k / PerWord(wBit)], wBit, k % PerWord(wBit)) + 1
  }

  ghost predicate AllDecoded(zeros: array2<int>, qzeros: array2<int>, wBit: nat)
    requires Supported(wBit) && ZerosPacked(zeros, qzeros, wBit)
    reads zeros, qzeros
  {
    forall r, k | 0 <= r < zeros.Length0 && 0 <= k < zeros.Length1 / STORAGE_BITS * STORAGE_BITS ::
      (EntryPlace(zeros.Length1, wBit, k); DecodedZero(qzeros, wBit, r, k) == zeros[r, k] + 1)
  }

  lemma WordHolds(zeros: array2<int>, wBit: nat, r: nat, k: nat) returns (xs: seq<nat>)
    requires Supported(wBit) && r < zeros.Length0 && k < zeros.Length1 / STORAGE_BITS * STORAGE_BITS
    ensures k / PerWord(wBit) * PerWord(wBit) + PerWord(wBit) <= zeros.Length1
    ensures xs == RowGroup(zeros, r, k / PerWord(wBit) * PerWord(wBit), PerWord(wBit))
    ensures |xs| == PerWord(wBit) && xs[k % PerWord(wBit)] == ToUint32(zeros[r, k])
    ensures wBit * |xs| == 32
  {
    hide ToUint32;
    EntryPlace(zeros.Length1, wBit, k);
    GroupInside(zeros.Length1, wBit, k / PerWord(wBit));
    xs := RowGroup(zeros, r, k / PerWord(wBit) * PerWord(wBit), PerWord(wBit));
  }

  /** No zero point of a complete group of 32 columns was 0 before the decrement. */
  ghost predicate NoZeroWasZero(zeros: array2<int>)
    reads zeros
  {
    forall r, k | 0 <= r < zeros.Length0 && 0 <= k < zeros.Length1 / STORAGE_BITS * STORAGE_BITS :: zeros[r, k] + 1 >= 1
  }

  lemma ZeroDecodes(zeros: array2<int>, qzeros: array2<int>, wBit: nat, r: nat, k: nat)
    requires Supported(wBit) && ZerosPacked(zeros, qzeros, wBit)
    requires NoZeroWasZero(zeros)
    requires forall r, c | 0 <= r < zeros.Length0 && 0 <= c < zeros.Length1 :: zeros[r, c] < Pow2(wBit) - 1
    requires r < zeros.Length0 && k < zeros.Length1 / STORAGE_BITS * STORAGE_BITS
    ensures k / PerWord(wBit) < qzeros.Length1 && DecodedZero(qzeros, wBit, r, k) == zeros[r, k] + 1
  {
    hide Field, ToInt32, OrWord, Pow2, ToUint32;
    EntryPlace(zeros.Length1, wBit, k);
    var xs := WordHolds(zeros, wBit, r, k);
    forall i | 0 <= i < |xs|
      ensures xs[i] < Pow2(wBit)
    {
      var c := k / PerWord(wBit) * PerWord(wBit) + i;
      assert c < zeros.Length1 / STORAGE_BITS * STORAGE_BITS && zeros[r, c] + 1 >= 1;
      InRangeIsUint32(zeros[r, c], wBit);
    }
    InRangeIsUint32(zeros[r, k], wBit);
    UnpackWord(xs, wBit, |xs|, k % PerWord(wBit));
  }

  lemma MinusOneMasks(wBit: nat)
    requires Supported(wBit)
    ensures Mask(ToUint32(-1), wBit) == Pow2(wBit) - 1
  {
    assert ToUint32(-1) == 0xFFFF_FFFF;
    assert Pow2(4) == 16;
    Pow2Add(4, 4);
    DivModUnique(0xFFFF_FFFF, 16, 0xFFF_FFFF, 15);
    DivModUnique(0xFFFF_FFFF, 256, 0xFF_FFFF, 255);
  }

  lemma MinusOneDecodesWrong(zeros: array2<int>, qzeros: array2<int>, wBit: nat, r: nat, k: nat)
    requires Supported(wBit) && ZerosPacked(zeros, qzeros, wBit)
    requires r < zeros.Length0 && k < zeros.Length1 / STORAGE_BITS * STORAGE_BITS && zeros[r, k] == -1
    ensures k / PerWord(wBit) < qzeros.Length1 && DecodedZero(qzeros, wBit, r, k) == Pow2(wBit)
  {
    hide Field, ToInt32, OrWord, Pow2, ToUint32, Mask;
    EntryPlace(zeros.Length1, wBit, k);
    var xs := WordHolds(zeros, wBit, r, k);
    var j := k % PerWord(wBit);
    MinusOneMasks(wBit);
    OnesStay(xs, wBit, |xs|, j);
    WidthMonotone(wBit, j + 1, |xs|);
    FieldWidth(wBit, j + 1);
    FieldOfInt32(OrWord(xs, wBit, |xs|), wBit, j);
  }

  /** Exactly when a single zero point is decoded as it was, whatever the others are: it was not 0 itself, and
      none below it in its word was 0, unless it has all its bits set after the decrement anyway.  `zeros`
      holds the decremented values. */
  lemma ZeroDecodesIff(zeros: array2<int>, qzeros: array2<int>, wBit: nat, r: nat, k: nat)
    requires Supported(wBit) && ZerosPacked(zeros, qzeros, wBit)
    requires r < zeros.Length0 && k < zeros.Length1 / STORAGE_BITS * STORAGE_BITS
    requires forall c | 0 <= c < zeros.Length1 :: -1 <= zeros[r, c] < Pow2(wBit)
    ensures k / PerWord(wBit) < qzeros.Length1
    ensures DecodedZero(qzeros, wBit, r, k) == zeros[r, k] + 1 <==>
            zeros[r, k] != -1 &&
            (zeros[r, k] == Pow2(wBit) - 1 ||
             forall c | k / PerWord(wBit) * PerWord(wBit) <= c < k :: zeros[r, c] != -1)
  {
    hide Field, ToInt32, OrWord, Pow2, ToUint32, AllOnes;
    EntryPlace(zeros.Length1, wBit, k);
    var xs := WordHolds(zeros, wBit, r, k);
    var per, j := PerWord(wBit), k % PerWord(wBit);
    var start := k / per * per;
    WidthMonotone(wBit, j + 1, |xs|);
    FieldWidth(wBit, j + 1);
    forall i | 0 <= i < |xs|
      ensures if zeros[r, start + i] == -1 then AllOnes(xs[i]) else xs[i] == zeros[r, start + i] < Pow2(wBit)
      ensures !AllOnes(xs[i]) <==> zeros[r, start + i] != -1
    {
      MinusOneOrFits(zeros[r, start + i], wBit);
    }
    FieldOfWord(xs, wBit, |xs|, j);
    FieldOfInt32(OrWord(xs, wBit, |xs|), wBit, j);
    OnesUpToMeans(zeros, xs, r, start, j);
  }

  lemma MinusOneOrFits(z: int, wBit: nat)
    requires Supported(wBit) && -1 <= z < Pow2(wBit)
    ensures AllOnes(ToUint32(z)) <==> z == -1
    ensures z != -1 ==> ToUint32(z) == z
  {
    assert Pow2(4) == 16;
    Pow2Add(4, 4);
  }

  lemma OnesUpToMeans(zeros: array2<int>, xs: seq<nat>, r: nat, start: nat, j: nat)
    requires r < zeros.Length0 && start + |xs| <= zeros.Length1 && j < |xs|
    requires forall i | 0 <= i < |xs| :: AllOnes(xs[i]) <==> zeros[r, start + i] == -1
    ensures OnesUpTo(xs, |xs|, j) <==> !(forall c | start <= c <= start + j :: zeros[r, c] != -1)
  {
    hide AllOnes;
    if c :| start <= c <= start + j && zeros[r, c] == -1 {
      assert AllOnes(xs[c - start]);
    }
  }

  /** Every zero point of a complete group is decoded as it was exactly when none of them was 0; a
      single 0 turns into a field of ones.  `zeros` holds the decremented values. */
  lemma QzerosRoundTripIff(zeros: array2<int>, qzeros: array2<int>, wBit: nat)
    requires Supported(wBit) && ZerosPacked(zeros, qzeros, wBit)
    requires forall r, c | 0 <= r < zeros.Length0 && 0 <= c < zeros.Length1 :: -1 <= zeros[r, c] < Pow2(wBit) - 1
    ensures AllDecoded(zeros, qzeros, wBit) <==> NoZeroWasZero(zeros)
  {
    assert qzeros.Length0 == zeros.Length0;
    hide DecodedZero, Pow2, OrWord, ToInt32;
    if NoZeroWasZero(zeros) {
      forall r, k | 0 <= r < zeros.Length0 && 0 <= k < zeros.Length1 / STORAGE_BITS * STORAGE_BITS
        ensures k / PerWord(wBit) < qzeros.Length1 && DecodedZero(qzeros, wBit, r, k) == zeros[r, k] + 1
      {
        ZeroDecodes(zeros, qzeros, wBit, r, k);
      }
    } else {
      var r, k :| 0 <= r < zeros.Length0 && 0 <= k < zeros.Length1 / STORAGE_BITS * STORAGE_BITS && zeros[r, k] + 1 < 1;
      MinusOneDecodesWrong(zeros, qzeros, wBit, r, k);
    }
  }
}
