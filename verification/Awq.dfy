/** AWQ packing: columns are reordered in groups of eight and packed into 32-bit words by summing
    shifted nibbles. */
module Awq {
  import opened PyValues
  import opened Bits
  import opened PackedWords

  /** A matrix in row-major order. */
  datatype Tensor = Tensor(rows: nat, cols: nat, data: seq<int>)

  predicate WellFormed(t: Tensor) {
    |t.data| == t.rows * t.cols
  }

  const ORDINAL_PACK_ORDER: seq<nat> := [0, 1, 2, 3, 4, 5, 6, 7]
  const AWQ_PACK_ORDER: seq<nat> := [0, 2, 4, 6, 1, 3, 5, 7]

  /** Position `i` of a list regrouped by `order`: the same group, another place in it. */
  function Source(i: nat, order: seq<nat>): nat
    requires order != []
  {
    i / |order| * |order| + order[i % |order|]
  }

  /** The order lists only places of a group of its own length. */
  predicate IsOrder(order: seq<nat>) {
    order != [] && forall k | 0 <= k < |order| :: order[k] < |order|
  }

  lemma SourceInside(i: nat, order: seq<nat>, n: nat)
    requires IsOrder(order) && n % |order| == 0 && i < n
    ensures Source(i, order) < n
    ensures Source(i, order) / |order| == i / |order| && Source(i, order) % |order| == order[i % |order|]
  {
    var p := |order|;
    var g, k := i / p, i % p;
    var m := n / p;
    assert i == g * p + k && n == m * p;
    DivModUnique(Source(i, order), p, g, order[k]);
    if g >= m {
      MulLe(p, m, g);
    }
    MulLe(p, g + 1, m);
    assert p * (g + 1) == p * g + p;
  }

  function Regroup(data: seq<int>, order: seq<nat>): (r: seq<int>)
    requires IsOrder(order) && |data| % |order| == 0
    ensures |r| == |data|
    ensures forall i | 0 <= i < |r| :: Source(i, order) < |data| && r[i] == data[Source(i, order)]
  {
    RegroupInside(data, order);
    seq(|data|, i requires 0 <= i < |data| => data[Source(i, order)])
  }

  lemma RegroupInside(data: seq<int>, order: seq<nat>)
    requires IsOrder(order) && |data| % |order| == 0
    ensures forall i | 0 <= i < |data| :: Source(i, order) < |data|
  {
    forall i | 0 <= i < |data|
      ensures Source(i, order) < |data|
    {
      SourceInside(i, order, |data|);
    }
  }

  /** `apply_order` by columns.  The view in rows of one word each fails first, for a number of entries that
      does not divide; then an order with an index beyond the fields of a word raises an IndexError; then
      the view back fails if the order has more or fewer places.  The failing views raise a RuntimeError.
      Without entries both views succeed and nothing is looked up. */
  function ApplyOrder(t: Tensor, wBit: nat, order: seq<nat>): Outcome<Tensor>
    requires 1 <= wBit <= 32 && WellFormed(t)
  {
    var places := PlacesPerWord(wBit);
    if |t.data| % places != 0 then Raise(OtherError)
    else if t.data == [] then Ok(t)
    else if exists k | 0 <= k < |order| :: order[k] >= places then Raise(IndexError)
    else if places != |order| then Raise(OtherError)
    else Ok(t.(data := Regroup(t.data, order)))
  }

  function PlacesPerWord(wBit: nat): (n: nat)
    requires 1 <= wBit <= 32
    ensures n >= 1
  {
    MulLe(wBit, 1, STORAGE_BITS / wBit + 1);
    STORAGE_BITS / wBit
  }

  lemma ColsDivide(rows: nat, cols: nat, p: nat)
    requires p > 0 && cols % p == 0
    ensures (rows * cols) % p == 0 && rows * cols / p == rows * (cols / p)
  {
    MulAssoc(rows, cols / p, p);
    DivModUnique(rows * cols, p, rows * (cols / p), 0);
  }

  /** The nibbles of group `g`, after the mask. */
  function Nibbles(data: seq<int>, g: nat): (xs: seq<nat>)
    requires 8 * g + 8 <= |data|
    ensures |xs| == 8 && forall k | 0 <= k < 8 :: xs[k] == data[8 * g + k] % 16
  {
    [data[8 * g] % 16, data[8 * g + 1] % 16, data[8 * g + 2] % 16, data[8 * g + 3] % 16,
     data[8 * g + 4] % 16, data[8 * g + 5] % 16, data[8 * g + 6] % 16, data[8 * g + 7] % 16]
  }

  /** `awq_pack` by columns for 4-bit entries: the shifts and the sum are 64-bit, the result is made
      a signed 32-bit word. */
  function AwqPack(t: Tensor): (q: Tensor)
    requires t.cols > 0 && t.cols % 8 == 0 && WellFormed(t)
    ensures q.rows == t.rows && q.cols == t.cols / 8 && WellFormed(q)
    ensures forall g | 0 <= g < |q.data| ::
              8 * g + 8 <= |t.data| && q.data[g] == ToInt32(SumWord(Nibbles(t.data, g), 4, 8))
  {
    ColsDivide(t.rows, t.cols, 8);
    Tensor(t.rows, t.cols / 8,
           seq(|t.data| / 8, g requires 0 <= g < |t.data| / 8 => ToInt32(SumWord(Nibbles(t.data, g), 4, 8))))
  }

  /** The packed words taken apart again, nibble by nibble. */
  function Unpack(q: seq<int>): (r: seq<int>)
    ensures |r| == 8 * |q|
    ensures forall i | 0 <= i < |r| :: r[i] == Field(q[i / 8], 4, i % 8)
  {
    seq(8 * |q|, i requires 0 <= i < 8 * |q| => Field(q[i / 8], 4, i % 8))
  }

  lemma NibblesFit(data: seq<int>, g: nat)
    requires 8 * g + 8 <= |data|
    ensures Fits(Nibbles(data, g), 4)
  {
    assert Pow2(4) == 16;
  }

  /** Nibble `k` of word `g` is the low nibble of entry `k` of the group, for any entries at all. */
  lemma PackedNibble(t: Tensor, g: nat, k: nat)
    requires t.cols > 0 && t.cols % 8 == 0 && WellFormed(t) && g < |AwqPack(t).data| && k < 8
    ensures 8 * g + 8 <= |t.data| && Field(AwqPack(t).data[g], 4, k) == t.data[8 * g + k] % 16
  {
    hide Field, ToInt32, SumWord;
    var xs := Nibbles(t.data, g);
    NibblesFit(t.data, g);
    UnpackWord(xs, 4, 8, k);
  }

  predicate FourBit(data: seq<int>) {
    forall i | 0 <= i < |data| :: 0 <= data[i] < 16
  }

  lemma UnpackPack(t: Tensor)
    requires t.cols > 0 && t.cols % 8 == 0 && WellFormed(t) && FourBit(t.data)
    ensures Unpack(AwqPack(t).data) == t.data
  {
    hide Field, ToInt32, SumWord;
    var q := AwqPack(t);
    ColsDivide(t.rows, t.cols, 8);
    forall i | 0 <= i < |t.data|
      ensures Unpack(q.data)[i] == t.data[i]
    {
      PackedNibble(t, i / 8, i % 8);
    }
  }

  // ----- orders that undo each other -----

  predicate Undoes(back: seq<nat>, order: seq<nat>) {
    && IsOrder(order) && IsOrder(back) && |back| == |order|
    && forall k | 0 <= k < |order| :: order[back[k]] == k
  }

  /** Regrouping by an order and then by one that undoes it changes nothing. */
  lemma RegroupUndone(data: seq<int>, order: seq<nat>, back: seq<nat>)
    requires Undoes(back, order) && |data| % |order| == 0
    ensures Regroup(Regroup(data, order), back) == data
  {
    hide Source;
    var once := Regroup(data, order);
    var twice := Regroup(once, back);
    forall i | 0 <= i < |data|
      ensures twice[i] == data[i]
    {
      SourceInside(i, back, |data|);
      SourceInside(Source(i, back), order, |data|);
      assert Source(Source(i, back), order) == i by { SourceTwice(i, order, back); }
    }
  }

  lemma SourceTwice(i: nat, order: seq<nat>, back: seq<nat>)
    requires Undoes(back, order)
    ensures Source(Source(i, back), order) == i
  {
    var p := |order|;
    DivModUnique(Source(i, back), p, i / p, back[i % p]);
  }

  /** The inverse of the AWQ order: where each column of a group has gone. */
  const AWQ_REVERSE_ORDER: seq<nat> := [0, 4, 1, 5, 2, 6, 3, 7]

  lemma ReverseUndoesPackOrder()
    ensures Undoes(AWQ_REVERSE_ORDER, AWQ_PACK_ORDER) && Undoes(AWQ_PACK_ORDER, AWQ_REVERSE_ORDER)
  {
  }

  lemma PackOrderIsOrder()
    ensures IsOrder(AWQ_PACK_ORDER) && |AWQ_PACK_ORDER| == 8
    ensures forall k | 0 <= k < 8 :: AWQ_PACK_ORDER[k] < STORAGE_BITS / 4
  {
  }

  function Ordered(t: Tensor): Tensor
    requires t.cols % 8 == 0 && WellFormed(t)
  {
    PackOrderIsOrder();
    ColsDivide(t.rows, t.cols, 8);
    t.(data := Regroup(t.data, AWQ_PACK_ORDER))
  }

  /** The AWQ order is accepted for four-bit weights. */
  lemma FourBitOrderApplies(t: Tensor)
    requires t.cols % 8 == 0 && WellFormed(t)
    ensures ApplyOrder(t, 4, AWQ_PACK_ORDER) == Ok(Ordered(t)) && WellFormed(Ordered(t))
  {
    PackOrderIsOrder();
    ColsDivide(t.rows, t.cols, 8);
  }

  /** Four-bit weights: nibble `k` of each word is the entry that the pack order names for place `k`. */
  lemma AwqNibble(t: Tensor, g: nat, k: nat)
    requires t.cols > 0 && t.cols % 8 == 0 && WellFormed(t) && FourBit(t.data)
    requires WellFormed(Ordered(t)) && g < |AwqPack(Ordered(t)).data| && k < 8
    ensures 8 * g + 8 <= |t.data|
    ensures Field(AwqPack(Ordered(t)).data[g], 4, k) == t.data[8 * g + [0, 2, 4, 6, 1, 3, 5, 7][k]]
  {
    hide Field, AwqPack, WellFormed, Source, Ordered, Regroup;
    NibbleOfOrder(t, g, k);
  }

  lemma NibbleOfOrder(t: Tensor, g: nat, k: nat)
    requires t.cols > 0 && t.cols % 8 == 0 && WellFormed(t) && FourBit(t.data)
    requires WellFormed(Ordered(t)) && g < |AwqPack(Ordered(t)).data| && k < 8
    ensures 8 * g + 8 <= |t.data| && Field(AwqPack(Ordered(t)).data[g], 4, k) == t.data[8 * g + AWQ_PACK_ORDER[k]]
  {
    hide Field, AwqPack, Source, WellFormed, AWQ_PACK_ORDER;
    PackOrderIsOrder();
    PackedNibble(Ordered(t), g, k);
    SourceOf(g, k);
    assert Ordered(t).data[8 * g + k] == t.data[8 * g + AWQ_PACK_ORDER[k]];
  }

  lemma SourceOf(g: nat, k: nat)
    requires k < 8
    ensures Source(8 * g + k, AWQ_PACK_ORDER) == 8 * g + AWQ_PACK_ORDER[k]
  {
    DivModUnique(8 * g + k, 8, g, k);
  }

  /** Four-bit weights: unpacking followed by the reverse order restores every matrix. */
  lemma AwqRoundTrip(t: Tensor)
    requires t.cols > 0 && t.cols % 8 == 0 && WellFormed(t) && FourBit(t.data)
    ensures var ordered := ApplyOrder(t, 4, AWQ_PACK_ORDER);
            && ordered.Ok? && WellFormed(ordered.value) && ordered.value.cols == t.cols
            && |Unpack(AwqPack(ordered.value).data)| % 8 == 0
            && IsOrder(AWQ_REVERSE_ORDER)
            && Regroup(Unpack(AwqPack(ordered.value).data), AWQ_REVERSE_ORDER) == t.data
  {
    hide AwqPack, Unpack, ApplyOrder, Source;
    FourBitOrderApplies(t);
    ColsDivide(t.rows, t.cols, 8);
    PackOrderIsOrder();
    OrderedIsFourBit(t.data, AWQ_PACK_ORDER);
    UnpackPack(Ordered(t));
    ReverseUndoesPackOrder();
    RegroupUndone(t.data, AWQ_PACK_ORDER, AWQ_REVERSE_ORDER);
  }

  lemma OrderedIsFourBit(data: seq<int>, order: seq<nat>)
    requires IsOrder(order) && |data| % |order| == 0 && FourBit(data)
    ensures FourBit(Regroup(data, order))
  {
    RegroupInside(data, order);
    hide Source;
  }

  /** For which matrices and widths the AWQ order is accepted, and for which it raises an IndexError: it names
      eight places, as many as the word has for four-bit weights; wider ones have fewer places, and narrower
      ones more. */
  lemma OrderSuitsFourBits(t: Tensor, wBit: nat)
    requires 1 <= wBit <= 32 && WellFormed(t)
    ensures t.data == [] ==> ApplyOrder(t, wBit, AWQ_PACK_ORDER) == Ok(t)
    ensures t.data != [] ==> (ApplyOrder(t, wBit, AWQ_PACK_ORDER).Ok? <==> wBit == 4 && |t.data| % 8 == 0)
    ensures ApplyOrder(t, wBit, AWQ_PACK_ORDER) == Raise(IndexError) <==>
            wBit > 4 && t.data != [] && |t.data| % (STORAGE_BITS / wBit) == 0
  {
    PackOrderIsOrder();
    assert AWQ_PACK_ORDER[7] == 7;
    EightPlaces(wBit);
  }

  lemma EightPlaces(wBit: nat)
    requires 1 <= wBit <= 32
    ensures PlacesPerWord(wBit) >= 8 <==> wBit <= 4
    ensures PlacesPerWord(wBit) == 8 <==> wBit == 4
  {
    var q := STORAGE_BITS / wBit;
    assert 32 == q * wBit + 32 % wBit;
    if wBit >= 5 && q >= 8 {
      MulLe(wBit, 8, q);
    }
    if wBit <= 3 {
      assert wBit == 1 || wBit == 2 || wBit == 3;
    }
  }

  /** The ordinal order leaves every entry where it is. */
  lemma OrdinalOrderIsIdentity(t: Tensor)
    requires t.cols % 8 == 0 && WellFormed(t)
    ensures ApplyOrder(t, 4, ORDINAL_PACK_ORDER) == Ok(t)
  {
    ColsDivide(t.rows, t.cols, 8);
    assert IsOrder(ORDINAL_PACK_ORDER) && forall k | 0 <= k < 8 :: ORDINAL_PACK_ORDER[k] == k;
    var r := Regroup(t.data, ORDINAL_PACK_ORDER);
    forall i | 0 <= i < |r|
      ensures r[i] == t.data[i]
    {
      assert Source(i, ORDINAL_PACK_ORDER) == i / 8 * 8 + i % 8 == i;
    }
    assert r == t.data;
  }

  /** With entries left in their order, AWQ and GPTQ agree: the sum of shifts is the word that the
      GPTQ loop builds by or-ing the same nibbles. */
  lemma AwqWordIsGptqWord(t: Tensor, g: nat)
    requires t.cols > 0 && t.cols % 8 == 0 && WellFormed(t) && g < |AwqPack(t).data|
    ensures 8 * g + 8 <= |t.data| && AwqPack(t).data[g] == ToInt32(OrWord(Nibbles(t.data, g), 4, 8))
  {
    hide ToInt32, SumWord, OrWord;
    NibblesFit(t.data, g);
    OrIsSumWord(Nibbles(t.data, g), 4, 8);
  }

  /** Each packed word is a signed 32-bit number: the one that the low nibbles of its eight entries spell with
      base 16, up to multiples of 2 to the power of 32. */
  lemma AwqWordIsNumber(t: Tensor, g: nat)
    requires t.cols > 0 && t.cols % 8 == 0 && WellFormed(t) && g < |AwqPack(t).data|
    ensures 8 * g + 8 <= |t.data|
    ensures IsWordOf(AwqPack(t).data[g], seq(8, k requires 0 <= k < 8 => t.data[8 * g + k] % 16), 16)
  {
    hide ToInt32, SumWord, OrWord, AwqPack, Positional;
    AwqWordIsGptqWord(t, g);
    var xs, ys := Nibbles(t.data, g), seq(8, k requires 0 <= k < 8 => t.data[8 * g + k] % 16);
    assert 16 == Pow2(4);
    SignedWord(xs, ys, 4, 16);
  }
}
