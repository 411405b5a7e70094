/** Bitwise or on natural numbers, and the fields of a packed word. */
module Bits {

  function Pow2(n: nat): (r: nat)
    ensures r >= 1
  {
    if n == 0 then 1 else 2 * Pow2(n - 1)
  }

  function BitOr(a: nat, b: nat): nat
    decreases a + b
  {
    if a == 0 && b == 0 then 0
    else (if a % 2 == 1 || b % 2 == 1 then 1 else 0) + 2 * BitOr(a / 2, b / 2)
  }

  const WORD: nat := 0x1_0000_0000

  /** A left shift of an unsigned 32-bit word drops what leaves it. */
  function Shl32(x: nat, s: nat): nat {
    (x * Pow2(s)) % WORD
  }

  /** `astype(np.uint32)` */
  function ToUint32(x: int): nat {
    x % WORD
  }

  /** `astype(np.int32)` and `.to(torch.int32)` */
  function ToInt32(x: int): int {
    var u := x % WORD;
    if u >= WORD / 2 then u - WORD else u
  }

  /** The signed word has the value of the number up to multiples of 2 to the power of 32. */
  lemma ToInt32Is(x: int)
    ensures -0x8000_0000 <= ToInt32(x) < 0x8000_0000
    ensures (ToInt32(x) - x) % 0x1_0000_0000 == 0
  {
    var q := if x % WORD >= WORD / 2 then -(x / WORD) - 1 else -(x / WORD);
    assert x == (x / WORD) * WORD + x % WORD;
    DivMul(0, WORD, q);
  }

  /** An arithmetic shift right. */
  function Shr(x: int, s: nat): (r: int)
    ensures x >= 0 ==> r >= 0
  {
    DivSign(x, Pow2(s));
    x / Pow2(s)
  }

  lemma DivSign(x: int, d: nat)
    requires d > 0
    ensures x >= 0 ==> x / d >= 0
  {
    assert x == (x / d) * d + x % d;
    if x / d <= -1 {
      MulLe(d, x / d, -1);
    }
  }

  /** The low `w` bits. */
  function Mask(x: int, w: nat): (r: nat)
    ensures r < Pow2(w)
  {
    x % Pow2(w)
  }

  /** Field `k` of a word, `w` bits wide. */
  function Field(word: int, w: nat, k: nat): nat {
    Mask(Shr(word, w * k), w)
  }

  // ----- arithmetic -----

  lemma {:induction false} Pow2Add(a: nat, b: nat)
    ensures Pow2(a + b) == Pow2(a) * Pow2(b)
  {
    if a > 0 {
      Pow2Add(a - 1, b);
      MulAssoc(2, Pow2(a - 1), Pow2(b));
    }
  }

  lemma MulAssoc(a: int, b: int, c: int)
    ensures a * (b * c) == (a * b) * c
  {
  }

  lemma MulLe(a: nat, b: int, c: int)
    requires b <= c
    ensures a * b <= a * c
  {
  }

  /** Quotient and remainder are what the division equation says. */
  lemma DivModUnique(x: int, d: nat, q: int, r: int)
    requires d > 0 && 0 <= r < d && x == q * d + r
    ensures x / d == q && x % d == r
  {
    var q', r' := x / d, x % d;
    assert x == q' * d + r';
    assert (q' - q) * d == r - r';
    if q' > q {
      MulLe(d, 1, q' - q);
    } else if q' < q {
      MulLe(d, q' - q, -1);
    }
  }

  lemma DivMul(x: int, d: nat, m: int)
    requires d > 0
    ensures (x + m * d) / d == x / d + m && (x + m * d) % d == x % d
  {
    assert x + m * d == (x / d + m) * d + x % d;
    DivModUnique(x + m * d, d, x / d + m, x % d);
  }

  lemma DivDiv(x: int, a: nat, b: nat)
    requires a > 0 && b > 0
    ensures a * b > 0 && x / (a * b) == (x / a) / b
    ensures x % (a * b) == x % a + a * ((x / a) % b)
  {
    MulLe(a, 1, b);
    var q, r := (x / a) / b, x % a + a * ((x / a) % b);
    var m := (x / a) % b;
    MulLe(a, m, b - 1);
    assert a * (b - 1) == a * b - a;
    assert x / a == q * b + m;
    assert x == (q * b + m) * a + x % a;
    assert (q * b + m) * a == q * (a * b) + a * m;
    DivModUnique(x, a * b, q, r);
  }

  // ----- or -----

  lemma OrStep(a: nat, b: nat)
    ensures BitOr(a, b) / 2 == BitOr(a / 2, b / 2)
    ensures BitOr(a, b) % 2 == if a % 2 == 1 || b % 2 == 1 then 1 else 0
  {
  }

  /** One step of a longer shift or mask. */
  lemma ShiftStep(x: nat, s: nat)
    requires s > 0
    ensures Shr(x, s) == Shr(x / 2, s - 1)
    ensures Mask(x, s) == x % 2 + 2 * Mask(x / 2, s - 1)
  {
    DivDiv(x, 2, Pow2(s - 1));
  }

  lemma ShiftNone(x: nat)
    ensures Shr(x, 0) == x && Mask(x, 0) == 0
  {
  }

  /** Shifting commutes with or. */
  lemma {:induction false} OrShift(a: nat, b: nat, s: nat)
    ensures Shr(BitOr(a, b), s) == BitOr(Shr(a, s), Shr(b, s))
  {
    hide Shr, BitOr;
    if s == 0 {
      ShiftNone(a);
      ShiftNone(b);
      ShiftNone(BitOr(a, b));
    } else {
      OrStep(a, b);
      OrShift(a / 2, b / 2, s - 1);
      ShiftStep(a, s);
      ShiftStep(b, s);
      ShiftStep(BitOr(a, b), s);
    }
  }

  /** So does masking. */
  lemma {:induction false} OrMask(a: nat, b: nat, w: nat)
    ensures Mask(BitOr(a, b), w) == BitOr(Mask(a, w), Mask(b, w))
  {
    hide Mask, BitOr;
    if w == 0 {
      ShiftNone(a);
      ShiftNone(b);
      ShiftNone(BitOr(a, b));
      OrZero(0);
    } else {
      OrStep(a, b);
      OrMask(a / 2, b / 2, w - 1);
      ShiftStep(a, w);
      ShiftStep(b, w);
      ShiftStep(BitOr(a, b), w);
      OrStep(Mask(a, w), Mask(b, w));
      assert Mask(a, w) / 2 == Mask(a / 2, w - 1) && Mask(b, w) / 2 == Mask(b / 2, w - 1);
    }
  }

  lemma FieldOr(a: nat, b: nat, w: nat, k: nat)
    ensures Field(BitOr(a, b), w, k) == BitOr(Field(a, w, k), Field(b, w, k))
  {
    hide BitOr, Pow2, Shr, Mask;
    OrShift(a, b, w * k);
    OrMask(Shr(a, w * k), Shr(b, w * k), w);
  }

  lemma {:induction false} OrZero(a: nat)
    ensures BitOr(a, 0) == a && BitOr(0, a) == a
  {
    if a > 0 {
      OrZero(a / 2);
    }
  }

  /** Or with a field of ones gives ones. */
  lemma {:induction false} OrOnes(x: nat, w: nat)
    requires x < Pow2(w)
    ensures BitOr(x, Pow2(w) - 1) == Pow2(w) - 1 && BitOr(Pow2(w) - 1, x) == Pow2(w) - 1
  {
    if w > 0 {
      var m := Pow2(w) - 1;
      assert m % 2 == 1 && m / 2 == Pow2(w - 1) - 1;
      OrOnes(x / 2, w - 1);
      OrStep(x, m);
      OrStep(m, x);
    }
  }

  /** Or with a number shifted above the other is their sum. */
  lemma {:induction false} OrIsSum(a: nat, x: nat, s: nat)
    requires a < Pow2(s)
    ensures BitOr(a, x * Pow2(s)) == a + x * Pow2(s)
  {
    if s == 0 {
      OrZero(x);
    } else {
      var b := x * Pow2(s);
      assert b == 2 * (x * Pow2(s - 1)) by { MulAssoc(x, 2, Pow2(s - 1)); }
      OrIsSum(a / 2, x, s - 1);
      OrStep(a, b);
      hide BitOr;
      assert b / 2 == x * Pow2(s - 1) && b % 2 == 0;
    }
  }
}
