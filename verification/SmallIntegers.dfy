/** Small integers: 63-bit numbers in 64-bit words whose arithmetic wraps around; the primitives answer exactly or signal. */
module SmallIntegers {
  import opened TableSizes

  const WORD: int := 0x1_0000_0000_0000_0000
  const HALF: int := 0x8000_0000_0000_0000
  const QUARTER: int := 0x4000_0000_0000_0000
  const WORD_SIZE: int := 64

  /** The signed word that is left of a result. */
  function Wrap(z: int): (r: int)
    ensures -HALF <= r < HALF && (-HALF <= z < HALF ==> r == z)
  {
    Signed(z % WORD)
  }

  /** The number in a word of so many ones and zeros. */
  function Signed(m: int): int {
    if m < HALF then m else m - WORD
  }

  lemma WrapBy(z: int) returns (k: int)
    ensures Wrap(z) == z - k * WORD
  {
    k := if z % WORD < HALF then z / WORD else z / WORD + 1;
  }

  /** What a tagged word can hold. */
  predicate Fits(z: int) {
    -QUARTER <= z < QUARTER
  }

  /** smallint_fits_object: the top bit of a word exclusive or the word shifted by one tells whether the two top bits differ. */
  lemma TopBitOfXor(i: bv64)
    ensures ((i ^ (i << 1)) & 0x8000_0000_0000_0000) == 0 <==> i >> 63 == (i << 1) >> 63
    ensures i >> 63 == (i << 1) >> 63 <==> i < 0x4000_0000_0000_0000 || 0xC000_0000_0000_0000 <= i
  {
  }

  /** The topmost bit of a word, and a word shifted left by one, as numbers. */
  function TopBit(m: int): int {
    m / HALF
  }

  function Doubled(m: int): int {
    2 * m % WORD
  }

  /** The two top bits are equal for just the words that hold a number in range. */
  lemma FitsIsTopBits(z: int)
    ensures TopBit(z % WORD) == TopBit(Doubled(z % WORD)) <==> Fits(Wrap(z))
  {
    var m := z % WORD;
    assert Doubled(m) == if m < HALF then 2 * m else 2 * m - WORD;
  }

  datatype Result = Value(value: int) | Overflow

  /** Division as the machine does it, towards zero. */
  function Quotient(a: int, b: int): int
    requires b != 0
  {
    if (a >= 0) == (b > 0) then Abs(a) / Abs(b) else -(Abs(a) / Abs(b))
  }

  function Abs(a: int): nat {
    if a < 0 then -a else a
  }

  /** prim_plus. */
  method Plus(x: int, y: int) returns (r: Result)
    requires Fits(x) && Fits(y)
    ensures r == if Fits(x + y) then Value(x + y) else Overflow
  {
    var z := Wrap(x + y);
    r := if Fits(z) then Value(z) else Overflow;
  }

  /** prim_minus. */
  method Minus(x: int, y: int) returns (r: Result)
    requires Fits(x) && Fits(y)
    ensures r == if Fits(x - y) then Value(x - y) else Overflow
  {
    var z := Wrap(x - y);
    r := if Fits(z) then Value(z) else Overflow;
  }

  /** prim_times: the product may wrap around, and the division by y tells. */
  method Times(x: int, y: int) returns (r: Result)
    requires Fits(x) && Fits(y)
    ensures r == if Fits(x * y) then Value(x * y) else Overflow
  {
    var z := Wrap(x * y);
    if y != 0 {
      QuotientTells(x, y);
    }
    if y != 0 && (Quotient(z, y) != x || !Fits(z)) {
      r := Overflow;
    } else {
      r := Value(z);
    }
  }

  /** The wrapped product divided by y is x just when the product did not wrap around. */
  lemma QuotientTells(x: int, y: int)
    requires Fits(x) && Fits(y) && y != 0
    ensures Quotient(Wrap(x * y), y) == x <==> Wrap(x * y) == x * y
  {
    var p := x * y;
    var k := WrapBy(p);
    if Wrap(p) == p {
      ExactQuotient(x, y);
    } else {
      QuotientNear(Wrap(p), y);
      FarAway(Wrap(p), p, k);
    }
  }

  lemma FarAway(w: int, p: int, k: int)
    requires w == p - k * WORD && k != 0
    ensures Abs(w - p) >= WORD
  {
  }

  lemma ExactQuotient(x: int, y: int)
    requires y != 0
    ensures Quotient(x * y, y) == x
  {
    AbsProduct(x, y);
    DivBack(Abs(x), Abs(y));
    if (x > 0 && y > 0) || (x < 0 && y < 0) {
      assert x * y > 0 by { SignPositive(x, y); }
    } else if x != 0 {
      assert x * y < 0 by { SignNegative(x, y); }
    }
  }

  lemma SignPositive(x: int, y: int)
    requires (x > 0 && y > 0) || (x < 0 && y < 0)
    ensures x * y > 0
  {
  }

  lemma SignNegative(x: int, y: int)
    requires (x > 0 && y < 0) || (x < 0 && y > 0)
    ensures x * y < 0
  {
  }

  lemma AbsProduct(x: int, y: int)
    ensures Abs(x * y) == Abs(x) * Abs(y)
  {
    if x >= 0 && y >= 0 {
    } else if x < 0 && y < 0 {
      assert x * y == (-x) * (-y);
    } else if x < 0 {
      assert x * y == -((-x) * y);
    } else {
      assert x * y == -(x * (-y));
    }
  }

  lemma MulAtLeast(n: int, p: nat)
    requires n >= 1
    ensures n * p >= p
  {
    assert n * p == (n - 1) * p + p;
  }

  lemma MulStep(d: int, q: int, b: nat)
    requires d < q
    ensures d * b + b <= q * b
  {
    MulAtLeast(q - d, b);
    assert q * b == d * b + (q - d) * b;
  }

  /** The floor of a quotient is the one number this near. */
  lemma DivUnique(a: int, b: nat, q: int)
    requires b > 0 && q * b <= a < q * b + b
    ensures a / b == q
  {
    var d := a / b;
    assert d * b <= a < d * b + b by {
      assert a == b * d + a % b;
    }
    if d < q {
      MulStep(d, q, b);
    } else if q < d {
      MulStep(q, d, b);
    }
  }

  lemma DivBack(a: int, b: nat)
    requires b > 0
    ensures a * b / b == a
  {
    DivUnique(a * b, b, a);
  }

  /** A quotient times the divisor is less than one divisor away. */
  lemma QuotientNear(a: int, b: int)
    requires b != 0
    ensures Abs(a - Quotient(a, b) * b) < Abs(b)
  {
    var q := Abs(a) / Abs(b);
    assert 0 <= Abs(a) - q * Abs(b) < Abs(b);
    SignsCancel(q, b);
  }

  lemma SignsCancel(q: int, b: int)
    ensures (-q) * b == -(q * b) && q * (-b) == -(q * b)
  {
  }

  /** prim_bitshift; a shift of zero by a word or more has no meaning in the source. */
  method BitShift(bits: int, shift: int) returns (r: Result)
    requires Fits(bits) && (bits == 0 ==> shift < WORD_SIZE)
    ensures shift >= 0 ==> r == if Fits(bits * Pow2(shift)) then Value(bits * Pow2(shift)) else Overflow
    ensures shift < 0 ==> Pow2(-shift) > 0 && r == Value(bits / Pow2(-shift))
  {
    var z;
    if shift >= 0 {
      Pow2Positive(shift);
      if shift >= WORD_SIZE && bits != 0 {
        LargeShift(bits, shift);
        return Overflow;
      }
      z := Wrap(bits * Pow2(shift));
      ShiftTells(bits, shift);
      if !Fits(z) || z / Pow2(shift) != bits {
        return Overflow;
      }
    } else if shift <= -WORD_SIZE {
      Pow2Positive(WORD_SIZE - 1);
      z := bits / Pow2(WORD_SIZE - 1);
      Pow2Positive(-shift);
      SmallOverLarge(bits, -shift);
      SmallOverLarge(bits, WORD_SIZE - 1);
    } else {
      Pow2Positive(-shift);
      z := bits / Pow2(-shift);
    }
    r := Value(z);
  }

  lemma {:induction false} Pow2Sum(a: nat, b: nat)
    ensures Pow2(a + b) == Pow2(a) * Pow2(b)
  {
    if b > 0 {
      Pow2Sum(a, b - 1);
      assert Pow2(a + b) == 2 * Pow2(a + (b - 1)) && Pow2(b) == 2 * Pow2(b - 1);
      DoubleFactor(Pow2(a), Pow2(b - 1));
    }
  }

  lemma DoubleFactor(x: int, y: int)
    ensures 2 * (x * y) == x * (2 * y)
  {
  }

  lemma Powers()
    ensures Pow2(62) == QUARTER && Pow2(63) == HALF && Pow2(64) == WORD
  {
    assert Pow2(8) == 256;
    Pow2Sum(8, 8);
    Pow2Sum(16, 16);
    Pow2Sum(32, 16);
    Pow2Sum(48, 8);
    Pow2Sum(56, 6);
    assert Pow2(6) == 64;
    assert Pow2(62) == QUARTER;
    assert Pow2(63) == 2 * Pow2(62);
    assert Pow2(64) == 2 * Pow2(63);
  }

  lemma {:induction false} Pow2Monotone(a: nat, b: nat)
    requires a <= b
    ensures Pow2(a) <= Pow2(b)
  {
    if a < b {
      Pow2Grows(a, b);
    }
  }

  lemma LargeShift(bits: int, shift: nat)
    requires bits != 0 && shift >= WORD_SIZE
    ensures !Fits(bits * Pow2(shift))
  {
    Powers();
    Pow2Monotone(64, shift);
    var p := Pow2(shift);
    if bits > 0 {
      MulAtLeast(bits, p);
    } else {
      MulAtLeast(-bits, p);
      assert bits * p == -((-bits) * p);
    }
  }

  /** Shifting back gives the number again just when nothing was lost. */
  lemma ShiftTells(bits: int, shift: nat)
    requires Fits(bits) && (shift < WORD_SIZE || bits == 0) && Pow2(shift) > 0
    ensures var z := Wrap(bits * Pow2(shift));
      z / Pow2(shift) == bits <==> z == bits * Pow2(shift)
  {
    var p := Pow2(shift);
    DivBack(bits, p);
    var k := WrapBy(bits * p);
    if bits != 0 && k != 0 {
      Powers();
      Pow2Sum(64 - shift, shift);
      Pow2Positive(64 - shift);
      LostBits(bits, k, Pow2(64 - shift), p);
    }
  }

  lemma LostBits(bits: int, k: int, q: nat, p: nat)
    requires k != 0 && q > 0 && p > 0 && q * p == WORD
    ensures (bits * p - k * WORD) / p != bits && k * WORD != 0
  {
    assert bits * p - k * WORD == (bits - k * q) * p by {
      assert k * (q * p) == (k * q) * p;
    }
    DivBack(bits - k * q, p);
    if k > 0 {
      MulAtLeast(k, q);
    } else {
      MulAtLeast(-k, q);
      assert k * q == -((-k) * q);
    }
  }

  lemma SmallOverLarge(bits: int, n: nat)
    requires Fits(bits) && n >= 63 && Pow2(n) > 0
    ensures bits / Pow2(n) == if bits < 0 then -1 else 0
  {
    Powers();
    Pow2Monotone(63, n);
    DivUnique(bits, Pow2(n), if bits < 0 then -1 else 0);
  }
}
