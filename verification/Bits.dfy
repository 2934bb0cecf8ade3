/** Powers of two, alignment and bit lengths on unbounded integers. */
module Bits {

  function Pow2(n: nat): (p: nat)
    ensures p > 0
  {
    if n == 0 then 1 else 2 * Pow2(n - 1)
  }

  /** The bits and the values of a word. */
  const BITS: nat := 64
  const WORD: nat := 0x1_0000_0000_0000_0000

  function Max(a: nat, b: nat): nat { if a < b then b else a }

  function Min(a: nat, b: nat): nat { if a < b then a else b }

  lemma {:induction false} Pow2Monotone(a: nat, b: nat)
    requires a <= b
    ensures Pow2(a) <= Pow2(b)
    decreases b
  {
    if a < b { Pow2Monotone(a, b - 1); }
  }

  lemma Pow2Strict(a: nat, b: nat)
    requires a < b
    ensures 2 * Pow2(a) <= Pow2(b)
  {
    Pow2Monotone(a + 1, b);
  }

  lemma {:induction false} Pow2Sum(a: nat, b: nat)
    ensures Pow2(a + b) == Pow2(a) * Pow2(b)
  {
    if a > 0 { Pow2Sum(a - 1, b); }
  }

  lemma Pow2Of16()
    ensures Pow2(4) == 16 && Pow2(8) == 0x100 && Pow2(16) == 0x1_0000
  {
    assert Pow2(3) == 8;
    Pow2Sum(4, 4);
    Pow2Sum(8, 8);
  }

  lemma Pow2Of64()
    ensures Pow2(32) == 0x1_0000_0000
    ensures Pow2(63) == 0x8000_0000_0000_0000 && Pow2(64) == 0x1_0000_0000_0000_0000
  {
    Pow2Of16();
    Pow2Sum(16, 16);
    Pow2Sum(32, 32);
  }

  // ----- alignment

  predicate Aligned(x: nat, b: nat) {
    x % Pow2(b) == 0
  }

  function AlignDown(x: nat, b: nat): (r: nat)
    ensures r <= x < r + Pow2(b) && Aligned(r, b)
  {
    RoundedDown(x, Pow2(b));
    x - x % Pow2(b)
  }

  function AlignUp(x: nat, b: nat): nat {
    AlignDown(x + Pow2(b) - 1, b)
  }

  lemma RoundedDown(x: nat, p: nat)
    requires p > 0
    ensures 0 <= x % p <= x && (x - x % p) % p == 0 && (x - x % p) / p == x / p
  {
    assert x - x % p == (x / p) * p;
    MulSign(x / p, p);
    MultipleMod(x / p, p);
  }

  lemma MulSign(d: int, p: nat)
    ensures d >= 1 ==> d * p >= p
    ensures d <= -1 ==> d * p <= -(p as int)
    ensures d >= 0 ==> d * p >= 0
  {}

  lemma MulAssoc(x: int, y: int, z: int)
    ensures x * (y * z) == (x * y) * z
  {}

  lemma MultipleMod(k: int, p: nat)
    requires p > 0
    ensures k * p % p == 0 && k * p / p == k
  {
    DivUnique(k * p, p, k, 0);
  }

  lemma DivUnique(x: int, p: nat, q: int, r: nat)
    requires p > 0 && x == q * p + r && r < p
    ensures x / p == q && x % p == r
  {
    var d := x / p - q;
    assert x == (x / p) * p + x % p;
    assert d * p == r - x % p;
    MulSign(d, p);
  }

  /** An aligned block that contains `x` starts at `x` aligned down. */
  lemma AlignDownUnique(a: nat, x: nat, b: nat)
    requires Aligned(a, b) && a <= x < a + Pow2(b)
    ensures AlignDown(x, b) == a
  {
    var p := Pow2(b);
    assert a == (a / p) * p;
    DivUnique(x, p, a / p, x - a);
  }

  lemma AlignedWeaken(a: nat, b: nat, c: nat)
    requires b <= c && Aligned(a, c)
    ensures Aligned(a, b)
  {
    Pow2Sum(c - b, b);
    var k := a / Pow2(c);
    assert a == k * Pow2(c);
    MulAssoc(k, Pow2(c - b), Pow2(b));
    MultipleMod(k * Pow2(c - b), Pow2(b));
  }

  lemma AlignedAdd(a: nat, n: nat, b: nat)
    requires Aligned(a, b) && Aligned(n, b)
    ensures Aligned(a + n, b) && (n <= a ==> Aligned(a - n, b))
  {
    var p := Pow2(b);
    var i, j := a / p, n / p;
    assert a == i * p && n == j * p;
    assert a + n == (i + j) * p && a - n == (i - j) * p;
    MultipleMod(i + j, p);
    MultipleMod(i - j, p);
  }

  /** Distinct multiples are at least one step apart. */
  lemma AlignedGap(a: nat, c: nat, b: nat)
    requires Aligned(a, b) && Aligned(c, b) && a < c
    ensures a + Pow2(b) <= c
  {
    var p := Pow2(b);
    var i, j := a / p, c / p;
    assert a == i * p && c == j * p;
    assert c - a == (j - i) * p;
    MulSign(j - i, p);
  }

  /** An aligned address sits at one of the two halves of the next larger block. */
  lemma Halves(a: nat, b: nat)
    requires Aligned(a, b)
    ensures a == AlignDown(a, b + 1) || a == AlignDown(a, b + 1) + Pow2(b)
    ensures Aligned(Pow2(b), b)
  {
    var p := AlignDown(a, b + 1);
    AlignedWeaken(p, b, b + 1);
    MultipleMod(1, Pow2(b));
    AlignedAdd(p, Pow2(b), b);
    if p < a {
      AlignedGap(p, a, b);
      if p + Pow2(b) < a { AlignedGap(p + Pow2(b), a, b); }
    }
  }

  // ----- shifts and masks

  function Shr(x: nat, b: nat): (q: nat) {
    MulSign(x / Pow2(b), Pow2(b));
    x / Pow2(b)
  }

  function Shl(x: nat, b: nat): (r: nat) {
    MulSign(x, Pow2(b));
    x * Pow2(b)
  }

  /** The low `b` bits. */
  function Low(x: nat, b: nat): (r: nat)
    ensures r < Pow2(b)
  {
    x % Pow2(b)
  }

  lemma ShrLow(x: nat, b: nat)
    ensures x == Shr(x, b) * Pow2(b) + Low(x, b)
  {}

  lemma ShrUnique(x: nat, b: nat, q: nat, r: nat)
    requires x == q * Pow2(b) + r && r < Pow2(b)
    ensures Shr(x, b) == q && Low(x, b) == r
  {
    DivUnique(x, Pow2(b), q, r);
  }

  lemma AlignDownIs(x: nat, b: nat)
    ensures AlignDown(x, b) == Shr(x, b) * Pow2(b)
  {
    hide Shr, Pow2;
    ShrLow(x, b);
  }

  lemma AlignUpNext(size: nat, k: nat)
    requires size > 0
    ensures AlignUp(size, k) == AlignDown(size - 1, k) + Pow2(k) && Aligned(AlignUp(size, k), k) && AlignUp(size, k) >= size
  {
    var d := AlignDown(size - 1, k);
    MultipleMod(1, Pow2(k));
    AlignedAdd(d, Pow2(k), k);
    AlignDownUnique(d + Pow2(k), size + Pow2(k) - 1, k);
  }

  lemma MulAligned(q: nat, b: nat)
    ensures Aligned(q * Pow2(b), b)
  {
    MultipleMod(q, Pow2(b));
  }

  lemma MulMonotone(a: nat, b: nat, g: nat)
    requires a <= b
    ensures a * g <= b * g
  {
    MulSign(b - a, g);
    assert b * g == a * g + (b - a) * g;
  }

  // ----- bit lengths

  /** Number of bits needed to write `x`: the word size less the leading zeros. */
  function BitLen(x: nat): (n: nat)
    ensures x < Pow2(n) && (n > 0 ==> Pow2(n - 1) <= x)
  {
    if x == 0 then 0 else BitLen(x / 2) + 1
  }

  lemma BitLenUnique(x: nat, n: nat)
    requires x < Pow2(n) && (n > 0 ==> Pow2(n - 1) <= x)
    ensures BitLen(x) == n
  {
    if BitLen(x) < n { Pow2Monotone(BitLen(x), n - 1); }
    if n < BitLen(x) { Pow2Monotone(n, BitLen(x) - 1); }
  }

  /** `next_pow2_bits`. */
  function NextPow2Bits(x: nat): nat
    requires x > 0
  {
    BitLen(x - 1)
  }

  /** The least power of two that is at least `x`. */
  lemma NextPow2Least(x: nat, n: nat)
    requires x > 0
    ensures NextPow2Bits(x) <= n <==> x <= Pow2(n)
  {
    var m := NextPow2Bits(x);
    if m <= n { Pow2Monotone(m, n); } else { Pow2Monotone(n, m - 1); }
  }

  /** Bitwise or of two words. */
  function BitOr(x: nat, y: nat): nat
    decreases x + y
  {
    if x + y == 0 then 0
    else 2 * BitOr(x / 2, y / 2) + (if x % 2 == 1 || y % 2 == 1 then 1 else 0)
  }

  /** The highest one bit of an or is that of the larger operand. */
  lemma {:induction false} BitLenOr(x: nat, y: nat)
    ensures BitLen(BitOr(x, y)) == if BitLen(x) < BitLen(y) then BitLen(y) else BitLen(x)
    decreases x + y
  {
    if x + y > 0 {
      BitLenOr(x / 2, y / 2);
      assert BitOr(x, y) / 2 == BitOr(x / 2, y / 2);
      assert BitOr(x, y) > 0 by { BitOrPositive(x, y); }
    }
  }

  lemma {:induction false} BitOrPositive(x: nat, y: nat)
    requires x + y > 0
    ensures BitOr(x, y) > 0
    decreases x + y
  {
    if x / 2 + y / 2 > 0 { BitOrPositive(x / 2, y / 2); }
  }

  /** Setting the low `b` bits. */
  lemma {:induction false} BitOrMask(x: nat, b: nat)
    ensures BitOr(Pow2(b) - 1, x) == AlignDown(x, b) + Pow2(b) - 1
    decreases b, x
  {
    hide AlignDown, Aligned, BitOr;
    if b == 0 {
      BitOrZero(x);
      AlignDownOne(x);
    } else {
      hide Pow2;
      Pow2Next(b - 1);
      BitOrMask(x / 2, b - 1);
      AlignDownHalf(x, b - 1);
      BitOrOdd(Pow2(b - 1) - 1, x);
    }
  }

  lemma Pow2Next(b: nat)
    ensures Pow2(b + 1) == 2 * Pow2(b)
  {}

  lemma BitOrOdd(h: nat, x: nat)
    ensures BitOr(2 * h + 1, x) == 2 * BitOr(h, x / 2) + 1
  {}

  lemma AlignDownOne(x: nat)
    ensures AlignDown(x, 0) == x
  {}

  lemma AlignDownHalf(x: nat, b: nat)
    ensures AlignDown(x, b + 1) == 2 * AlignDown(x / 2, b)
  {
    hide AlignDown;
    AlignDownIs(x / 2, b);
    var q, p := Shr(x / 2, b), Pow2(b);
    assert Pow2(b + 1) == 2 * p;
    assert 2 * (q * p) == q * (2 * p);
    hide Pow2, Shr;
    MulAligned(q, b + 1);
    AlignDownUnique(2 * (q * p), x, b + 1);
  }

  lemma {:induction false} BitOrZero(x: nat)
    ensures BitOr(0, x) == x
  {
    if x > 0 { BitOrZero(x / 2); }
  }

  /** Bitwise exclusive or of two words. */
  function BitXor(x: nat, y: nat): nat
    decreases x + y
  {
    if x + y == 0 then 0
    else 2 * BitXor(x / 2, y / 2) + (if x % 2 != y % 2 then 1 else 0)
  }

  lemma {:induction false} BitXorZero(x: nat)
    ensures BitXor(x, 0) == x
  {
    if x > 0 { BitXorZero(x / 2); }
  }

  /** Flipping one bit of a multiple of 2^b moves to the other half of the next larger block. */
  lemma {:induction false} BitXorFlip(x: nat, b: nat)
    requires Aligned(x, b)
    ensures BitXor(x, Pow2(b)) == if AlignDown(x, b + 1) == x then x + Pow2(b) else x - Pow2(b)
    decreases b
  {
    if b == 0 {
      BitXorZero(x / 2);
      AlignDownHalf(x, 0);
      AlignDownOne(x / 2);
    } else {
      AlignedHalf(x, b - 1);
      BitXorFlip(x / 2, b - 1);
      AlignDownHalf(x, b);
      BitXorEven(x / 2, Pow2(b - 1));
    }
  }

  lemma BitXorEven(h: nat, p: nat)
    requires p > 0
    ensures BitXor(2 * h, 2 * p) == 2 * BitXor(h, p)
  {}

  lemma AlignedHalf(x: nat, b: nat)
    requires Aligned(x, b + 1)
    ensures x == 2 * (x / 2) && Aligned(x / 2, b)
  {
    var p, q := Pow2(b), x / Pow2(b + 1);
    assert x == q * (2 * p) == 2 * (q * p);
    MultipleMod(q, p);
  }

  /** Bitwise and of two words. */
  function BitAnd(x: nat, y: nat): nat
    decreases x + y
  {
    if x + y == 0 then 0
    else 2 * BitAnd(x / 2, y / 2) + (if x % 2 == 1 && y % 2 == 1 then 1 else 0)
  }

  lemma {:induction false} BitSums(x: nat, y: nat)
    ensures BitOr(x, y) + BitAnd(x, y) == x + y
    ensures BitXor(x, y) + 2 * BitAnd(x, y) == x + y
    decreases x + y
  {
    if x + y > 0 { BitSums(x / 2, y / 2); }
  }

  /** A mask and its complement divide a word between them. */
  lemma {:induction false} BitAndComplement(x: nat, y: nat, n: nat)
    requires x < Pow2(n) && y < Pow2(n)
    ensures BitAnd(x, y) + BitAnd(x, Pow2(n) - 1 - y) == x
    decreases n
  {
    if n > 0 {
      var p := Pow2(n - 1);
      assert (2 * p - 1 - y) / 2 == p - 1 - y / 2 && (2 * p - 1 - y) % 2 == 1 - y % 2;
      BitAndComplement(x / 2, y / 2, n - 1);
    }
  }

  /** A mask of bits from `b` on. */
  lemma {:induction false} BitAndShifted(x: nat, y: nat, b: nat)
    ensures BitAnd(x, Shl(y, b)) == Shl(BitAnd(Shr(x, b), y), b)
    decreases b
  {
    if b == 0 {
      ShrUnique(x, 0, x, 0);
    } else {
      BitAndShifted(x / 2, y, b - 1);
      ShrHalf(x, b - 1);
      ShlDouble(y, b - 1);
      ShlDouble(BitAnd(Shr(x, b), y), b - 1);
      hide Shl, Shr;
      BitAndEven(x, Shl(y, b - 1));
    }
  }

  lemma BitAndEven(x: nat, z: nat)
    ensures BitAnd(x, 2 * z) == 2 * BitAnd(x / 2, z)
  {
    if x + z == 0 {
      assert BitAnd(0, 0) == 0;
    } else {
      assert 2 * z / 2 == z && 2 * z % 2 == 0;
    }
  }

  lemma ShlDouble(y: nat, b: nat)
    ensures Shl(y, b + 1) == 2 * Shl(y, b)
  {
    MulAssoc(y, 2, Pow2(b));
    MulAssoc(2, y, Pow2(b));
  }

  lemma ShrHalf(x: nat, b: nat)
    ensures Shr(x, b + 1) == Shr(x / 2, b)
  {
    hide Shr, Low;
    ShrLow(x / 2, b);
    var q, r := Shr(x / 2, b), Low(x / 2, b);
    MulAssoc(q, 2, Pow2(b));
    MulAssoc(2, q, Pow2(b));
    ShrUnique(x, b + 1, q, 2 * r + x % 2);
  }

  lemma {:induction false} BitAndOnes(x: nat, b: nat)
    ensures BitAnd(x, Pow2(b) - 1) == Low(x, b)
    decreases b, x
  {
    BitOrMask(x, b);
    BitSums(Pow2(b) - 1, x);
    BitAndCommutes(x, Pow2(b) - 1);
    AlignDownIs(x, b);
    hide AlignDown, Shr, Low, BitAnd, BitOr;
    ShrLow(x, b);
  }

  lemma {:induction false} BitAndCommutes(x: nat, y: nat)
    ensures BitAnd(x, y) == BitAnd(y, x)
    decreases x + y
  {
    if x + y > 0 { BitAndCommutes(x / 2, y / 2); }
  }
}
