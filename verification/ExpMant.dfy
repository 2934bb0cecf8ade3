/** The map between sizes and size classes: a class number is an exponent and a
    mantissa of `M` bits, and values are multiples of 2^`L`. */
module ExpMant {
  import opened Bits

  /** Leading zeros of a 64-bit word. */
  function Clz(x: nat): nat
    requires x < Pow2(BITS)
  {
    BitLenAtMost(x, BITS);
    BITS - BitLen(x)
  }

  lemma BitLenAtMost(x: nat, n: nat)
    ensures BitLen(x) <= n <==> x < Pow2(n)
  {
    if BitLen(x) <= n { Pow2Monotone(BitLen(x), n); } else { Pow2Monotone(n, BitLen(x) - 1); }
  }

  /** `clz_const`: test the bits from the top. */
  method ClzConst(x: nat) returns (n: nat)
    requires x < Pow2(BITS)
    ensures n == Clz(x)
  {
    hide Pow2, BitLen, Shr;
    n := 0;
    var i := BITS;
    while i > 0
      invariant 0 <= i <= BITS && n == BITS - i && x < Pow2(i)
    {
      i := i - 1;
      BitAt(x, i);
      if Shr(x, i) % 2 == 1 {
        BitLenUnique(x, i + 1);
        return;
      }
      n := n + 1;
    }
    BitLenAtMost(x, 0);
  }

  lemma BitAt(x: nat, i: nat)
    requires x < Pow2(i + 1)
    ensures Shr(x, i) % 2 == 1 <==> x >= Pow2(i)
  {
    var p := Pow2(i);
    if x >= p { ShrUnique(x, i, 1, x - p); } else { ShrUnique(x, i, 0, x); }
  }

  function LeadingBit(n: nat): nat { Pow2(n) / 2 }

  lemma LeadingLen(n: nat)
    ensures BitLen(LeadingBit(n)) == n
  {
    if n > 0 { BitLenUnique(LeadingBit(n), n); }
  }

  /** The exponent as the code computes it, from the leading zeros. */
  function Exponent(M: nat, L: nat, w: nat): (e: nat)
    requires w < Pow2(BITS) && M + L <= BITS
    ensures e == Max(BitLen(w), M + L) - (M + L)
  {
    BitLenOr(w, LeadingBit(M + L));
    LeadingLen(M + L);
    BitLenAtMost(w, BITS);
    BitLenAtMost(BitOr(w, LeadingBit(M + L)), BITS);
    BITS - M - L - Clz(BitOr(w, LeadingBit(M + L)))
  }

  function ToExpMant(M: nat, L: nat, v: nat): nat
    requires 1 <= v <= Pow2(BITS) && M + L <= BITS
  {
    var w := v - 1;
    var e := Exponent(M, L, w);
    var b := if e == 0 then 0 else 1;
    var m := Low(Shr(w, L + e - b), M);
    Shl(e, M) + m
  }

  /** The value of the exponent and mantissa packed into `n`. */
  function Unpack(M: nat, L: nat, n: nat): nat {
    var m, e := Low(n, M), Shr(n, M);
    var b := if e == 0 then 0 else 1;
    (m + b * Pow2(M)) * Pow2(e - b + L)
  }

  function FromExpMant(M: nat, L: nat, c: nat): nat {
    if M > 0 then Unpack(M, L, c + 1) else Pow2(c + L)
  }

  lemma FromIsUnpack(M: nat, L: nat, c: nat)
    ensures FromExpMant(M, L, c) == Unpack(M, L, c + 1)
  {
    if M == 0 { ShrUnique(c + 1, 0, c + 1, 0); }
  }

  /** Gap between neighbouring classes. */
  function Gap(M: nat, L: nat, n: nat): (g: nat)
    ensures g > 0
  {
    Pow2((if Shr(n, M) == 0 then 0 else Shr(n, M) - 1) + L)
  }

  lemma UnpackParts(M: nat, L: nat, n: nat, e: nat, m: nat)
    requires m < Pow2(M) && n == Shl(e, M) + m
    ensures Unpack(M, L, n) == if e == 0 then m * Pow2(L) else (m + Pow2(M)) * Pow2(e - 1 + L)
    ensures Gap(M, L, n) == if e == 0 then Pow2(L) else Pow2(e - 1 + L)
  {
    ShrUnique(n, M, e, m);
    hide Shr, Low, Pow2;
  }

  lemma UnpackStep(M: nat, L: nat, n: nat)
    ensures Unpack(M, L, n + 1) == Unpack(M, L, n) + Gap(M, L, n)
  {
    hide Unpack, Gap, Shr, Low;
    var p, m, e := Pow2(M), Low(n, M), Shr(n, M);
    ShrLow(n, M);
    UnpackParts(M, L, n, e, m);
    if m + 1 < p {
      UnpackParts(M, L, n + 1, e, m + 1);
      hide Pow2;
      Distribute(m, 1, Gap(M, L, n));
      Distribute(m + p, 1, Gap(M, L, n));
    } else {
      Distribute(e, 1, p);
      UnpackParts(M, L, n + 1, e + 1, 0);
      Distribute(m, 1, Pow2(L));
      if e > 0 {
        Pow2Next(e - 1 + L);
        hide Pow2;
        var g := Pow2(e - 1 + L);
        MulAssoc(p, 2, g);
        Distribute(m + p, 1, g);
      }
    }
  }

  lemma Distribute(a: nat, b: nat, g: nat)
    ensures (a + b) * g == a * g + b * g
  {}

  lemma {:induction false} UnpackMonotone(M: nat, L: nat, i: nat, j: nat)
    requires i <= j
    ensures Unpack(M, L, i) <= Unpack(M, L, j)
    decreases j - i
  {
    if i < j {
      UnpackStep(M, L, j - 1);
      UnpackMonotone(M, L, i, j - 1);
    }
  }

  /** Distance between the values near `v`. */
  function Grain(M: nat, L: nat, v: nat): nat
    requires 1 <= v <= Pow2(BITS) && M + L <= BITS
  {
    var e := Exponent(M, L, v - 1);
    if e == 0 then L else L + e - 1
  }

  lemma GrainIs(M: nat, L: nat, v: nat)
    requires 1 <= v <= Pow2(BITS) && M + L <= BITS
    ensures var n := BitLen(v - 1); Grain(M, L, v) == if n <= M + L then L else n - M - 1
  {
    hide Pow2, BitLen, Clz, BitOr, LeadingBit;
  }

  lemma ToUnpacked(M: nat, L: nat, v: nat)
    requires 1 <= v <= Pow2(BITS) && M + L <= BITS
    ensures var c, s := ToExpMant(M, L, v), Grain(M, L, v);
      Unpack(M, L, c) == Shr(v - 1, s) * Pow2(s) && Gap(M, L, c) == Pow2(s)
  {
    hide *;
    var e, s := Exponent(M, L, v - 1), Grain(M, L, v);
    ToIs(M, L, v, e, s);
    MantissaRange(M, L, v - 1, e, s);
    ToUnpackedFrom(M, L, e, s, Shr(v - 1, s));
  }

  lemma ToIs(M: nat, L: nat, v: nat, e: nat, s: nat)
    requires 1 <= v <= Pow2(BITS) && M + L <= BITS
    requires e == Exponent(M, L, v - 1) && s == Grain(M, L, v)
    ensures s == if e == 0 then L else L + e - 1
    ensures ToExpMant(M, L, v) == Shl(e, M) + Low(Shr(v - 1, s), M)
  {
    hide Exponent, Shr, Shl, Low, Pow2;
  }

  lemma ToUnpackedFrom(M: nat, L: nat, e: nat, s: nat, q: nat)
    requires s == if e == 0 then L else L + e - 1
    requires if e == 0 then q < Pow2(M) else Pow2(M) <= q < 2 * Pow2(M)
    ensures var c := Shl(e, M) + Low(q, M);
      Unpack(M, L, c) == q * Pow2(s) && Gap(M, L, c) == Pow2(s)
  {
    hide Unpack, Gap, Shr, Shl, Low, Pow2;
    var p := Pow2(M);
    if e == 0 { ShrUnique(q, M, 0, q); } else { ShrUnique(q, M, 1, q - p); }
    UnpackParts(M, L, Shl(e, M) + Low(q, M), e, Low(q, M));
  }

  /** The class of `v` is `v` rounded up to the grain, and the class below it falls short. */
  lemma RoundsUp(M: nat, L: nat, v: nat)
    requires 1 <= v <= Pow2(BITS) && M + L <= BITS
    ensures FromExpMant(M, L, ToExpMant(M, L, v)) == AlignUp(v, Grain(M, L, v))
    ensures Unpack(M, L, ToExpMant(M, L, v)) < v
  {
    hide *;
    ToUnpacked(M, L, v);
    UnpackStep(M, L, ToExpMant(M, L, v));
    FromIsUnpack(M, L, ToExpMant(M, L, v));
    AlignUpNext(v, Grain(M, L, v));
    AlignDownIs(v - 1, Grain(M, L, v));
  }

  lemma MantissaRange(M: nat, L: nat, w: nat, e: nat, s: nat)
    requires e == Max(BitLen(w), M + L) - (M + L) && s == (if e == 0 then L else L + e - 1)
    ensures var q := Shr(w, s);
      if e == 0 then q < Pow2(M) else Pow2(M) <= q < 2 * Pow2(M)
  {
    hide Shr, Pow2, BitLen;
    var g, q := Pow2(s), Shr(w, s);
    assert e > 0 ==> BitLen(w) == M + s + 1;
    Pow2Next(M + s);
    ShrLow(w, s);
    Pow2Sum(M, s);
    if e == 0 {
      Pow2Monotone(BitLen(w), M + L);
      if q >= Pow2(M) { MulMonotone(Pow2(M), q, g); }
    } else {
      Distribute(q, 1, g);
      MulAssoc(2, Pow2(M), g);
      if q < Pow2(M) { MulMonotone(q + 1, Pow2(M), g); }
      if q >= 2 * Pow2(M) { MulMonotone(2 * Pow2(M), q, g); }
    }
  }

  /** The maps are adjoint: the class of `v` is the least class with a value of at least `v`. */
  lemma Adjoint(M: nat, L: nat, v: nat, c: nat)
    requires 1 <= v <= Pow2(BITS) && M + L <= BITS
    ensures ToExpMant(M, L, v) <= c <==> v <= FromExpMant(M, L, c)
  {
    var t := ToExpMant(M, L, v);
    RoundsUp(M, L, v);
    FromIsUnpack(M, L, t);
    FromIsUnpack(M, L, c);
    if t <= c { UnpackMonotone(M, L, t + 1, c + 1); } else { UnpackMonotone(M, L, c + 1, t); }
  }

  /** Every class is the class of its own value. */
  lemma RoundTrip(M: nat, L: nat, c: nat)
    requires FromExpMant(M, L, c) <= Pow2(BITS) && M + L <= BITS
    ensures FromExpMant(M, L, c) >= 1 && ToExpMant(M, L, FromExpMant(M, L, c)) == c
  {
    FromIsUnpack(M, L, c);
    UnpackStep(M, L, c);
    var v := FromExpMant(M, L, c);
    Adjoint(M, L, v, c);
    if c > 0 {
      FromIsUnpack(M, L, c - 1);
      Adjoint(M, L, v, c - 1);
    }
  }
}
