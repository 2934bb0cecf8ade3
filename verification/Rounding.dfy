/** `aligned_size` and `round_size`: what a request with an alignment is rounded
    to, when the size is a multiple of the alignment, and why the object found for
    it is then aligned. */
module Rounding {
  import opened Bits
  import opened ExpMant
  import opened SizeClass
  import SC = SlabCapacity
  import T = SlabTable

  /** Decrement and increment of a 64-bit word. */
  function Pred(x: nat): nat { if x == 0 then WORD - 1 else x - 1 }

  function Succ(x: nat): nat { if x == WORD - 1 then 0 else x + 1 }

  /** `is_small_sizeclass`: the subtraction wraps, so that zero is not small. */
  predicate IsSmall(s: Settings, size: nat)
    requires Shaped(s)
  {
    Pred(size) < SizeOf(s, NumClasses(s) - 1)
  }

  lemma IsSmallRange(s: Settings, size: nat)
    requires Shaped(s) && size < WORD
    ensures IsSmall(s, size) <==> 1 <= size <= Top(s)
    ensures Top(s) < WORD
  {
    hide SizeOf, NumClasses, TableSize, Pow2;
    LastClass(s);
    Pow2Of64();
    Pow2Strict(Max(s.smallBits, s.step), BITS);
  }

  /** The alignment is 2^k. */
  function AlignedSize(s: Settings, k: nat, size: nat): nat
    requires Shaped(s) && k < BITS && size < WORD
  {
    var result := Succ(BitOr(Pow2(k) - 1, Pred(size)));
    if IsSmall(s, result) then result
    else if result == 0 && result < size then WORD - 1
    else result
  }

  function RoundSize(s: Settings, size: nat): nat
    requires Shaped(s) && size < WORD
  {
    IsSmallRange(s, size);
    if IsSmall(s, size) then SizeOf(s, ClassFor(s, size))
    else if size == 0 then SizeOf(s, ClassFor(s, 1))
    else if size > WORD / 2 then size
    else Pow2(NextPow2Bits(size))
  }

  /** The or of the masks rounds up to the alignment; a request too large to
      round becomes the largest word, and an empty one stays empty. */
  lemma AlignedSizeIs(s: Settings, k: nat, size: nat)
    requires Shaped(s) && k < BITS && size < WORD
    ensures size == 0 ==> AlignedSize(s, k, size) == 0
    ensures size > 0 ==> size <= AlignUp(size, k) <= WORD
    ensures size > 0 ==> AlignedSize(s, k, size) == if AlignUp(size, k) == WORD then WORD - 1 else AlignUp(size, k)
  {
    hide IsSmall, Pow2, BitOr, AlignDown, Aligned, Shaped;
    IsSmallRange(s, 0);
    BitOrMask(Pred(size), k);
    MultipleOfWord(k);
    if size == 0 {
      AlignedBelow(WORD - 1, k, WORD);
    } else {
      AlignUpNext(size, k);
      AlignedBelow(size - 1, k, WORD);
    }
  }

  lemma MultipleOfWord(k: nat)
    requires k < BITS
    ensures Aligned(WORD, k)
  {
    Pow2Of64();
    MultipleMod(1, Pow2(BITS));
    AlignedWeaken(WORD, k, BITS);
  }

  /** Rounding up does not pass a larger multiple. */
  lemma AlignedBelow(x: nat, k: nat, limit: nat)
    requires x < limit && Aligned(limit, k)
    ensures AlignDown(x, k) + Pow2(k) <= limit
    ensures x + 1 == limit ==> AlignDown(x, k) + Pow2(k) == limit
  {
    AlignedGap(AlignDown(x, k), limit, k);
  }

  /** The class of a multiple of 2^k has a size that is a multiple of 2^k. */
  lemma ClassKeepsAlignment(s: Settings, r: nat, k: nat)
    requires s.mantissa + s.step <= BITS && 1 <= r <= Pow2(BITS) && Aligned(r, k)
    ensures Aligned(SizeOf(s, ClassOf(s, r)), k) && SizeOf(s, ClassOf(s, r)) >= r
  {
    hide ToExpMant, FromExpMant, Grain, Pow2, Aligned, AlignDown;
    RoundsUp(s.mantissa, s.step, r);
    var g := Grain(s.mantissa, s.step, r);
    AlignUpNext(r, g);
    if k <= g {
      AlignedWeaken(AlignUp(r, g), k, g);
    } else {
      AlignedWeaken(r, g, k);
      AlignedBelow(r - 1, g, r);
    }
  }

  /** The size of the smallest class in use. */
  function MinimumSize(s: Settings): nat
    requires Shaped(s)
  {
    SizeOf(s, MinimumClass(s))
  }

  /** The request is below the smallest class in use, and that is no multiple of the alignment. */
  predicate Misaligned(s: Settings, k: nat, r: nat)
    requires Shaped(s) && r >= 1
  {
    r <= Top(s) && r <= Pow2(BITS) && ClassOf(s, r) < MinimumClass(s) && !Aligned(MinimumSize(s), k)
  }

  /** A request of `size` bytes aligned to 2^k gets at least that many bytes, and
      their number is a multiple of 2^k unless the smallest class in use, which
      the rounded request falls below, is not. */
  lemma RoundedIsAligned(s: Settings, k: nat, size: nat)
    requires Legal(s) && k < BITS && 1 <= size < WORD && AlignUp(size, k) <= WORD / 2
    ensures AlignUp(size, k) >= 1 && AlignedSize(s, k, size) < WORD
    ensures var z := RoundSize(s, AlignedSize(s, k, size));
      z >= size && (Aligned(z, k) <==> !Misaligned(s, k, AlignUp(size, k)))
  {
    hide AlignUp, AlignDown, Aligned, AlignedSize, RoundSize, SizeOf, ClassFor, Pow2, NextPow2Bits, Misaligned;
    hide Shaped, Top, NumClasses, TableSize, MinimumClass;
    var r := AlignUp(size, k);
    AlignedSizeIs(s, k, size);
    AlignUpNext(size, k);
    RoundSizeIs(s, r);
    if r <= Top(s) { SmallRounded(s, r, k); } else { LargeRounded(s, r, k); }
  }

  lemma RoundSizeIs(s: Settings, r: nat)
    requires Shaped(s) && 1 <= r <= WORD / 2
    ensures RoundSize(s, r) == if r <= Top(s) then SizeOf(s, ClassFor(s, r)) else Pow2(NextPow2Bits(r))
  {
    hide SizeOf, ClassFor, Pow2, NextPow2Bits, IsSmall, Shaped, Top;
    IsSmallRange(s, r);
  }

  /** Rounding never goes down, leaves alone what is too large to allocate, gives an
      empty request the smallest class in use, and repeats itself. */
  lemma RoundSizeSettles(s: Settings, size: nat)
    requires Legal(s) && size < WORD
    ensures size <= RoundSize(s, size) < WORD
    ensures size == 0 ==> RoundSize(s, size) == MinimumSize(s)
    ensures size > WORD / 2 ==> RoundSize(s, size) == size
    ensures RoundSize(s, RoundSize(s, size)) == RoundSize(s, size)
  {
    hide RoundSize, SizeOf, ClassFor, ClassOf, Pow2, NextPow2Bits, NumClasses, TableSize, MinimumClass, Shaped, IsSmall;
    assert Shaped(s);
    RoundSizeEdges(s, size);
    if 0 < size <= WORD / 2 { RoundSizeIs(s, size); }
    var r := if size == 0 then 1 else size;
    if r <= Top(s) {
      SmallSettles(s, r);
      RoundSizeIs(s, SizeOf(s, ClassFor(s, r)));
    } else if size <= WORD / 2 {
      PowerSettles(s, size);
      RoundSizeIs(s, Pow2(NextPow2Bits(size)));
    } else {
      RoundSizeEdges(s, RoundSize(s, size));
    }
  }

  lemma RoundSizeEdges(s: Settings, size: nat)
    requires Legal(s) && size < WORD
    ensures 1 <= Top(s) <= WORD / 2
    ensures size == 0 ==> RoundSize(s, size) == SizeOf(s, ClassFor(s, 1)) == MinimumSize(s)
    ensures size > WORD / 2 ==> RoundSize(s, size) == size
  {
    hide SizeOf, Pow2, NextPow2Bits, IsSmall, ClassOf, NumClasses, TableSize, MinimumClass;
    IsSmallRange(s, size);
    Pow2Of64();
    Pow2Next(63);
    Pow2Monotone(Max(s.smallBits, s.step), 63);
    InWord(Max(s.smallBits, s.step));
    StepPositive(s);
    FirstSize(s);
    ClassIs(s, 1, 0);
  }

  lemma SmallSettles(s: Settings, r: nat)
    requires Legal(s) && 1 <= r <= Top(s)
    ensures r <= SizeOf(s, ClassFor(s, r)) <= Top(s)
    ensures ClassFor(s, SizeOf(s, ClassFor(s, r))) == ClassFor(s, r)
  {
    hide Pow2, ToExpMant, FromExpMant, NumClasses, TableSize, MinimumClass;
    InWord(Max(s.smallBits, s.step));
    LastClass(s);
    MinimumInUse(s);
    var c := ClassFor(s, r);
    ClassFits(s, r);
    SizesMonotone(s, ClassOf(s, r), c);
    Adjoint(s.mantissa, s.step, r, NumClasses(s) - 1);
    SizesMonotone(s, c, NumClasses(s) - 1);
    RoundTrip(s.mantissa, s.step, c);
  }

  lemma PowerSettles(s: Settings, size: nat)
    requires Shaped(s) && Top(s) < size <= WORD / 2
    ensures var z := Pow2(NextPow2Bits(size)); size <= z <= WORD / 2 && Pow2(NextPow2Bits(z)) == z && Top(s) < z
  {
    hide Pow2, NextPow2Bits;
    var n := NextPow2Bits(size);
    NextPow2Least(size, n);
    Pow2Of64();
    Pow2Next(63);
    NextPow2Least(size, 63);
    Pow2Monotone(n, 63);
    T.PowerBits(n);
  }

  lemma SmallRounded(s: Settings, r: nat, k: nat)
    requires Shaped(s) && 1 <= r <= Top(s) && Aligned(r, k)
    ensures var z := SizeOf(s, ClassFor(s, r)); z >= r && (Aligned(z, k) <==> !Misaligned(s, k, r))
  {
    hide SizeOf, ClassOf, Pow2, Aligned, MinimumClass;
    InWord(Max(s.smallBits, s.step));
    ClassKeepsAlignment(s, r, k);
    if ClassOf(s, r) < MinimumClass(s) { SizesMonotone(s, ClassOf(s, r), MinimumClass(s)); }
  }

  lemma LargeRounded(s: Settings, r: nat, k: nat)
    requires Shaped(s) && r > Top(s) && r >= 1 && Aligned(r, k)
    ensures Pow2(NextPow2Bits(r)) >= r && Aligned(Pow2(NextPow2Bits(r)), k) && !Misaligned(s, k, r)
  {
    hide Top, Shaped, MinimumClass, ClassOf;
    var n := NextPow2Bits(r);
    AtLeastPower(r, k);
    NextPow2Least(r, n);
    if n < k { Pow2Strict(n, k); }
    MultipleMod(1, Pow2(n));
    AlignedWeaken(Pow2(n), k, n);
  }

  lemma AtLeastPower(r: nat, k: nat)
    requires r >= 1 && Aligned(r, k)
    ensures Pow2(k) <= r
  {
    MultipleMod(0, Pow2(k));
    AlignedGap(0, r, k);
  }

  // ----- which builds are safe

  ghost predicate PowerOfTwo(x: nat) { exists n: nat :: Pow2(n) == x }

  /** What a request aligned to 2^k is rounded to is a multiple of 2^k. */
  ghost predicate Serves(s: Settings, k: nat, size: nat)
    requires Shaped(s) && k < BITS && size < WORD
  {
    AlignedSize(s, k, size) < WORD && Aligned(RoundSize(s, AlignedSize(s, k, size)), k)
  }

  ghost predicate AlwaysServes(s: Settings)
    requires Shaped(s)
  {
    forall k: nat, size: nat :: k < BITS && 1 <= size < WORD && AlignUp(size, k) <= WORD / 2 ==> Serves(s, k, size)
  }

  /** A build meets every alignment exactly if the smallest class in use has a
      power of two for its size. */
  lemma AlwaysServesWhen(s: Settings)
    requires Legal(s)
    ensures AlwaysServes(s) <==> PowerOfTwo(MinimumSize(s))
  {
    hide Aligned, Pow2, AlignUp, Misaligned, PowerOfTwo, MinimumSize, Serves, NumClasses, TableSize, MinimumClass;
    if PowerOfTwo(MinimumSize(s)) {
      forall k: nat, size: nat | k < BITS && 1 <= size < WORD && AlignUp(size, k) <= WORD / 2 ensures Serves(s, k, size) {
        ServesWhen(s, k, size);
        AlignUpNext(size, k);
        PowerIsSafe(s, k, AlignUp(size, k));
      }
    } else {
      var k := OtherwiseNot(s);
      AlignUpSame(k);
      ServesWhen(s, k, Pow2(k));
    }
  }

  lemma ServesWhen(s: Settings, k: nat, size: nat)
    requires Legal(s) && k < BITS && 1 <= size < WORD && AlignUp(size, k) <= WORD / 2
    ensures AlignUp(size, k) >= 1 && (Serves(s, k, size) <==> !Misaligned(s, k, AlignUp(size, k)))
  {
    hide Aligned, Pow2, AlignUp, Misaligned, RoundSize, AlignedSize, NumClasses, TableSize, MinimumClass;
    RoundedIsAligned(s, k, size);
  }

  lemma AlignUpSame(k: nat)
    ensures AlignUp(Pow2(k), k) == Pow2(k)
  {
    hide Pow2;
    MulAligned(1, k);
    AlignDownUnique(Pow2(k), Pow2(k) + Pow2(k) - 1, k);
  }

  lemma PowerIsSafe(s: Settings, k: nat, r: nat)
    requires Legal(s) && PowerOfTwo(MinimumSize(s)) && r >= 1 && Aligned(r, k)
    ensures !Misaligned(s, k, r)
  {
    hide Aligned, Pow2, ClassOf, SizeOf, MinimumClass, NumClasses, TableSize, Top;
    var n: nat :| Pow2(n) == MinimumSize(s);
    if r <= Top(s) && r <= Pow2(BITS) && ClassOf(s, r) < MinimumClass(s) {
      BelowMinimum(s, r);
      AtLeastPower(r, k);
      if n < k { Pow2Strict(n, k); }
      MulAligned(1, n);
      AlignedWeaken(Pow2(n), k, n);
    }
  }

  lemma BelowMinimum(s: Settings, r: nat)
    requires Shaped(s) && 1 <= r <= Pow2(BITS)
    ensures ClassOf(s, r) < MinimumClass(s) <==> MinimumClass(s) > 0 && r <= SizeOf(s, MinimumClass(s) - 1)
    ensures ClassOf(s, r) < MinimumClass(s) ==> r < MinimumSize(s)
  {
    hide ToExpMant, FromExpMant, Pow2, MinimumClass;
    var c := MinimumClass(s);
    if c > 0 {
      Adjoint(s.mantissa, s.step, r, c - 1);
      SizesGrow(s, c - 1);
    }
  }

  /** Otherwise the largest power of two below it fails. */
  lemma OtherwiseNot(s: Settings) returns (k: nat)
    requires Legal(s) && !PowerOfTwo(MinimumSize(s))
    ensures k < BITS && 1 <= Pow2(k) <= WORD / 2 && Aligned(Pow2(k), k) && Misaligned(s, k, Pow2(k))
  {
    hide Aligned, Pow2, ClassOf, SizeOf, MinimumClass, NumClasses, TableSize, PowerOfTwo, BitLen;
    var z, c := MinimumSize(s), MinimumClass(s);
    MinimumInUse(s);
    k := PowerBelow(z);
    assert Pow2(k) != z by { if Pow2(k) == z { PowerFound(k, z); } }
    MulAligned(1, k);
    LastClass(s);
    LimitBelow(s, k);
    StepBelow(s, c, k);
    BelowMinimum(s, Pow2(k));
    if Aligned(z, k) {
      Pow2Next(k);
      AlignedGap(Pow2(k), z, k);
    }
  }

  lemma PowerFound(n: nat, x: nat)
    requires Pow2(n) == x
    ensures PowerOfTwo(x)
  {}

  lemma PowerBelow(z: nat) returns (k: nat)
    requires z > 0
    ensures Pow2(k) <= z < Pow2(k + 1)
  {
    k := BitLen(z) - 1;
  }

  lemma LimitBelow(s: Settings, k: nat)
    requires Shaped(s) && Pow2(k) <= Top(s)
    ensures k < BITS && 1 <= Pow2(k) <= WORD / 2 && Pow2(k) <= Pow2(BITS)
  {
    hide Pow2;
    var n := Max(s.smallBits, s.step);
    if n < k { Pow2Strict(n, k); }
    Pow2Of64();
    Pow2Next(63);
    Pow2Monotone(k, 63);
    InWord(k);
  }

  /** The class below the smallest one in use is a step away, and so at least that power. */
  lemma StepBelow(s: Settings, c: nat, k: nat)
    requires Shaped(s) && c == MinimumClass(s) < Pow2(s.mantissa)
    requires Pow2(k) < SizeOf(s, c) == (c + 1) * Step(s) < Pow2(k + 1)
    ensures c > 0 && Pow2(k) <= SizeOf(s, c - 1)
  {
    hide Pow2, SizeOf, MinimumClass, Aligned;
    var L := s.step;
    if k < L { Pow2Monotone(k + 1, L); MulMonotone(1, c + 1, Step(s)); }
    MulAligned(1, k);
    AlignedWeaken(Pow2(k), L, k);
    MulAligned(c + 1, L);
    AlignedGap(Pow2(k), (c + 1) * Step(s), L);
    Distribute(c, 1, Step(s));
    if c == 0 { assert false; }
    FirstSizes(s, c - 1);
  }

  /** With a minimum of 48 bytes, 32 bytes aligned to 32 become 48. */
  lemma MinimumOf48Breaks()
    ensures var s := Settings(2, 4, 16, 48);
      && Legal(s) && AlignedSize(s, 5, 32) == 32 && RoundSize(s, 32) == 48
      && !Aligned(RoundSize(s, AlignedSize(s, 5, 32)), 5) && Misaligned(s, 5, 32)
  {
    var s := Settings(2, 4, 16, 48);
    SmallPowers();
    hide Pow2;
    Instance(s, 2);
    BelowMinimum(s, 32);
    FirstSizes(s, 1);
    assert !Aligned(48, 5);
    RaisedTo(s, 5, 32);
  }

  /** With three intermediate bits and a minimum of 80 bytes, 64 bytes aligned to 64 become 80. */
  lemma MinimumOf80Breaks()
    ensures var s := Settings(3, 4, 16, 80);
      && Legal(s) && AlignedSize(s, 6, 64) == 64 && RoundSize(s, 64) == 80
      && !Aligned(RoundSize(s, AlignedSize(s, 6, 64)), 6) && Misaligned(s, 6, 64)
  {
    var s := Settings(3, 4, 16, 80);
    SmallPowers();
    hide Pow2;
    Instance(s, 4);
    BelowMinimum(s, 64);
    FirstSizes(s, 3);
    assert !Aligned(80, 6);
    RaisedTo(s, 6, 64);
  }

  /** An aligned request below the smallest class in use gets the size of that. */
  lemma RaisedTo(s: Settings, k: nat, r: nat)
    requires Legal(s) && k < BITS && 1 <= r <= Top(s) && Pow2(k) == r && r <= Pow2(BITS) && ClassOf(s, r) < MinimumClass(s)
    ensures r < WORD && AlignedSize(s, k, r) == r && RoundSize(s, r) == MinimumSize(s)
  {
    hide Pow2, AlignedSize, RoundSize, ClassOf, MinimumClass, NumClasses, TableSize, SizeOf;
    LimitBelow(s, k);
    AlignUpSame(k);
    AlignedSizeIs(s, k, r);
    RoundSizeIs(s, r);
  }

  /** The minimum is itself the size of class `c`. */
  lemma Instance(s: Settings, c: nat)
    requires Shaped(s) && s.step == 4 && s.smallBits == 16 && s.mantissa <= 3
    requires 0 < c < Pow2(s.mantissa) && s.minAlloc == (c + 1) * 16
    ensures Legal(s) && MinimumClass(s) == c && MinimumSize(s) == s.minAlloc && Top(s) == 0x1_0000
  {
    SmallPowers();
    hide Pow2, SizeOf, ClassOf, TableSize;
    ClassCount(s);
    FirstSizes(s, c);
    FirstSizes(s, c - 1);
    MinimumFits(s);
    ClassIs(s, s.minAlloc, c);
    LastClass(s);
    Pow2Monotone(s.mantissa, 3);
    MulMonotone(13 - s.mantissa, 13, Pow2(s.mantissa));
  }

  lemma SmallPowers()
    ensures Pow2(2) == 4 && Pow2(3) == 8 && Pow2(4) == 16 && Pow2(5) == 32 && Pow2(6) == 64 && Pow2(7) == 128
    ensures Pow2(16) == 0x1_0000 <= Pow2(BITS)
  {
    assert Pow2(4) == 16 && Pow2(5) == 32;
    assert Pow2(7) == 128;
    Pow2Of16();
    InWord(16);
  }

  // ----- the objects found

  /** Every object of a class whose size is a multiple of 2^k is aligned to it. */
  lemma ObjectsAligned(b: SC.Build, c: nat, k: nat, addr: nat)
    requires T.ClassOfBuild(b, c) && Aligned(SC.ClassSize(b, c), k)
    ensures Aligned(T.StartOfObject(T.Entry(b, c), T.Shift(b), addr), k)
  {
    hide SC.ClassSize, SC.SlabBits, Pow2, Aligned, AlignDown, T.StartOfObject, NumClasses, SC.CapacityBits;
    var f, size := T.Entry(b, c), SC.ClassSize(b, c);
    var n, slabStart := SC.SlabBits(b, c), addr - T.Offset(f, addr);
    var start := T.StartOfObject(f, T.Shift(b), addr);
    T.ObjectContains(b, c, addr);
    SC.SlabHolds(b, c);
    AtLeastPower(size, k);
    MulMonotone(1, b.objects, size);
    if n < k { Pow2Strict(n, k); }
    SlabAligned(f, addr, n);
    AlignedWeaken(slabStart, k, n);
    MultipleAligned(start - slabStart, size, k);
    AlignedAdd(slabStart, start - slabStart, k);
  }

  lemma SlabAligned(f: T.Fast, addr: nat, b: nat)
    requires f.slabMask + 1 == Pow2(b)
    ensures Aligned(addr - T.Offset(f, addr), b)
  {
    RoundedDown(addr, Pow2(b));
  }

  lemma MultipleAligned(d: nat, size: nat, k: nat)
    requires size > 0 && d % size == 0 && Aligned(size, k)
    ensures Aligned(d, k)
  {
    var p := Pow2(k);
    assert d == (d / size) * size && size == (size / p) * p;
    MulAssoc(d / size, size / p, p);
    MultipleMod((d / size) * (size / p), p);
  }

  /** `size_to_sizeclass_full` of a size that is not small: leading zeros, with a
      subtraction that wraps, so that zero shares class 0 with what is too large. */
  function LargeClass(size: nat): nat
    requires size < WORD
  {
    Pow2Of64();
    Clz(Pred(size))
  }

  /** The large class has the rounded size, and its objects meet every alignment that the size meets. */
  lemma LargeObjectsAligned(s: Settings, size: nat, k: nat, shift: nat, addr: nat)
    requires Shaped(s) && Top(s) < size <= WORD / 2 && addr < WORD
    ensures 0 < LargeClass(size) < BITS
    ensures var f := T.LargeEntry(LargeClass(size));
      && f.size == RoundSize(s, size)
      && T.StartOfObject(f, shift, addr) <= addr < T.StartOfObject(f, shift, addr) + f.size
      && (T.IsStartOfObject(f, addr) <==> T.StartOfObject(f, shift, addr) == addr)
      && (Aligned(f.size, k) ==> Aligned(T.StartOfObject(f, shift, addr), k))
  {
    hide Shaped, T.StartOfObject, T.IsStartOfObject, Pow2, Aligned, AlignDown, BitLen, RoundSize;
    var n := NextPow2Bits(size);
    LargeClassIs(size);
    T.LargeObject(BITS - n, shift, addr);
    RoundSizeIs(s, size);
    var a := AlignDown(addr, n);
    assert Aligned(a, n) && a <= addr < a + Pow2(n);
    if Aligned(addr, n) { AlignDownUnique(addr, addr, n); }
    if Aligned(Pow2(n), k) {
      AtLeastPower(Pow2(n), k);
      if n < k { Pow2Strict(n, k); }
      AlignedWeaken(a, k, n);
    }
  }

  lemma PowerOfNone()
    ensures Pow2(0) == 1
  {}

  lemma LargeClassIs(size: nat)
    requires 1 < size <= WORD / 2
    ensures 0 < NextPow2Bits(size) < BITS && LargeClass(size) == BITS - NextPow2Bits(size)
  {
    hide Pow2, BitLen;
    Pow2Of64();
    Pow2Next(63);
    var n := NextPow2Bits(size);
    NextPow2Least(size, 63);
    NextPow2Least(size, n);
    NextPow2Least(size, 0);
    PowerOfNone();
  }
}
