/** Size classes of small objects and the table that finds them, for every legal
    setting of the build. */
module SizeClass {
  import opened Bits
  import opened ExpMant

  /** INTERMEDIATE_BITS, MIN_ALLOC_STEP_BITS, MAX_SMALL_SIZECLASS_BITS and MIN_ALLOC_SIZE. */
  datatype Settings = Settings(mantissa: nat, step: nat, smallBits: nat, minAlloc: nat)

  function Step(s: Settings): nat { Pow2(s.step) }

  function SizeOf(s: Settings, c: nat): nat { FromExpMant(s.mantissa, s.step, c) }

  function ClassOf(s: Settings, size: nat): nat
    requires s.mantissa + s.step <= BITS && 1 <= size <= Pow2(BITS)
  {
    ToExpMant(s.mantissa, s.step, size)
  }

  function LookupIndex(s: Settings, size: nat): nat
    requires size >= 1
  {
    Shr(size - 1, s.step)
  }

  function TableSize(s: Settings): nat { LookupIndex(s, Pow2(s.smallBits)) + 1 }

  /** What the build asserts of the sizes alone. */
  ghost predicate Shaped(s: Settings) {
    && s.mantissa < s.step && s.mantissa + s.step <= 30
    && (s.smallBits == 16 || s.smallBits == 19)
    && 16 <= s.minAlloc && Step(s) <= s.minAlloc <= Pow2(s.mantissa + s.step)
  }

  lemma InWord(n: nat)
    requires n <= BITS
    ensures 1 <= Pow2(n) <= Pow2(BITS)
  {
    Pow2Monotone(n, BITS);
  }

  lemma MinimumFits(s: Settings)
    requires Shaped(s)
    ensures 1 <= s.minAlloc <= Pow2(BITS)
  {
    InWord(s.mantissa + s.step);
  }

  function MinimumClass(s: Settings): nat
    requires Shaped(s)
  {
    MinimumFits(s);
    ClassOf(s, s.minAlloc)
  }

  function NumClasses(s: Settings): (n: nat)
    requires Shaped(s)
    ensures n >= 1
  {
    InWord(s.smallBits);
    ClassOf(s, Pow2(s.smallBits)) + 1
  }

  /** A build that its assertions let pass, with fewer classes than an 8-bit
      counter can count. */
  ghost predicate Legal(s: Settings) {
    Shaped(s) && NumClasses(s) < 256 && MinimumClass(s) < TableSize(s)
  }

  /** The largest small size. */
  function Top(s: Settings): nat { Pow2(Max(s.smallBits, s.step)) }

  // ----- sizes

  lemma MultipleOfStep(s: Settings, n: nat)
    ensures Unpack(s.mantissa, s.step, n) % Step(s) == 0
  {
    var M, L := s.mantissa, s.step;
    var m, e := Low(n, M), Shr(n, M);
    ShrLow(n, M);
    UnpackParts(M, L, n, e, m);
    hide Pow2, Shr, Low, Unpack;
    if e == 0 {
      MultipleMod(m, Pow2(L));
    } else {
      var h := m + Pow2(M);
      Pow2Sum(e - 1, L);
      MulAssoc(h, Pow2(e - 1), Pow2(L));
      MultipleMod(h * Pow2(e - 1), Pow2(L));
    }
  }

  /** Class sizes grow and are multiples of the step. */
  lemma SizesGrow(s: Settings, c: nat)
    ensures Step(s) <= SizeOf(s, c) < SizeOf(s, c + 1) && SizeOf(s, c) % Step(s) == 0
  {
    hide Unpack, Gap, Pow2;
    var M, L := s.mantissa, s.step;
    FromIsUnpack(M, L, c);
    FromIsUnpack(M, L, c + 1);
    UnpackStep(M, L, c + 1);
    UnpackStep(M, L, 0);
    UnpackMonotone(M, L, 1, c + 1);
    FirstSize(s);
    MultipleOfStep(s, c + 1);
  }

  lemma FirstSize(s: Settings)
    ensures SizeOf(s, 0) == Unpack(s.mantissa, s.step, 1) == Step(s)
  {
    FromIsUnpack(s.mantissa, s.step, 0);
    UnpackStep(s.mantissa, s.step, 0);
    UnpackParts(s.mantissa, s.step, 0, 0, 0);
  }

  lemma {:induction false} SizesMonotone(s: Settings, c: nat, d: nat)
    requires c <= d
    ensures SizeOf(s, c) <= SizeOf(s, d) && (c < d ==> SizeOf(s, c) < SizeOf(s, d))
    decreases d - c
  {
    hide SizeOf;
    if c < d {
      SizesGrow(s, c);
      SizesMonotone(s, c + 1, d);
    }
  }

  /** The least class of a size. */
  lemma ClassIs(s: Settings, size: nat, c: nat)
    requires s.mantissa + s.step <= BITS && 1 <= size <= Pow2(BITS)
    requires size <= SizeOf(s, c) && (c > 0 ==> SizeOf(s, c - 1) < size)
    ensures ClassOf(s, size) == c
  {
    hide ToExpMant, FromExpMant, Pow2;
    Adjoint(s.mantissa, s.step, size, c);
    if c > 0 { Adjoint(s.mantissa, s.step, size, c - 1); }
  }

  lemma ClassFits(s: Settings, size: nat)
    requires s.mantissa + s.step <= BITS && 1 <= size <= Pow2(BITS)
    ensures size <= SizeOf(s, ClassOf(s, size))
    ensures ClassOf(s, size) > 0 ==> SizeOf(s, ClassOf(s, size) - 1) < size
  {
    hide ToExpMant, FromExpMant, Pow2;
    var c := ClassOf(s, size);
    Adjoint(s.mantissa, s.step, size, c);
    if c > 0 { Adjoint(s.mantissa, s.step, size, c - 1); }
  }

  /** The largest small class ends where small sizes end. */
  lemma LastClass(s: Settings)
    requires Shaped(s)
    ensures SizeOf(s, NumClasses(s) - 1) == Top(s) <= Pow2(BITS) && Top(s) == TableSize(s) * Step(s)
  {
    hide ClassOf, SizeOf, Pow2, TableSize;
    InWord(s.smallBits);
    InWord(Max(s.smallBits, s.step));
    LastSlot(s);
    if s.smallBits < s.step { OneClass(s); } else { PowerKept(s, s.smallBits); }
  }

  /** Each doubling of the size takes 2^mantissa classes. */
  lemma ClassCount(s: Settings)
    requires Shaped(s) && s.mantissa + s.step <= s.smallBits
    ensures NumClasses(s) == (s.smallBits + 1 - s.mantissa - s.step) * Pow2(s.mantissa)
  {
    hide Unpack, Gap, Pow2, ToExpMant, FromExpMant, Low, Shr;
    var M, L, S := s.mantissa, s.step, s.smallBits;
    var e := S + 1 - M - L;
    var n := e * Pow2(M);
    MulMonotone(1, e, Pow2(M));
    FromIsUnpack(M, L, n - 1);
    UnpackParts(M, L, n, e, 0);
    Pow2Sum(M, e - 1 + L);
    InWord(S);
    RoundTrip(M, L, n - 1);
  }

  /** A step beyond the small sizes leaves a single class. */
  lemma OneClass(s: Settings)
    requires Shaped(s) && s.smallBits < s.step
    ensures 1 <= Pow2(s.smallBits) <= Pow2(BITS) && ClassOf(s, Pow2(s.smallBits)) == 0 && SizeOf(s, 0) == Step(s)
  {
    hide ClassOf, SizeOf, Pow2;
    InWord(s.smallBits);
    Pow2Strict(s.smallBits, s.step);
    FirstSize(s);
    ClassIs(s, Pow2(s.smallBits), 0);
  }

  /** Powers of two from the step up are class sizes. */
  lemma PowerKept(s: Settings, n: nat)
    requires s.mantissa + s.step <= BITS && s.step <= n <= BITS
    ensures 1 <= Pow2(n) <= Pow2(BITS) && SizeOf(s, ClassOf(s, Pow2(n))) == Pow2(n)
  {
    hide ToExpMant, FromExpMant, Pow2, Grain, Aligned, AlignDown;
    InWord(n);
    var g := Grain(s.mantissa, s.step, Pow2(n));
    GrainOfPower(s, n);
    RoundsUp(s.mantissa, s.step, Pow2(n));
    MulAligned(1, n);
    AlignedWeaken(Pow2(n), g, n);
    AlignDownUnique(Pow2(n), Pow2(n) + Pow2(g) - 1, g);
  }

  lemma GrainOfPower(s: Settings, n: nat)
    requires s.mantissa + s.step <= BITS && s.step <= n && 1 <= Pow2(n) <= Pow2(BITS)
    ensures Grain(s.mantissa, s.step, Pow2(n)) <= n
  {
    hide *;
    GrainIs(s.mantissa, s.step, Pow2(n));
    BitLenAtMost(Pow2(n) - 1, n);
  }

  lemma LastSlot(s: Settings)
    ensures TableSize(s) * Step(s) == Top(s)
  {
    var S, L := s.smallBits, s.step;
    hide Pow2;
    if S < L {
      Pow2Strict(S, L);
      ShrUnique(Pow2(S) - 1, L, 0, Pow2(S) - 1);
    } else {
      Pow2Sum(S - L, L);
      Distribute(Pow2(S - L) - 1, 1, Pow2(L));
      ShrUnique(Pow2(S) - 1, L, Pow2(S - L) - 1, Pow2(L) - 1);
    }
  }

  // ----- the lookup table

  /** What the table is for: the least class that fits, from the smallest class in use up. */
  function ClassFor(s: Settings, size: nat): nat
    requires Shaped(s) && 1 <= size <= Top(s)
  {
    InWord(Max(s.smallBits, s.step));
    Max(MinimumClass(s), ClassOf(s, size))
  }

  /** A multiple of the step separates slots, not the sizes of one slot. */
  lemma SlotBound(s: Settings, size: nat, q: nat)
    requires size >= 1
    ensures size <= q * Step(s) <==> LookupIndex(s, size) < q
  {
    var p, i := Step(s), LookupIndex(s, size);
    ShrLow(size - 1, s.step);
    hide Pow2, Shr, Low;
    Distribute(i, 1, p);
    if i < q { MulMonotone(i + 1, q, p); } else { MulMonotone(q, i, p); }
  }

  /** All sizes of one table slot have the same class. */
  lemma SameSlot(s: Settings, size: nat, other: nat)
    requires s.mantissa + s.step <= BITS && 1 <= size <= Pow2(BITS) && 1 <= other <= Pow2(BITS)
    requires LookupIndex(s, size) == LookupIndex(s, other)
    ensures ClassOf(s, size) == ClassOf(s, other)
  {
    hide ToExpMant, FromExpMant, Pow2, SizeOf, ClassOf, LookupIndex;
    var c := ClassOf(s, size);
    ClassFits(s, size);
    SlotSide(s, size, other, c);
    if c > 0 { SlotSide(s, size, other, c - 1); }
    ClassIs(s, other, c);
  }

  lemma SlotSide(s: Settings, size: nat, other: nat, c: nat)
    requires size >= 1 && other >= 1 && LookupIndex(s, size) == LookupIndex(s, other)
    ensures size <= SizeOf(s, c) <==> other <= SizeOf(s, c)
  {
    hide Pow2, SizeOf, LookupIndex;
    SizesGrow(s, c);
    var q := SizeOf(s, c) / Step(s);
    assert q * Step(s) == SizeOf(s, c);
    SlotBound(s, size, q);
    SlotBound(s, other, q);
  }

  /** The first size of a slot. */
  function SlotStart(s: Settings, i: nat): nat { i * Step(s) + 1 }

  lemma SlotStartIs(s: Settings, i: nat)
    ensures SlotStart(s, i) >= 1 && LookupIndex(s, SlotStart(s, i)) == i
    ensures SlotStart(s, i) + Step(s) == SlotStart(s, i + 1)
    ensures i < TableSize(s) <==> SlotStart(s, i) <= Top(s)
  {
    LastSlot(s);
    hide TableSize, Top;
    ShrUnique(i * Step(s), s.step, i, 0);
    Distribute(i, 1, Step(s));
    SlotBound(s, SlotStart(s, i), TableSize(s));
  }

  /** The slots below `n` hold their class. */
  ghost predicate Filled(s: Settings, table: seq<nat>, n: nat)
    requires Shaped(s) && |table| == TableSize(s)
  {
    n <= |table| && forall i :: 0 <= i < n ==> SlotStart(s, i) <= Top(s) && table[i] == ClassFor(s, SlotStart(s, i))
  }

  lemma FillOne(s: Settings, table: seq<nat>, n: nat, c: nat)
    requires Shaped(s) && |table| == TableSize(s) && Filled(s, table, n)
    requires c < NumClasses(s) && SlotStart(s, n) <= SizeOf(s, c) && (c > 0 ==> SizeOf(s, c - 1) < SlotStart(s, n))
    ensures n < TableSize(s) && SlotStart(s, n) >= 1 && LookupIndex(s, SlotStart(s, n)) == n
    ensures Filled(s, table[n := Max(MinimumClass(s), c)], n + 1)
    ensures SlotStart(s, n) + Step(s) == SlotStart(s, n + 1)
  {
    hide ClassOf, SizeOf, Pow2, SlotStart, TableSize, Top, NumClasses, MinimumClass, LookupIndex, Shaped, ClassFor;
    LastClass(s);
    SizesMonotone(s, c, NumClasses(s) - 1);
    SlotStartIs(s, n);
    ClassForIs(s, SlotStart(s, n), c);
  }

  lemma ClassForIs(s: Settings, size: nat, c: nat)
    requires Shaped(s) && 1 <= size <= Top(s) && size <= SizeOf(s, c) && (c > 0 ==> SizeOf(s, c - 1) < size)
    ensures ClassFor(s, size) == Max(MinimumClass(s), c)
  {
    hide ClassOf, SizeOf, Pow2, MinimumClass;
    InWord(Max(s.smallBits, s.step));
    ClassIs(s, size, c);
  }

  /** The class counter of the constructor has 8 bits. */
  function NextCount(c: nat): nat { (c + 1) % 256 }

  /** Its value after `n` increments. */
  function Count(n: nat): nat { if n == 0 then 0 else NextCount(Count(n - 1)) }

  lemma {:induction false} CountIs(n: nat)
    ensures Count(n) == n % 256
  {
    if n > 0 {
      CountIs(n - 1);
      var q, r := (n - 1) / 256, (n - 1) % 256;
      if r == 255 { DivUnique(n, 256, q + 1, 0); } else { DivUnique(n, 256, q, r + 1); }
      assert NextCount(r) == if r == 255 then 0 else r + 1;
    }
  }

  /** The loop over the classes gets to its end exactly if there are fewer than 256. */
  lemma LoopEndsWhen(s: Settings)
    requires Shaped(s)
    ensures (exists n :: Count(n) >= NumClasses(s)) <==> NumClasses(s) < 256
  {
    hide NumClasses;
    if NumClasses(s) < 256 {
      CountIs(NumClasses(s));
      assert Count(NumClasses(s)) >= NumClasses(s);
    } else {
      forall n ensures Count(n) < NumClasses(s) { CountIs(n); }
    }
  }

  /** The constructor of the lookup table: no slot outside it is ever written. */
  method BuildLookup(s: Settings) returns (table: array<nat>)
    requires Legal(s)
    ensures fresh(table) && table.Length == TableSize(s)
    ensures forall size :: 1 <= size <= Top(s) ==>
      LookupIndex(s, size) < table.Length && table[LookupIndex(s, size)] == ClassFor(s, size)
  {
    hide ClassOf, SizeOf, Pow2, ClassFor, Filled, SlotStart, LookupIndex, TableSize, Top, NumClasses, MinimumClass;
    var minimum, classes := MinimumClass(s), NumClasses(s);
    MinimumInUse(s);
    table := new nat[TableSize(s)](_ => 0);
    var curr: nat := 1;
    ghost var n: nat := 0;
    NothingFilled(s, table[..]);
    var c: nat := 0;
    while c < minimum
      invariant 0 <= c <= minimum && (c > 0 ==> SizeOf(s, c - 1) < curr)
      invariant curr == SlotStart(s, n) && Filled(s, table[..], n)
    {
      while curr <= SizeOf(s, c)
        invariant (c > 0 ==> SizeOf(s, c - 1) < curr) && curr == SlotStart(s, n) && Filled(s, table[..], n)
        decreases SizeOf(s, c) - curr
      {
        FillOne(s, table[..], n, c);
        table[LookupIndex(s, curr)] := minimum;
        StepPositive(s);
        curr, n := curr + Step(s), n + 1;
      }
      c := NextCount(c);
    }
    while c < classes
      invariant minimum <= c <= classes && (c > 0 ==> SizeOf(s, c - 1) < curr)
      invariant curr == SlotStart(s, n) && Filled(s, table[..], n)
    {
      while curr <= SizeOf(s, c)
        invariant (c > 0 ==> SizeOf(s, c - 1) < curr) && curr == SlotStart(s, n) && Filled(s, table[..], n)
        decreases SizeOf(s, c) - curr
      {
        FillOne(s, table[..], n, c);
        var i := LookupIndex(s, curr);
        if i == TableSize(s) { break; }
        table[i] := c;
        StepPositive(s);
        curr, n := curr + Step(s), n + 1;
      }
      c := NextCount(c);
    }
    AllFilled(s, table[..], n);
  }

  lemma StepPositive(s: Settings)
    ensures Step(s) > 0
  {}

  lemma NothingFilled(s: Settings, table: seq<nat>)
    requires Shaped(s) && |table| == TableSize(s)
    ensures Filled(s, table, 0) && SlotStart(s, 0) == 1
  {}

  lemma AllFilled(s: Settings, table: seq<nat>, n: nat)
    requires Shaped(s) && |table| == TableSize(s) && Filled(s, table, n) && SizeOf(s, NumClasses(s) - 1) < SlotStart(s, n)
    ensures forall size :: 1 <= size <= Top(s) ==>
      LookupIndex(s, size) < |table| && table[LookupIndex(s, size)] == ClassFor(s, size)
  {
    hide ClassOf, SizeOf, Pow2, SlotStart, LookupIndex, TableSize, Top, NumClasses, MinimumClass;
    LastClass(s);
    SlotStartIs(s, n);
    InWord(Max(s.smallBits, s.step));
    forall size | 1 <= size <= Top(s)
      ensures LookupIndex(s, size) < |table| && table[LookupIndex(s, size)] == ClassFor(s, size)
    {
      var i := LookupIndex(s, size);
      SlotBound(s, size, TableSize(s));
      SlotStartIs(s, i);
      SameSlot(s, size, SlotStart(s, i));
    }
  }

  /** The sizes below 2^(mantissa + step) are all the multiples of the step. */
  lemma FirstSizes(s: Settings, c: nat)
    requires c < Pow2(s.mantissa)
    ensures SizeOf(s, c) == (c + 1) * Step(s)
  {
    var M, L := s.mantissa, s.step;
    FromIsUnpack(M, L, c);
    if c + 1 < Pow2(M) {
      UnpackParts(M, L, c + 1, 0, c + 1);
    } else {
      UnpackParts(M, L, c + 1, 1, 0);
    }
  }

  /** The smallest class in use is one of these, and exists. */
  lemma MinimumInUse(s: Settings)
    requires Legal(s)
    ensures MinimumClass(s) < NumClasses(s) && MinimumClass(s) < Pow2(s.mantissa)
    ensures s.minAlloc <= SizeOf(s, MinimumClass(s)) == (MinimumClass(s) + 1) * Step(s) <= Top(s)
  {
    hide ClassOf, SizeOf, Pow2, TableSize, Top, NumClasses, MinimumClass, Shaped;
    var c := MinimumClass(s);
    MinimumAtMost(s);
    FirstSizes(s, c);
    LastClass(s);
    ClassFitsMinimum(s);
    MulMonotone(c + 1, TableSize(s), Step(s));
    if NumClasses(s) <= c { SizesMonotone(s, NumClasses(s) - 1, c); }
  }

  lemma ClassFitsMinimum(s: Settings)
    requires Shaped(s)
    ensures s.minAlloc <= SizeOf(s, MinimumClass(s))
  {
    MinimumFits(s);
    ClassFits(s, s.minAlloc);
  }

  lemma MinimumAtMost(s: Settings)
    requires Shaped(s)
    ensures MinimumClass(s) < Pow2(s.mantissa)
  {
    hide ToExpMant, FromExpMant, Pow2;
    MinimumFits(s);
    var p := Pow2(s.mantissa);
    FirstSizes(s, p - 1);
    Pow2Sum(s.mantissa, s.step);
    Adjoint(s.mantissa, s.step, s.minAlloc, p - 1);
  }

  /** From the smallest allocation up the table is the arithmetic map itself. */
  lemma TableAgrees(s: Settings, size: nat)
    requires Legal(s) && s.minAlloc <= size <= Top(s)
    ensures size <= Pow2(BITS) && ClassFor(s, size) == ClassOf(s, size)
  {
    InWord(Max(s.smallBits, s.step));
    MinimumFits(s);
    hide ToExpMant, FromExpMant, Pow2;
    Adjoint(s.mantissa, s.step, size, ClassOf(s, size));
    Adjoint(s.mantissa, s.step, s.minAlloc, ClassOf(s, size));
  }

  /** 256 classes pass the assertions, but the 8-bit counter stays below them. */
  lemma TooManyClasses()
    ensures var s := Settings(6, 7, 16, 128);
      Shaped(s) && NumClasses(s) == 256 && MinimumClass(s) < TableSize(s) && forall n :: Count(n) < NumClasses(s)
  {
    hide Unpack, Gap, Pow2, ToExpMant, FromExpMant, Low, Shr;
    var s := Settings(6, 7, 16, 128);
    Powers();
    ClassCount(s);
    FirstSizes(s, 0);
    ClassIs(s, 128, 0);
    forall n ensures Count(n) < 256 { CountIs(n); }
  }

  lemma Powers()
    ensures Pow2(6) == 64 && Pow2(7) == 128 && Pow2(10) == 1024 && Pow2(13) == 8192 && Pow2(16) == 0x1_0000 <= Pow2(BITS)
  {
    assert Pow2(6) == 64 && Pow2(7) == 128;
    assert Pow2(10) == 1024 && Pow2(13) == 8192;
    Pow2Of16();
    InWord(16);
  }
}
