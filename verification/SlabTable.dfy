/** `SizeClassTable`: the slab of each small class and the reciprocals with which
    addresses are mapped to objects. */
module SlabTable {
  import opened Bits
  import opened ExpMant
  import opened Reciprocal
  import opened SizeClass
  import opened SlabCapacity
  import S = Slab

  /** The larger of the two values of the source. */
  const MAX_CAPACITY_BITS: nat := 13

  /** A build whose table passes the assertion made after it. */
  ghost predicate Valid(b: Build) {
    Plausible(b) && CapacityBits(b) <= MAX_CAPACITY_BITS
  }

  ghost predicate ClassOfBuild(b: Build, c: nat) {
    Valid(b) && c < NumClasses(b.sizes)
  }

  /** Every small class meets what building its free list needs, and the list
      then has as many objects as the table says. */
  lemma SlabHoldsCapacity(b: Build, c: nat, base: nat)
    requires ClassOfBuild(b, c)
    ensures var g := S.Geometry(base, ClassSize(b, c), Slab(b, c));
      S.Holds(g) && b.objects <= S.Objects(g) == Capacity(b, c) <= Pow2(CapacityBits(b)) < Pow2(16)
  {
    hide ClassSize, SlabBits, Pow2, NumClasses, MaxCapacity;
    SlabHolds(b, c);
    MulMonotone(1, b.objects, ClassSize(b, c));
    CapacityPositive(b);
    var m := MaxCapacity(b, NumClasses(b.sizes));
    assert Capacity(b, c) <= m;
    NextPow2Least(m, NextPow2Bits(m));
    Pow2Strict(CapacityBits(b), 16);
  }

  datatype Fast = Fast(size: nat, slabMask: nat, divMult: nat, modZeroMult: nat)

  datatype Slow = Slow(capacity: nat, waking: nat)

  /** DIV_MULT_SHIFT: what the largest capacity leaves of the word. */
  function Shift(b: Build): nat
    requires Valid(b)
  {
    BITS - CapacityBits(b)
  }

  /** The entry of a small class. */
  function Entry(b: Build, c: nat): Fast
    requires Valid(b)
  {
    var size := ClassSize(b, c);
    Fast(size, Slab(b, c) - 1, Mult(Pow2(Shift(b)), size), Mult(WORD, size))
  }

  /** Free objects a slab needs before it is used again. */
  function Waking(larger: bool, capacity: nat): nat {
    if larger then capacity / 4 else Min(capacity / 4, 32)
  }

  /** A quarter of the capacity, rounded down, and without larger thresholds at most 32. */
  lemma WakingIs(larger: bool, capacity: nat)
    ensures var w := Waking(larger, capacity);
      && 4 * w <= capacity && (!larger ==> w <= 32)
      && (larger || w < 32 ==> capacity < 4 * (w + 1))
  {}

  function SlowEntry(b: Build, larger: bool, c: nat): Slow
    requires b.objects > 0
  {
    Slow(Capacity(b, c), Waking(larger, Capacity(b, c)))
  }

  /** The entry of a large class: the mask does all the work.  Class 0 stands for
      the whole address space. */
  function LargeEntry(lc: nat): Fast
    requires lc < BITS
  {
    var size := if lc == 0 then 0 else Pow2(BITS - lc);
    Fast(size, if size == 0 then WORD - 1 else size - 1, 0, 1)
  }

  /** Small classes come after the tag, large ones before it. */
  ghost predicate FastSmall(fast: seq<Fast>, tag: nat, b: Build, n: nat)
    requires Valid(b) && tag + n <= |fast|
  {
    forall c :: 0 <= c < n ==> fast[tag + c] == Entry(b, c)
  }

  ghost predicate Sized(fast: seq<Fast>, tag: nat, b: Build, lo: nat, hi: nat)
    requires Valid(b) && tag + hi <= |fast|
  {
    forall c :: lo <= c < hi ==> fast[tag + c].size == ClassSize(b, c) && fast[tag + c].slabMask == Entry(b, c).slabMask
  }

  ghost predicate SlowSmall(slow: seq<Slow>, tag: nat, b: Build, larger: bool, n: nat)
    requires b.objects > 0 && tag + n <= |slow|
  {
    forall c :: 0 <= c < n ==> slow[tag + c] == SlowEntry(b, larger, c)
  }

  /** The constructor: sizes, slabs and capacities first, then the reciprocals,
      scaled by what the largest capacity leaves of the word, then the large classes. */
  method BuildTable(b: Build, larger: bool, tag: nat) returns (fast: array<Fast>, slow: array<Slow>, shift: nat)
    requires Valid(b) && BITS <= tag && NumClasses(b.sizes) <= tag
    ensures fresh(fast) && fresh(slow) && fast.Length == slow.Length == 2 * tag
    ensures shift == Shift(b)
    ensures FastSmall(fast[..], tag, b, NumClasses(b.sizes)) && SlowSmall(slow[..], tag, b, larger, NumClasses(b.sizes))
    ensures forall lc :: 0 <= lc < BITS ==> fast[lc] == LargeEntry(lc)
  {
    hide Pow2, NextPow2Bits, NumClasses, MaxCapacity, FastSmall, SlowSmall, Sized, LargeEntry;
    var classes := NumClasses(b.sizes);
    fast := new Fast[2 * tag](_ => Fast(0, 0, 0, 0));
    slow := new Slow[2 * tag](_ => Slow(0, 0));
    var maxCapacity := FillSizes(b, larger, tag, classes, fast, slow);
    CapacityPositive(b);
    shift := BITS - NextPow2Bits(maxCapacity);
    FillReciprocals(b, tag, classes, shift, fast);
    ghost var small := fast[..];
    FillLarge(fast);
    KeptAbove(small, fast[..], tag, b, classes);
  }

  /** Sizes, slabs and capacities of the small classes, and the largest capacity. */
  method FillSizes(b: Build, larger: bool, tag: nat, classes: nat, fast: array<Fast>, slow: array<Slow>) returns (maxCapacity: nat)
    requires Valid(b) && tag + classes <= fast.Length == slow.Length
    modifies fast, slow
    ensures maxCapacity == MaxCapacity(b, classes)
    ensures SlowSmall(slow[..], tag, b, larger, classes) && Sized(fast[..], tag, b, 0, classes)
  {
    hide ClassSize, Pow2, SlabBits, Capacity, Mult, Waking, Entry, SlowEntry, MaxCapacity, Div, Shift, CapacityBits, Legal;
    maxCapacity := 0;
    var c: nat := 0;
    NoCapacity(b);
    while c < classes
      invariant 0 <= c <= classes && maxCapacity == MaxCapacity(b, c)
      invariant SlowSmall(slow[..], tag, b, larger, c) && Sized(fast[..], tag, b, 0, c)
    {
      var size := ClassSize(b, c);
      var slabBits := SlabBits(b, c);
      fast[tag + c] := Fast(size, Pow2(slabBits) - 1, 0, 0);
      var capacity := Div(fast[tag + c].slabMask + 1, size);
      slow[tag + c] := Slow(capacity, Waking(larger, capacity));
      EntryParts(b, larger, c);
      MoreCapacity(b, c);
      if capacity > maxCapacity { maxCapacity := capacity; }
      c := c + 1;
    }
  }

  /** The reciprocals of the small classes. */
  method FillReciprocals(b: Build, tag: nat, classes: nat, shift: nat, fast: array<Fast>)
    requires Valid(b) && tag + classes <= fast.Length && shift == Shift(b) && Sized(fast[..], tag, b, 0, classes)
    modifies fast
    ensures FastSmall(fast[..], tag, b, classes)
  {
    hide ClassSize, Pow2, SlabBits, Mult, Entry, CapacityBits;
    var c: nat := 0;
    while c < classes
      invariant 0 <= c <= classes
      invariant FastSmall(fast[..], tag, b, c) && Sized(fast[..], tag, b, c, classes)
    {
      EntryParts(b, false, c);
      var size := fast[tag + c].size;
      fast[tag + c] := fast[tag + c].(divMult := Mult(Pow2(shift), size), modZeroMult := Mult(WORD, size));
      c := c + 1;
    }
  }

  /** The entries of the large classes. */
  method FillLarge(fast: array<Fast>)
    requires BITS <= fast.Length
    modifies fast
    ensures forall lc :: 0 <= lc < BITS ==> fast[lc] == LargeEntry(lc)
    ensures fast[BITS..] == old(fast[BITS..])
  {
    hide Pow2;
    var lc: nat := 0;
    while lc < BITS
      invariant 0 <= lc <= BITS && fast[BITS..] == old(fast[BITS..])
      invariant forall i :: 0 <= i < lc ==> fast[i] == LargeEntry(i)
    {
      var size := if lc == 0 then 0 else Pow2(BITS - lc);
      fast[lc] := Fast(size, if size == 0 then WORD - 1 else size - 1, 0, 1);
      lc := lc + 1;
    }
  }

  lemma KeptAbove(before: seq<Fast>, after: seq<Fast>, tag: nat, b: Build, n: nat)
    requires Valid(b) && BITS <= tag && tag + n <= |before| == |after| && before[BITS..] == after[BITS..]
    requires FastSmall(before, tag, b, n)
    ensures FastSmall(after, tag, b, n)
  {
    hide Entry;
    forall c | 0 <= c < n ensures after[tag + c] == Entry(b, c) {
      assert before[BITS..][tag + c - BITS] == after[BITS..][tag + c - BITS];
    }
  }

  lemma NoCapacity(b: Build)
    requires b.objects > 0
    ensures MaxCapacity(b, 0) == 0
  {}

  lemma MoreCapacity(b: Build, c: nat)
    requires b.objects > 0
    ensures MaxCapacity(b, c + 1) == if Capacity(b, c) > MaxCapacity(b, c) then Capacity(b, c) else MaxCapacity(b, c)
  {
    hide Capacity;
  }

  lemma EntryParts(b: Build, larger: bool, c: nat)
    requires Valid(b)
    ensures var size := ClassSize(b, c);
      && Entry(b, c) == Fast(size, Pow2(SlabBits(b, c)) - 1, Mult(Pow2(Shift(b)), size), Mult(WORD, size))
      && SlowEntry(b, larger, c) == Slow(Capacity(b, c), Waking(larger, Capacity(b, c)))
      && Capacity(b, c) == Div(Pow2(SlabBits(b, c)) - 1 + 1, size)
  {
    hide ClassSize, Pow2, SlabBits, Mult, Waking, Div;
  }

  // ----- from addresses to objects

  function Offset(f: Fast, addr: nat): (o: nat)
    ensures o <= f.slabMask && o <= addr
  {
    RoundedDown(addr, f.slabMask + 1);
    addr % (f.slabMask + 1)
  }

  /** `slab_index`, on 64-bit words. */
  function SlabIndex(f: Fast, shift: nat, addr: nat): nat {
    Shr(Offset(f, addr) * f.divMult % WORD, shift)
  }

  /** `start_of_object`. */
  function StartOfObject(f: Fast, shift: nat, addr: nat): nat {
    MulSign(SlabIndex(f, shift, addr), f.size);
    addr - Offset(f, addr) + SlabIndex(f, shift, addr) * f.size
  }

  /** `is_start_of_object`, on 64-bit words. */
  predicate IsStartOfObject(f: Fast, addr: nat) {
    Offset(f, addr) * f.modZeroMult % WORD < f.modZeroMult
  }

  /** Every offset into a slab of a small class meets the conditions of both
      reciprocals, and its index stays below 2^CapacityBits. */
  lemma BoundsMet(b: Build, c: nat, offset: nat)
    requires ClassOfBuild(b, c) && offset < Slab(b, c)
    ensures var size := ClassSize(b, c);
      && offset < Pow2(CapacityBits(b)) * size
      && Excess(Pow2(Shift(b)), size) * offset < Pow2(Shift(b)) && Excess(WORD, size) * offset < WORD
  {
    hide ClassSize, Pow2, Slab, Excess, NumClasses, CapacityBits;
    var size, n := ClassSize(b, c), CapacityBits(b);
    SlabFits(b, c);
    Pow2Of64();
    if b.sizes.step <= b.sizes.smallBits {
      SmallSize(b, c);
      ProductBounds(offset, size, n);
      Pow2Monotone(BITS - n, BITS);
    } else {
      SingleClass(b, c);
      PowerDivides(b.sizes.step, BITS - n);
      PowerDivides(b.sizes.step, BITS);
    }
    ExcessSmall(Pow2(BITS - n), size, offset);
    ExcessSmall(WORD, size, offset);
  }

  lemma SmallSize(b: Build, c: nat)
    requires ClassOfBuild(b, c) && b.sizes.step <= b.sizes.smallBits
    ensures ClassSize(b, c) <= Pow2(19)
  {
    hide Pow2, SizeOf, NumClasses;
    SizeInWord(b, c);
    Pow2Monotone(b.sizes.smallBits, 19);
  }

  /** A step beyond the small sizes leaves one class, whose size is a power of two. */
  lemma SingleClass(b: Build, c: nat)
    requires ClassOfBuild(b, c) && b.sizes.smallBits < b.sizes.step
    ensures ClassSize(b, c) == Pow2(b.sizes.step)
  {
    hide SizeOf, Pow2, ClassOf;
    OneClass(b.sizes);
  }

  lemma PowerDivides(a: nat, n: nat)
    requires a <= n
    ensures Pow2(n) % Pow2(a) == 0
  {
    MulAligned(1, n);
    AlignedWeaken(Pow2(n), a, n);
  }

  lemma ProductBounds(offset: nat, size: nat, n: nat)
    requires size <= Pow2(19) && n <= MAX_CAPACITY_BITS && offset < Pow2(n) * size
    ensures offset * size <= Pow2(BITS - n)
  {
    hide Pow2;
    var N, m := Pow2(n), Pow2(19);
    MulMonotone(offset, N * size, size);
    MulMonotone(size, m, size);
    MulMonotone(size, m, m);
    assert m * size == size * m;
    MulMonotone(size * size, m * m, N);
    MulAssoc(N, size, size);
    assert (size * size) * N == N * (size * size) && (m * m) * N == N * (m * m);
    Pow2Sum(19, 19);
    Pow2Sum(n, 38);
    Pow2Monotone(n + 38, BITS - n);
  }

  /** The multiplication gives the index of the object. */
  lemma SlabIndexExact(b: Build, c: nat, addr: nat)
    requires ClassOfBuild(b, c)
    ensures var f := Entry(b, c); f.size > 0 && SlabIndex(f, Shift(b), addr) == Offset(f, addr) / f.size < Pow2(CapacityBits(b))
  {
    hide ClassSize, Slab, Mult, Pow2, Offset, NumClasses, Excess, Shr, CapacityBits;
    var f, z, n := Entry(b, c), ClassSize(b, c), CapacityBits(b);
    var o := Offset(f, addr);
    BoundsMet(b, c, o);
    IndexOfOffset(o, z, n);
    hide Entry;
  }

  lemma IndexOfOffset(o: nat, z: nat, n: nat)
    requires n <= BITS && z > 0 && o < Pow2(n) * z && Excess(Pow2(BITS - n), z) * o < Pow2(BITS - n)
    ensures Shr(o * Mult(Pow2(BITS - n), z) % WORD, BITS - n) == o / z < Pow2(n)
  {
    hide Pow2, Shr, Excess, Mult;
    var d := Mult(Pow2(BITS - n), z);
    MulSign(o, d);
    QuotientOf(Pow2(BITS - n), z, o);
    HighPart(o * d, o, z, n);
  }

  lemma HighPart(x: nat, o: nat, z: nat, n: nat)
    requires n <= BITS && z > 0 && o < Pow2(n) * z && x / Pow2(BITS - n) == o / z
    ensures Shr(x % WORD, BITS - n) == o / z < Pow2(n)
  {
    hide Pow2, Shr;
    QuotientBelow(o, z, Pow2(n));
    Pow2Of64();
    Pow2Sum(BITS - n, n);
    ProductFits(x, Pow2(BITS - n), o / z, Pow2(n));
    ShrIs(x, BITS - n);
  }

  lemma QuotientBelow(o: nat, z: nat, N: nat)
    requires z > 0 && o < N * z
    ensures 0 <= o / z < N
  {
    MulSign(o / z, z);
    assert o == (o / z) * z + o % z;
    if N <= o / z { MulMonotone(N, o / z, z); }
  }

  /** A product whose quotient is small does not overflow. */
  lemma ProductFits(x: int, M: nat, q: nat, N: nat)
    requires M > 0 && x / M == q < N && M * N == WORD
    ensures 0 <= x < WORD && x % WORD == x
  {
    assert x == q * M + x % M;
    MulSign(q, M);
    Distribute(q, 1, M);
    MulMonotone(q + 1, N, M);
    assert N * M == M * N;
    DivUnique(x, WORD, 0, x);
  }

  lemma ShrIs(x: nat, s: nat)
    ensures Shr(x, s) == x / Pow2(s)
  {}

  /** The object found is the one that contains the address. */
  lemma ObjectContains(b: Build, c: nat, addr: nat)
    requires ClassOfBuild(b, c)
    ensures var f := Entry(b, c); var start := StartOfObject(f, Shift(b), addr);
      && f.size > 0 && start <= addr < start + f.size
      && addr - Offset(f, addr) <= start && (start - (addr - Offset(f, addr))) % f.size == 0
  {
    hide Entry, SlabIndex, Offset, Shift;
    SlabIndexExact(b, c, addr);
    Multiples(Offset(Entry(b, c), addr), Entry(b, c).size);
  }

  lemma Multiples(o: nat, size: nat)
    requires size > 0
    ensures 0 <= (o / size) * size <= o < (o / size) * size + size && (o / size) * size % size == 0
  {
    MulSign(o / size, size);
    MultipleMod(o / size, size);
  }

  /** The comparison tells whether the address is where an object starts. */
  lemma IsStartExact(b: Build, c: nat, addr: nat)
    requires ClassOfBuild(b, c)
    ensures var f := Entry(b, c); f.size > 0 && (IsStartOfObject(f, addr) <==> Offset(f, addr) % f.size == 0)
  {
    hide ClassSize, Slab, Mult, Pow2, Offset, NumClasses, Excess, CapacityBits;
    var f := Entry(b, c);
    var o := Offset(f, addr);
    BoundsMet(b, c, o);
    DividesWhen(WORD, f.size, o);
  }

  // ----- the builds there are

  /** The default steps and minimum: chunks of 2^14 bytes with small sizes up to
      2^16, or 2^17 with 2^19, and 4 or 13 objects. */
  lemma BuiltConfigurations(chunkBits: nat, smallBits: nat, objects: nat)
    requires (chunkBits == 14 && smallBits == 16) || (chunkBits == 17 && smallBits == 19)
    requires objects == 4 || objects == 13
    ensures var b := Build(Settings(2, 4, smallBits, 16), chunkBits, objects);
      Valid(b) && NumClasses(b.sizes) == 4 * smallBits - 20 && CapacityBits(b) == chunkBits - 4
  {
    hide Pow2, MaxCapacity, NumClasses, Legal, NextPow2Bits, Shaped;
    var s := Settings(2, 4, smallBits, 16);
    var b := Build(s, chunkBits, objects);
    DefaultLegal(s);
    LegalShape(s);
    MostCapacity(b, NumClasses(s));
    PowerBits(chunkBits - 4);
  }

  lemma LegalShape(s: Settings)
    requires Legal(s)
    ensures Shaped(s)
  {}

  lemma PowerBits(n: nat)
    ensures NextPow2Bits(Pow2(n)) == n
  {
    hide Pow2, NextPow2Bits;
    NextPow2Least(Pow2(n), n);
    if n > 0 {
      NextPow2Least(Pow2(n), n - 1);
      Pow2Strict(n - 1, n);
    }
  }

  /** The smallest class fills a chunk with the most objects. */
  lemma MostCapacity(b: Build, n: nat)
    requires b.sizes.step == 4 && Pow2(4) == 16 && 14 <= b.chunkBits && 0 < b.objects <= 13 && n > 0
    ensures MaxCapacity(b, n) == Pow2(b.chunkBits - 4)
  {
    hide Pow2, Capacity, MaxCapacity, SizeOf;
    var X := Pow2(b.chunkBits - 4);
    Pow2Sum(b.chunkBits - 4, 4);
    forall c ensures Capacity(b, c) <= X { CapacityAtMost(b, c); }
    MostOf(b, n, X);
    SlabHolds(b, 0);
    FirstSize(b.sizes);
    CapacityAtLeast(b, 0, X);
    assert Capacity(b, 0) <= MaxCapacity(b, n);
  }

  lemma DefaultLegal(s: Settings)
    requires s == Settings(2, 4, 16, 16) || s == Settings(2, 4, 19, 16)
    ensures Legal(s) && NumClasses(s) == 4 * s.smallBits - 20 && Step(s) == 16 && Pow2(4) == 16
  {
    hide Pow2, SizeOf, ClassOf;
    SmallPowers();
    ClassCount(s);
    MinimumFits(s);
    FirstSize(s);
    ClassIs(s, 16, 0);
  }

  lemma SmallPowers()
    ensures Pow2(2) == 4 && Pow2(4) == 16 && Pow2(6) == 64
  {
    assert Pow2(2) == 4;
    assert Pow2(6) == 64;
  }

  lemma CapacityAtMost(b: Build, c: nat)
    requires b.sizes.step == 4 && Pow2(4) == 16 && 14 <= b.chunkBits && 0 < b.objects <= 13
    ensures Capacity(b, c) <= Pow2(b.chunkBits - 4)
  {
    hide Pow2, Capacity, ClassSize, Slab;
    var z, X := ClassSize(b, c), Pow2(b.chunkBits - 4);
    SizeAtLeast(b, c);
    Pow2Sum(b.chunkBits - 4, 4);
    Pow2Monotone(10, b.chunkBits - 4);
    TenBits();
    MulMonotone(16, z, X);
    MulMonotone(2 * b.objects, X, z);
    assert X * z == z * X && 16 * X == X * 16;
    SlabAtMost(b, c);
    CapacityTimes(b, c);
    AtMostTimes(Capacity(b, c), X, z);
  }

  lemma SizeAtLeast(b: Build, c: nat)
    requires b.sizes.step == 4 && Pow2(4) == 16
    ensures 16 <= ClassSize(b, c)
  {
    SizesGrow(b.sizes, c);
  }

  lemma AtMostTimes(q: nat, X: nat, z: nat)
    requires q * z <= X * z && z > 0
    ensures q <= X
  {
    Distribute(X, 1, z);
    if X < q { MulMonotone(X + 1, q, z); }
  }

  lemma TenBits()
    ensures Pow2(10) == 1024
  {
    assert Pow2(5) == 32;
    Pow2Sum(5, 5);
  }

  /** A slab is a chunk, or less than twice what its objects need. */
  lemma SlabAtMost(b: Build, c: nat)
    requires b.objects > 0
    ensures Slab(b, c) == Pow2(b.chunkBits) || Slab(b, c) <= 2 * b.objects * ClassSize(b, c)
  {
    hide Pow2, ClassSize;
    var want := b.objects * ClassSize(b, c);
    MulMonotone(1, b.objects, ClassSize(b, c));
    var n := NextPow2Bits(want);
    if n > 0 {
      NextPow2Least(want, n - 1);
      Pow2Next(n - 1);
    } else {
      Pow2Monotone(0, 1);
      PowerOfNone();
    }
  }

  lemma PowerOfNone()
    ensures Pow2(0) == 1
  {}

  lemma {:induction false} MostOf(b: Build, n: nat, X: nat)
    requires b.objects > 0 && forall c :: 0 <= c < n ==> Capacity(b, c) <= X
    ensures MaxCapacity(b, n) <= X
  {
    hide Capacity;
    if n > 0 { MostOf(b, n - 1, X); }
  }

  // ----- large objects

  /** A large object starts where its size divides the address. */
  lemma LargeObject(lc: nat, shift: nat, addr: nat)
    requires lc < BITS && addr < WORD
    ensures var f := LargeEntry(lc); StartOfObject(f, shift, addr) == AlignDown(addr, BITS - lc)
    ensures var f := LargeEntry(lc); IsStartOfObject(f, addr) <==> Aligned(addr, BITS - lc)
  {
    hide Pow2;
    Pow2Of64();
    var f, o := LargeEntry(lc), Offset(LargeEntry(lc), addr);
    InWord(BITS - lc);
    ShrUnique(0, shift, 0, 0);
    assert f.slabMask + 1 == Pow2(BITS - lc);
    DivUnique(o, WORD, 0, o);
  }
}
