/** How many objects the slabs of a build hold.  The reciprocals have a place for
    every object of a slab only because no slab is larger than the power of two
    above the largest capacity times its object size. */
module SlabCapacity {
  import opened Bits
  import opened ExpMant
  import opened SizeClass

  /** The size classes, MIN_CHUNK_BITS and MIN_OBJECT_COUNT. */
  datatype Build = Build(sizes: Settings, chunkBits: nat, objects: nat)

  ghost predicate Plausible(b: Build) {
    Legal(b.sizes) && b.chunkBits <= b.sizes.smallBits && 3 <= b.objects
  }

  function ClassSize(b: Build, c: nat): (size: nat)
    ensures size > 0
  {
    SizesGrow(b.sizes, c);
    SizeOf(b.sizes, c)
  }

  /** A slab holds at least the required objects and at least one chunk. */
  function SlabBits(b: Build, c: nat): nat
    requires b.objects > 0
  {
    MulMonotone(1, b.objects, ClassSize(b, c));
    Max(NextPow2Bits(b.objects * ClassSize(b, c)), b.chunkBits)
  }

  function Slab(b: Build, c: nat): nat
    requires b.objects > 0
  {
    Pow2(SlabBits(b, c))
  }

  function Div(x: nat, y: nat): (q: nat)
    requires y > 0
  {
    MulSign(x / y, y);
    x / y
  }

  function Capacity(b: Build, c: nat): nat
    requires b.objects > 0
  {
    Div(Slab(b, c), ClassSize(b, c))
  }

  /** The largest capacity among the first `n` classes. */
  function MaxCapacity(b: Build, n: nat): (m: nat)
    requires b.objects > 0
    ensures forall c :: 0 <= c < n ==> Capacity(b, c) <= m
  {
    if n == 0 then 0 else Max(MaxCapacity(b, n - 1), Capacity(b, n - 1))
  }

  lemma CapacityAtLeast(b: Build, c: nat, n: nat)
    requires b.objects > 0 && n * ClassSize(b, c) <= Slab(b, c)
    ensures n <= Capacity(b, c)
  {
    hide ClassSize, Slab;
    var z, q := ClassSize(b, c), Capacity(b, c);
    assert Slab(b, c) == q * z + Slab(b, c) % z;
    Distribute(q, 1, z);
    if q < n { MulMonotone(q + 1, n, z); }
  }

  lemma CapacityTimes(b: Build, c: nat)
    requires b.objects > 0
    ensures Capacity(b, c) * ClassSize(b, c) <= Slab(b, c) < (Capacity(b, c) + 1) * ClassSize(b, c)
  {
    hide ClassSize, Slab;
    var z, q := ClassSize(b, c), Capacity(b, c);
    assert Slab(b, c) == q * z + Slab(b, c) % z;
    Distribute(q, 1, z);
  }

  lemma SlabHolds(b: Build, c: nat)
    requires b.objects > 0
    ensures b.objects * ClassSize(b, c) <= Slab(b, c) && Pow2(b.chunkBits) <= Slab(b, c)
    ensures b.objects <= Capacity(b, c)
  {
    hide ClassSize, Pow2, NextPow2Bits, Capacity;
    var want := b.objects * ClassSize(b, c);
    MulMonotone(1, b.objects, ClassSize(b, c));
    NextPow2Least(want, NextPow2Bits(want));
    Pow2Monotone(NextPow2Bits(want), SlabBits(b, c));
    Pow2Monotone(b.chunkBits, SlabBits(b, c));
    CapacityAtLeast(b, c, b.objects);
  }

  /** What the shift leaves room for. */
  function CapacityBits(b: Build): nat
    requires Plausible(b)
  {
    CapacityPositive(b);
    NextPow2Bits(MaxCapacity(b, NumClasses(b.sizes)))
  }

  lemma CapacityPositive(b: Build)
    requires Plausible(b)
    ensures MaxCapacity(b, NumClasses(b.sizes)) >= 3
  {
    hide Capacity, ClassSize, NumClasses;
    SlabHolds(b, 0);
    assert Capacity(b, 0) <= MaxCapacity(b, NumClasses(b.sizes));
  }

  // ----- no slab sticks out

  /** A class whose slab sticks out lies just below a power of two. */
  lemma JustBelow(z: nat, n: nat, k: nat)
    requires z > 0 && Pow2(n) * z < Pow2(k) < (Pow2(n) + 1) * z
    ensures n < k && Pow2(k - n) * Pow2(n) == Pow2(k)
    ensures Pow2(k - n - 1) < z < Pow2(k - n)
  {
    hide Pow2;
    MulMonotone(1, z, Pow2(n));
    assert z * Pow2(n) == Pow2(n) * z;
    if k <= n { Pow2Monotone(k, n); }
    Pow2Sum(k - n, n);
    Pow2Next(k - n - 1);
    Squeezed(z, Pow2(n), Pow2(k - n - 1));
  }

  lemma Squeezed(z: nat, N: nat, Q: nat)
    requires N > 0 && N * z < (2 * Q) * N < (N + 1) * z
    ensures Q < z < 2 * Q
  {
    assert z * N == N * z && z * (N + 1) == (N + 1) * z;
    TwiceIsMore(N, Q);
    if 2 * Q <= z { MulMonotone(2 * Q, z, N); }
    if z <= Q { MulMonotone(z, Q, N + 1); }
  }

  lemma TwiceIsMore(N: nat, Q: nat)
    requires N > 0
    ensures Q * (N + 1) <= (2 * Q) * N
  {
    Distribute(Q, Q, N);
    MulMonotone(1, N, Q);
    assert Q * (N + 1) == Q * N + Q && N * Q == Q * N;
  }

  lemma ShrMonotone(x: nat, y: nat, b: nat)
    requires x <= y
    ensures Shr(x, b) <= Shr(y, b)
  {
    hide Pow2, Shr, Low;
    ShrLow(x, b);
    ShrLow(y, b);
    var p, i, j := Pow2(b), Shr(x, b), Shr(y, b);
    Distribute(j, 1, p);
    if j < i { MulMonotone(j + 1, i, p); }
  }

  /** The distance between neighbouring classes is a power of two and does not shrink. */
  lemma Gaps(s: Settings, i: nat, j: nat) returns (g: nat)
    requires i <= j
    ensures SizeOf(s, i) + Pow2(g) == SizeOf(s, i + 1) && SizeOf(s, j) + Pow2(g) <= SizeOf(s, j + 1)
  {
    hide Pow2, Unpack, Shr;
    var M, L := s.mantissa, s.step;
    FromIsUnpack(M, L, i);
    FromIsUnpack(M, L, i + 1);
    FromIsUnpack(M, L, j);
    FromIsUnpack(M, L, j + 1);
    UnpackStep(M, L, i + 1);
    UnpackStep(M, L, j + 1);
    ShrMonotone(i + 1, j + 1, M);
    g := (if Shr(i + 1, M) == 0 then 0 else Shr(i + 1, M) - 1) + L;
    Pow2Monotone(g, (if Shr(j + 1, M) == 0 then 0 else Shr(j + 1, M) - 1) + L);
  }

  /** The class at which the required objects pass `H` bytes. */
  lemma {:induction false} Crossing(b: Build, H: nat, lo: nat, hi: nat) returns (c: nat)
    requires lo < hi && b.objects * ClassSize(b, lo) <= H < b.objects * ClassSize(b, hi)
    ensures lo <= c < hi && b.objects * ClassSize(b, c) <= H < b.objects * ClassSize(b, c + 1)
    decreases hi - lo
  {
    hide ClassSize;
    if H < b.objects * ClassSize(b, lo + 1) { c := lo; } else { c := Crossing(b, H, lo + 1, hi); }
  }

  /** Classes that come so close to the power of two are close together. */
  lemma NarrowGap(g: nat, z: nat, n: nat, p: nat)
    requires z + Pow2(g) <= Pow2(p) && Pow2(p) * Pow2(n) < z * (Pow2(n) + 1)
    ensures Pow2(g) * (2 * Pow2(n) * Pow2(n)) <= Pow2(p) * Pow2(n)
  {
    hide Pow2;
    var G, N, P := Pow2(g), Pow2(n), Pow2(p);
    Pow2Sum(g, n);
    SmallGap(z, G, N, P);
    if p <= g + n { Pow2Monotone(p, g + n); }
    Pow2Strict(g + n, p);
    MulMonotone(2 * (G * N), P, N);
    Regroup(G, N);
  }

  lemma Regroup(G: nat, N: nat)
    ensures 2 * (G * N) * N == G * (2 * N * N)
  {
    MulAssoc(G, N, N);
    MulAssoc(G, 2, N * N);
    assert 2 * N * N == 2 * (N * N);
  }

  lemma SmallGap(z: nat, G: nat, N: nat, P: nat)
    requires z + G <= P && P * N < z * (N + 1)
    ensures G * N < P
  {
    MulMonotone(z + G, P, N + 1);
    Distribute(z, G, N + 1);
    assert P * (N + 1) == P * N + P;
    assert G * (N + 1) == G * N + G;
  }

  lemma Squeeze(w: nat, gap: nat, N: nat, K: nat)
    requires w * (N + 2) <= K && gap * (2 * N * N) <= K && N >= 4
    ensures (N + 1) * (w + gap) <= K
  {
    var f := (N + 1) * (N + 2);
    Squares(N);
    MulMonotone(f, 2 * N * N, gap);
    assert gap * (2 * N * N) == (2 * N * N) * gap;
    MulMonotone(w * (N + 2), K, N + 1);
    Expanded(w, gap, N);
    Distribute(N + 1, 1, K);
    Distribute(K, 1, N + 2);
    assert (N + 2) * K == K * (N + 2) && (N + 1) * K == K * (N + 1);
    if K < (N + 1) * (w + gap) { MulMonotone(K + 1, (N + 1) * (w + gap), N + 2); }
  }

  lemma Squares(N: nat)
    requires N >= 4
    ensures (N + 1) * (N + 2) <= 2 * N * N
  {
    MulMonotone(4, N, N);
    assert (N + 1) * (N + 2) == N * N + 3 * N + 2;
  }

  lemma Expanded(w: nat, gap: nat, N: nat)
    ensures ((N + 1) * (w + gap)) * (N + 2) == (w * (N + 2)) * (N + 1) + ((N + 1) * (N + 2)) * gap
  {
    MulAssoc(w, N + 2, N + 1);
    MulAssoc(gap, N + 1, N + 2);
    Distribute(w, gap, (N + 1) * (N + 2));
    MulAssoc(w + gap, N + 1, N + 2);
    assert (N + 1) * (w + gap) == (w + gap) * (N + 1) && (N + 2) * (N + 1) == (N + 1) * (N + 2);
    assert gap * ((N + 1) * (N + 2)) == ((N + 1) * (N + 2)) * gap;
  }

  lemma ManyFit(m: nat, w: nat, N: nat, H: nat)
    requires N + 2 <= 2 * m && m * w <= H
    ensures w * (N + 2) <= 2 * H
  {
    MulMonotone(N + 2, 2 * m, w);
    MulAssoc(2, m, w);
    assert (N + 2) * w == w * (N + 2);
  }

  lemma SlabPasses(b: Build, c: nat, k: nat)
    requires b.objects > 0 && k > 0 && Pow2(k - 1) < b.objects * ClassSize(b, c)
    ensures Pow2(k) <= Slab(b, c)
  {
    hide Pow2, ClassSize, NextPow2Bits;
    var want := b.objects * ClassSize(b, c);
    NextPow2Least(want, k - 1);
    Pow2Monotone(k, SlabBits(b, c));
  }

  /** The slab of a class that is required to be so large by its objects. */
  lemma SlabByObjects(b: Build, c: nat, q: nat)
    requires b.objects > 0 && Slab(b, q) < Slab(b, c)
    ensures SlabBits(b, c) > 0
    ensures b.objects * ClassSize(b, q) <= Pow2(SlabBits(b, c) - 1) < b.objects * ClassSize(b, c)
  {
    hide Pow2, ClassSize, NextPow2Bits;
    var k, k' := SlabBits(b, c), SlabBits(b, q);
    if k <= k' { Pow2Monotone(k, k'); }
    Pow2Monotone(k', k - 1);
    SlabHolds(b, q);
    MulMonotone(1, b.objects, ClassSize(b, c));
    NextPow2Least(b.objects * ClassSize(b, c), k - 1);
  }

  /** If the slab of a class sticks out, a smaller class holds more objects: the
      power of two below it, or the first class whose slab is as large. */
  lemma LargerElsewhere(b: Build, c: nat, n: nat) returns (i: nat)
    requires b.sizes.mantissa + b.sizes.step <= BITS && b.objects > 0 && Pow2(n) >= 4
    requires ClassSize(b, c) <= Pow2(BITS - 1)
    requires Pow2(n) * ClassSize(b, c) < Slab(b, c) < (Pow2(n) + 1) * ClassSize(b, c)
    ensures i <= c && Capacity(b, i) > Pow2(n)
  {
    hide Pow2, ClassSize, Capacity, SlabBits;
    var s, z, k, N := b.sizes, ClassSize(b, c), SlabBits(b, c), Pow2(n);
    JustBelow(z, n, k);
    if BITS < k - n { Pow2Monotone(BITS - 1, k - n - 1); }
    var q := PowerClass(b, c, k - n - 1);
    if Slab(b, q) >= Slab(b, c) {
      HalfHolds(n, k);
      CapacityAtLeast(b, q, N + 1);
      i := q;
    } else {
      SlabByObjects(b, c, q);
      NotOne(n);
      var c1 := Crossing(b, Pow2(k - 1), q, c);
      FirstPastHolds(b, c, c1, n, k);
      SlabPasses(b, c1 + 1, k);
      CapacityAtLeast(b, c1 + 1, N + 1);
      i := c1 + 1;
    }
  }

  /** The class of a power of two between the step and a larger class. */
  lemma PowerClass(b: Build, c: nat, p: nat) returns (q: nat)
    requires b.sizes.mantissa + b.sizes.step <= BITS && p < BITS && Pow2(p) < ClassSize(b, c) < Pow2(p + 1)
    ensures q < c && ClassSize(b, q) == Pow2(p)
  {
    hide Pow2, SizeOf, ClassOf;
    var s := b.sizes;
    SizesMonotone(s, 0, c);
    FirstSize(s);
    if p < s.step { Pow2Monotone(p + 1, s.step); }
    PowerKept(s, p);
    q := ClassOf(s, Pow2(p));
    if c <= q { SizesMonotone(s, c, q); }
  }

  lemma HalfHolds(n: nat, k: nat)
    requires n < k && Pow2(n) >= 4
    ensures (Pow2(n) + 1) * Pow2(k - n - 1) <= Pow2(k)
  {
    hide Pow2;
    var N, Q := Pow2(n), Pow2(k - n - 1);
    Pow2Sum(k - n, n);
    Pow2Next(k - n - 1);
    MulMonotone(N + 1, 2 * N, Q);
    assert 2 * N * Q == (2 * Q) * N;
  }

  /** N + 1 objects of the first class past half of the slab fit into the slab. */
  lemma FirstPastHolds(b: Build, c: nat, c1: nat, n: nat, k: nat)
    requires b.sizes.mantissa + b.sizes.step <= BITS && c1 < c && 0 < n < k && k - n <= BITS && Pow2(n) >= 4
    requires Pow2(k - n) * Pow2(n) == Pow2(k) < (Pow2(n) + 1) * ClassSize(b, c)
    requires Pow2(k - n - 1) < ClassSize(b, c) < Pow2(k - n)
    requires b.objects * ClassSize(b, c1) <= Pow2(k - 1) < b.objects * ClassSize(b, c)
    ensures (Pow2(n) + 1) * ClassSize(b, c1 + 1) <= Pow2(k)
  {
    hide Pow2, SizeOf;
    var g := Gaps(b.sizes, c1, c);
    NextPower(b, c, k - n);
    PastHolds(b.objects, ClassSize(b, c), ClassSize(b, c1), g, n, k);
  }

  lemma PastHolds(m: nat, z: nat, w: nat, g: nat, n: nat, k: nat)
    requires 0 < n < k && Pow2(n) >= 4 && Pow2(k - n) * Pow2(n) == Pow2(k) < (Pow2(n) + 1) * z
    requires z + Pow2(g) <= Pow2(k - n) && m * w <= Pow2(k - 1) < m * z
    ensures (Pow2(n) + 1) * (w + Pow2(g)) <= Pow2(k)
  {
    hide Pow2;
    var N := Pow2(n);
    assert z * (N + 1) == (N + 1) * z;
    NarrowGap(g, z, n, k - n);
    Pow2Next(k - 1);
    ManyObjects(m, z, Pow2(k - n), n);
    ManyFit(m, w, N, Pow2(k - 1));
    Squeeze(w, Pow2(g), N, Pow2(k));
  }

  /** The power of two above a class is a class, so the next class is not beyond it. */
  lemma NextPower(b: Build, c: nat, p: nat)
    requires b.sizes.mantissa + b.sizes.step <= BITS && 0 < p <= BITS && Pow2(p - 1) < ClassSize(b, c) < Pow2(p)
    ensures SizeOf(b.sizes, c + 1) <= Pow2(p)
  {
    hide Pow2, SizeOf, ClassOf;
    var s := b.sizes;
    SizesMonotone(s, 0, c);
    FirstSize(s);
    if p < s.step { Pow2Monotone(p, s.step); }
    PowerKept(s, p);
    var q := ClassOf(s, Pow2(p));
    if q <= c { SizesMonotone(s, q, c); }
    SizesMonotone(s, c + 1, q);
  }

  lemma ManyObjects(m: nat, z: nat, P: nat, n: nat)
    requires z < P && n > 0 && P * Pow2(n) < 2 * (m * z)
    ensures Pow2(n) + 2 <= 2 * m
  {
    hide Pow2;
    Pow2Next(n - 1);
    var h := Pow2(n - 1);
    MulMonotone(z, P, m);
    assert m * z == z * m && P * (2 * h) == 2 * (h * P) && P * m == m * P;
    if m <= h { MulMonotone(m, h, P); }
  }

  /** No slab is larger than 2^CapacityBits objects. */
  lemma SlabFits(b: Build, c: nat)
    requires Plausible(b) && c < NumClasses(b.sizes)
    ensures Slab(b, c) <= Pow2(CapacityBits(b)) * ClassSize(b, c)
  {
    hide Pow2, ClassSize, Capacity, NumClasses, SlabBits, MaxCapacity, Slab;
    var n, z := CapacityBits(b), ClassSize(b, c);
    var N := Pow2(n);
    CapacityPositive(b);
    NextPow2Least(MaxCapacity(b, NumClasses(b.sizes)), n);
    AtLeastFour(n);
    if N * z < Slab(b, c) {
      CapacityTimes(b, c);
      MulMonotone(Capacity(b, c) + 1, N + 1, z);
      SizeInWord(b, c);
      var i := LargerElsewhere(b, c, n);
      assert false;
    }
  }

  lemma SizeInWord(b: Build, c: nat)
    requires Plausible(b) && c < NumClasses(b.sizes)
    ensures ClassSize(b, c) <= Top(b.sizes) <= Pow2(BITS - 1)
  {
    hide SizeOf, Pow2, NumClasses, TableSize;
    LastClass(b.sizes);
    SizesMonotone(b.sizes, c, NumClasses(b.sizes) - 1);
    Pow2Monotone(Max(b.sizes.smallBits, b.sizes.step), BITS - 1);
  }

  lemma NotOne(n: nat)
    requires Pow2(n) >= 4
    ensures n > 0
  {}

  lemma AtLeastFour(n: nat)
    requires Pow2(n) >= 3
    ensures Pow2(n) >= 4
  {
    assert Pow2(1) == 2;
    if n >= 2 { Pow2Monotone(2, n); }
  }
}
