/** Adding a whole range of memory to the buddy allocator, block by block: what
    becomes free, what grows too large, and why a range of twice the size needed
    always serves a request that found nothing. */
module BuddyRefill {
  import opened Bits
  import opened RangeBlocks
  import opened BuddySpec

  /** The free blocks after the blocks of `ts` were added in turn. */
  function AddedAll(cfg: Config, free: set<Block>, ts: seq<Block>): set<Block>
    decreases |ts|
  {
    if ts == [] then free else AddedAll(cfg, Added(cfg, free, ts[0]), ts[1..])
  }

  /** The blocks that grew to the size the range does not keep. */
  function Overflowed(cfg: Config, free: set<Block>, ts: seq<Block>): seq<Block>
    decreases |ts|
  {
    if ts == [] then []
    else
      var m := Merge(cfg, free, ts[0]).1;
      (if m.bits < cfg.maxBits then [] else [m]) + Overflowed(cfg, Added(cfg, free, ts[0]), ts[1..])
  }

  // ----- how far a block can grow

  /** The block meets the range from `lo` to `hi` and sticks out by less than 2^b bytes on either side. */
  predicate Near(l: Block, lo: nat, hi: nat, b: nat) {
    && l.addr < hi && lo < End(l)
    && lo < l.addr + Pow2(b) && End(l) < hi + Pow2(b)
  }

  /** All blocks of 2^b bytes or more are near the range. */
  ghost predicate BigOnesNear(free: set<Block>, lo: nat, hi: nat, b: nat) {
    forall l :: l in free && b <= l.bits ==> Near(l, lo, hi, b)
  }

  /** One merge: a block below 2^b reaches at most that size, and one above has
      only near blocks to merge with. */
  lemma MergeStaysNear(k: Block, lo: nat, hi: nat, b: nat)
    requires Aligned(k.addr, k.bits) && Near(k, lo, hi, b)
    requires b <= k.bits ==> Near(BuddyOf(k), lo, hi, b)
    requires BuddyOf(k).addr != 0
    ensures Near(ParentOf(k), lo, hi, b)
  {
    Family(k);
    hide Aligned, AlignDown, BuddyOf, ParentOf, Pow2;
    if k.bits < b { Pow2Monotone(k.bits + 1, b); }
  }

  lemma {:induction false} MergeNear(cfg: Config, free: set<Block>, k: Block, lo: nat, hi: nat, b: nat)
    requires AllPlaced(cfg, free) && Placed(cfg, k)
    requires BigOnesNear(free, lo, hi, b) && Near(k, lo, hi, b)
    ensures var (f, m) := Merge(cfg, free, k);
      f <= free && Placed(cfg, m) && Near(m, lo, hi, b) && k.bits <= m.bits
    ensures var (f, m) := Merge(cfg, free, k);
      forall l :: l in free && l !in f ==> l.bits < m.bits
    decreases cfg.maxBits - k.bits
  {
    hide Aligned, AlignDown, BuddyOf, Pow2, Near, CanConsolidate;
    if k.bits < cfg.maxBits && BuddyOf(k) in free && CanConsolidate(cfg, k) {
      FamilyPlaced(cfg, k);
      Family(k);
      MergeStaysNear(k, lo, hi, b);
      MergeNear(cfg, free - {BuddyOf(k)}, ParentOf(k), lo, hi, b);
    }
  }

  /** A near block is smaller than the range and twice 2^b together. */
  lemma NearIsSmall(cfg: Config, m: Block, lo: nat, hi: nat, b: nat)
    requires Near(m, lo, hi, b) && lo <= hi && hi - lo + 2 * Pow2(b) <= Pow2(cfg.maxBits)
    ensures m.bits < cfg.maxBits
  {
    if cfg.maxBits <= m.bits { Pow2Monotone(cfg.maxBits, m.bits); }
  }

  ghost predicate HasBig(free: set<Block>, b: nat) {
    exists l :: l in free && b <= l.bits
  }

  /** No block overflows, and a block of 2^b bytes stays or becomes one. */
  lemma AddNear(cfg: Config, free: set<Block>, k: Block, lo: nat, hi: nat, b: nat)
    requires AllPlaced(cfg, free) && Placed(cfg, k)
    requires BigOnesNear(free, lo, hi, b) && Near(k, lo, hi, b)
    requires lo <= hi && hi - lo + 2 * Pow2(b) <= Pow2(cfg.maxBits)
    ensures Merge(cfg, free, k).1.bits < cfg.maxBits
    ensures AllPlaced(cfg, Added(cfg, free, k)) && BigOnesNear(Added(cfg, free, k), lo, hi, b)
    ensures HasBig(free, b) || b <= k.bits ==> HasBig(Added(cfg, free, k), b)
  {
    hide Placed, Near, Merge, Pow2;
    var (f, m) := Merge(cfg, free, k);
    MergeNear(cfg, free, k, lo, hi, b);
    NearIsSmall(cfg, m, lo, hi, b);
    assert m in Added(cfg, free, k);
    if l :| l in free && b <= l.bits {
      assert l in f ==> l in Added(cfg, free, k);
    }
  }

  /** The blocks lie in the range and are of sizes the allocator takes. */
  ghost predicate Fits(cfg: Config, ts: seq<Block>, lo: nat, hi: nat) {
    forall k :: k in ts ==> Placed(cfg, k) && lo <= k.addr && End(k) <= hi
  }

  lemma {:induction false} AddAllNear(cfg: Config, free: set<Block>, ts: seq<Block>, lo: nat, hi: nat, b: nat)
    requires AllPlaced(cfg, free) && BigOnesNear(free, lo, hi, b) && Fits(cfg, ts, lo, hi)
    requires lo <= hi && hi - lo + 2 * Pow2(b) <= Pow2(cfg.maxBits)
    ensures Overflowed(cfg, free, ts) == [] && AllPlaced(cfg, AddedAll(cfg, free, ts))
    ensures HasBig(free, b) || (exists k :: k in ts && b <= k.bits) ==> HasBig(AddedAll(cfg, free, ts), b)
    decreases |ts|
  {
    hide Placed, Near, Merge, Pow2, Added, AllPlaced, BigOnesNear;
    if ts != [] {
      InsideIsNear(cfg, ts[0], lo, hi, b);
      AddNear(cfg, free, ts[0], lo, hi, b);
      AddAllNear(cfg, Added(cfg, free, ts[0]), ts[1..], lo, hi, b);
      if k :| k in ts && b <= k.bits { assert k == ts[0] || k in ts[1..]; }
    }
  }

  lemma InsideIsNear(cfg: Config, k: Block, lo: nat, hi: nat, b: nat)
    requires Placed(cfg, k) && lo <= k.addr && End(k) <= hi
    ensures Near(k, lo, hi, b)
  {}

  // ----- the range contains a block of the size needed

  /** Wherever an aligned block of 2^b bytes fits, the loop emits one at least as large. */
  lemma {:induction false} GreedyHasBig(lo: nat, hi: nat, a: nat, b: nat)
    requires 0 < lo <= a && Aligned(a, b) && a + Pow2(b) <= hi
    ensures exists k :: k in Greedy(lo, hi) && b <= k.bits
    decreases hi - lo
  {
    hide Pow2, Aligned, Greedy, Ctz, Log2;
    GreedyStep(lo, hi);
    var n := NextBits(lo, hi - lo);
    assert Block(n, lo) in Greedy(lo, hi);
    if n < b {
      if lo == a {
        CtzGreatest(a, b);
        Log2Greatest(hi - a, b);
        assert false;
      }
      AlignedWeaken(lo, n, Ctz(lo));
      AlignedWeaken(a, n, b);
      AlignedGap(lo, a, n);
      GreedyHasBig(lo + Pow2(n), hi, a, b);
      var k :| k in Greedy(lo + Pow2(n), hi) && b <= k.bits;
      assert k in Greedy(lo, hi);
    }
  }

  lemma {:induction false} GreedyFits(cfg: Config, lo: nat, hi: nat)
    requires 0 < lo <= hi <= Pow2(64) && cfg.minBits <= cfg.maxBits < 64
    requires Aligned(lo, cfg.minBits) && Aligned(hi, cfg.minBits) && hi - lo < Pow2(cfg.maxBits)
    ensures Tiles(Greedy(lo, hi), lo, hi) && Fits(cfg, Greedy(lo, hi), lo, hi)
    ensures forall k :: k in Greedy(lo, hi) ==> k.bits < cfg.maxBits
    decreases hi - lo
  {
    hide Pow2, Aligned, Greedy, Ctz, Log2, NextBits;
    GreedyStep(lo, hi);
    if lo < hi {
      var n := NextBits(lo, hi - lo);
      AlignedAdd(hi, lo, cfg.minBits);
      NextBitsFit(lo, hi - lo, cfg.minBits);
      if cfg.maxBits <= n { Pow2Monotone(cfg.maxBits, n); }
      assert Pow2(n) > 0;
      GreedyFits(cfg, lo + Pow2(n), hi);
      assert Greedy(lo, hi)[0] == Block(n, lo) && Greedy(lo, hi)[1..] == Greedy(lo + Pow2(n), hi);
    }
  }

  /** The ends of the usable part, and an aligned block of 2^b bytes inside it. */
  lemma UsablePart(base: nat, length: nat, min: nat, b: nat)
    requires min <= b && 2 * Pow2(b) <= length
    ensures var lo, hi, a := AlignUp(base, min), AlignDown(base + length, min), AlignUp(base, b);
      && base <= lo <= a && Aligned(a, b) && a + Pow2(b) <= hi <= base + length
      && Aligned(lo, min) && Aligned(hi, min)
  {
    var lo, hi, a := AlignUp(base, min), AlignDown(base + length, min), AlignUp(base, b);
    hide Pow2, Aligned;
    AlignedWeaken(a, min, b);
    MulAligned(1, b);
    AlignedWeaken(Pow2(b), min, b);
    AlignedAdd(a, Pow2(b), min);
    if a < lo { AlignedGap(a, lo, min); }
    if hi < a + Pow2(b) { AlignedGap(hi, a + Pow2(b), min); }
  }

  /** No free block reaches 2^b bytes: then a range of at least twice that size,
      however it is aligned, never overflows and leaves a free block that does. */
  lemma RangeServes(cfg: Config, free: set<Block>, base: nat, length: nat, b: nat)
    requires AllPlaced(cfg, free) && !HasBig(free, b) && cfg.minBits <= b && cfg.minBits <= cfg.maxBits < 64
    requires 2 * Pow2(b) <= length && length + 2 * Pow2(b) <= Pow2(cfg.maxBits)
    requires 0 < base && base + length < Pow2(64)
    ensures var lo, hi := AlignUp(base, cfg.minBits), AlignDown(base + length, cfg.minBits);
      && 0 < lo <= hi
      && Overflowed(cfg, free, Greedy(lo, hi)) == []
      && HasBig(AddedAll(cfg, free, Greedy(lo, hi)), b)
  {
    hide Pow2, Aligned, AlignDown, AlignUp, Greedy, Tiles, AddedAll, Overflowed, Fits, AllPlaced;
    UsablePart(base, length, cfg.minBits, b);
    var lo, hi := AlignUp(base, cfg.minBits), AlignDown(base + length, cfg.minBits);
    GreedyFits(cfg, lo, hi);
    GreedyHasBig(lo, hi, AlignUp(base, b), b);
    AddAllNear(cfg, free, Greedy(lo, hi), lo, hi, b);
  }

  /** A power of two below the limit is such a length, for every size it is twice of. */
  lemma RefillServes(cfg: Config, free: set<Block>, base: nat, s: nat, b: nat)
    requires AllPlaced(cfg, free) && !HasBig(free, b) && cfg.minBits <= b < s < cfg.maxBits < 64
    requires 0 < base && base + Pow2(s) < Pow2(64)
    ensures var lo, hi := AlignUp(base, cfg.minBits), AlignDown(base + Pow2(s), cfg.minBits);
      && 0 < lo <= hi
      && Overflowed(cfg, free, Greedy(lo, hi)) == []
      && HasBig(AddedAll(cfg, free, Greedy(lo, hi)), b)
  {
    hide Pow2, Aligned, AlignDown, Greedy, AddedAll, Overflowed, AllPlaced, HasBig;
    Pow2Next(b);
    Pow2Next(s);
    Pow2Monotone(b + 1, s);
    Pow2Monotone(s + 1, cfg.maxBits);
    RangeServes(cfg, free, base, Pow2(s), b);
  }

  /** At the limit itself the claim fails: an aligned range is one block too large to keep. */
  lemma RefillAtTheLimit(cfg: Config, base: nat)
    requires cfg.minBits <= cfg.maxBits < 64 && 0 < base && Aligned(base, cfg.maxBits) && base + Pow2(cfg.maxBits) < Pow2(64)
    ensures Greedy(base, base + Pow2(cfg.maxBits)) == [Block(cfg.maxBits, base)]
    ensures Overflowed(cfg, {}, Greedy(base, base + Pow2(cfg.maxBits))) == [Block(cfg.maxBits, base)]
    ensures AddedAll(cfg, {}, Greedy(base, base + Pow2(cfg.maxBits))) == {}
  {
    hide Pow2, Aligned, Greedy, Ctz, Log2;
    var n, hi := cfg.maxBits, base + Pow2(cfg.maxBits);
    GreedyStep(base, hi);
    GreedyStep(hi, hi);
    CtzGreatest(base, n);
    Log2Greatest(Pow2(n), n);
    if n < NextBits(base, Pow2(n)) { Pow2Strict(n, Log2(Pow2(n))); }
    assert Greedy(base, hi) == [Block(n, base)];
    assert AddedAll(cfg, Added(cfg, {}, Block(n, base)), []) == Added(cfg, {}, Block(n, base));
  }
}
