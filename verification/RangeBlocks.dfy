/** `range_to_pow_2_blocks`: cutting an address range into power-of-two blocks,
    each aligned to its own size. */
module RangeBlocks {
  import opened Bits

  /** The block of 2^bits bytes at `addr`. */
  datatype Block = Block(bits: nat, addr: nat)

  function Size(k: Block): nat { Pow2(k.bits) }

  function End(k: Block): nat { k.addr + Size(k) }

  /** Number of trailing zero bits. */
  function Ctz(x: nat): (n: nat)
    requires x > 0
    ensures Aligned(x, n) && !Aligned(x, n + 1)
  {
    if x % 2 == 1 then
      assert Pow2(1) == 2;
      0
    else
      var n := Ctz(x / 2);
      CtzDouble(x / 2, n);
      CtzDouble(x / 2, n + 1);
      n + 1
  }

  lemma CtzDouble(x: nat, n: nat)
    ensures Aligned(2 * x, n + 1) <==> Aligned(x, n)
  {
    var p := Pow2(n);
    DivUnique(2 * x, 2 * p, x / p, 2 * (x % p));
  }

  /** Position of the highest one bit. */
  function Log2(x: nat): (n: nat)
    requires x > 0
    ensures Pow2(n) <= x < 2 * Pow2(n)
  {
    if x == 1 then 0 else Log2(x / 2) + 1
  }

  lemma CtzGreatest(x: nat, n: nat)
    requires x > 0 && Aligned(x, n)
    ensures n <= Ctz(x)
  {
    if Ctz(x) < n { AlignedWeaken(x, Ctz(x) + 1, n); }
  }

  lemma Log2Greatest(x: nat, n: nat)
    requires x > 0 && Pow2(n) <= x
    ensures n <= Log2(x)
  {
    if Log2(x) < n { Pow2Strict(Log2(x), n); }
  }

  /** The blocks lie end to end from `lo` to `hi`, each aligned to its size. */
  ghost predicate Tiles(ts: seq<Block>, lo: nat, hi: nat)
    decreases |ts|
  {
    if ts == [] then lo == hi
    else ts[0].addr == lo && Aligned(lo, ts[0].bits) && Tiles(ts[1..], End(ts[0]), hi)
  }

  lemma {:induction false} TilesUpwards(ts: seq<Block>, lo: nat, hi: nat)
    requires Tiles(ts, lo, hi)
    ensures lo <= hi
    decreases |ts|
  {
    if ts != [] { TilesUpwards(ts[1..], End(ts[0]), hi); }
  }

  lemma {:induction false} TilesAppend(ts: seq<Block>, lo: nat, hi: nat, k: Block)
    requires Tiles(ts, lo, hi) && k.addr == hi && Aligned(hi, k.bits)
    ensures Tiles(ts + [k], lo, End(k))
    decreases |ts|
  {
    if ts == [] {
      assert (ts + [k])[1..] == [];
    } else {
      TilesAppend(ts[1..], End(ts[0]), hi, k);
      assert (ts + [k])[1..] == ts[1..] + [k];
    }
  }

  /** The block the loop takes next. */
  function NextBits(base: nat, length: nat): nat
    requires base > 0 && length > 0
  {
    Min(Ctz(base), Log2(length))
  }

  lemma AlignedPositive(n: nat, b: nat)
    requires n > 0 && Aligned(n, b)
    ensures Pow2(b) <= n
  {
    MultipleMod(0, Pow2(b));
    AlignedGap(0, n, b);
  }

  lemma NextBitsFit(base: nat, length: nat, minBits: nat)
    requires base > 0 && length > 0 && Aligned(base, minBits) && Aligned(length, minBits)
    ensures var b := NextBits(base, length);
      && minBits <= b && Pow2(b) <= length && Aligned(base, b)
      && Aligned(base + Pow2(b), minBits) && Aligned(length - Pow2(b), minBits)
  {
    var b := NextBits(base, length);
    CtzGreatest(base, minBits);
    AlignedPositive(length, minBits);
    Log2Greatest(length, minBits);
    AlignedWeaken(base, b, Ctz(base));
    Pow2Monotone(b, Log2(length));
    MultipleMod(1, Pow2(b));
    AlignedWeaken(Pow2(b), minBits, b);
    AlignedAdd(base, Pow2(b), minBits);
    AlignedAdd(length, Pow2(b), minBits);
  }

  /** What the loop emits for an aligned range. */
  function Greedy(lo: nat, hi: nat): seq<Block>
    requires 0 < lo <= hi
    decreases hi - lo
  {
    if lo == hi then []
    else
      var b := NextBits(lo, hi - lo);
      Pow2Monotone(b, Log2(hi - lo));
      [Block(b, lo)] + Greedy(lo + Pow2(b), hi)
  }

  lemma GreedyStep(lo: nat, hi: nat)
    requires 0 < lo <= hi
    ensures if lo == hi then Greedy(lo, hi) == []
            else var b := NextBits(lo, hi - lo);
              && lo + Pow2(b) <= hi
              && Greedy(lo, hi) == [Block(b, lo)] + Greedy(lo + Pow2(b), hi)
  {
    if lo < hi { Pow2Monotone(NextBits(lo, hi - lo), Log2(hi - lo)); }
  }

  lemma EmptyTiles(lo: nat)
    ensures Tiles([], lo, lo)
  {}

  /** No tiling of the range by aligned power-of-two blocks uses fewer blocks. */
  lemma {:induction false} GreedyMinimal(lo: nat, hi: nat, ts: seq<Block>)
    requires 0 < lo <= hi && Tiles(ts, lo, hi)
    ensures |Greedy(lo, hi)| <= |ts|
    decreases hi - lo
  {
    if lo < hi {
      var b := NextBits(lo, hi - lo);
      Pow2Monotone(b, Log2(hi - lo));
      AlignedWeaken(lo, b, Ctz(lo));
      TilesUpwards(ts[1..], End(ts[0]), hi);
      CtzGreatest(lo, ts[0].bits);
      Log2Greatest(hi - lo, ts[0].bits);
      var k := BreaksAt(ts, lo, lo, b, hi);
      GreedyMinimal(lo + Pow2(b), hi, ts[k..]);
    }
  }

  /** Any tiling has a seam wherever a larger aligned block would end. */
  lemma {:induction false} BreaksAt(ts: seq<Block>, x: nat, lo: nat, b: nat, hi: nat) returns (k: nat)
    requires Tiles(ts, x, hi) && Aligned(lo, b) && lo <= x < lo + Pow2(b) <= hi
    requires x == lo ==> ts != [] && ts[0].bits <= b
    ensures 1 <= k <= |ts| && Tiles(ts[k..], lo + Pow2(b), hi)
    decreases |ts|
  {
    var s, mid := ts[0].bits, lo + Pow2(b);
    if b <= s && lo < x {
      AlignedWeaken(x, b, s);
      AlignedGap(lo, x, b);
      assert false;
    }
    MultipleMod(1, Pow2(b));
    AlignedAdd(lo, Pow2(b), b);
    AlignedWeaken(mid, s, b);
    AlignedGap(x, mid, s);
    if x + Pow2(s) == mid {
      k := 1;
    } else {
      var k' := BreaksAt(ts[1..], x + Pow2(s), lo, b, hi);
      assert ts[1..][k'..] == ts[1 + k'..];
      k := 1 + k';
    }
  }

  /** The loop itself.  The range must contain a point aligned to the smallest
      block size, which is what the pointer difference in it asserts. */
  method RangeToPow2Blocks(base0: nat, length0: nat, minBits: nat) returns (blocks: seq<Block>)
    requires base0 > 0 && base0 + length0 < Pow2(64) && minBits < 64
    requires AlignUp(base0, minBits) <= base0 + length0
    ensures 0 < AlignUp(base0, minBits) <= AlignDown(base0 + length0, minBits)
    ensures blocks == Greedy(AlignUp(base0, minBits), AlignDown(base0 + length0, minBits))
    ensures Tiles(blocks, AlignUp(base0, minBits), AlignDown(base0 + length0, minBits))
    ensures forall k :: k in blocks ==> k.bits >= minBits && k.addr >= base0 && End(k) <= base0 + length0
    ensures forall ts :: Tiles(ts, AlignUp(base0, minBits), AlignDown(base0 + length0, minBits)) ==> |blocks| <= |ts|
  {
    hide Pow2, Aligned, AlignDown, Tiles, Greedy, Ctz, Log2;
    var end := AlignDown(base0 + length0, minBits);
    var base := AlignUp(base0, minBits);
    assert base >= base0;
    assert base <= end by {
      if end < base { AlignedGap(end, base, minBits); }
    }
    var length: nat := end - base;
    AlignedAdd(end, base, minBits);
    ghost var lo := base;
    blocks := [];
    EmptyTiles(lo);
    while length >= Pow2(minBits)
      invariant lo <= base && base + length == end && Aligned(base, minBits) && Aligned(length, minBits)
      invariant Tiles(blocks, lo, base)
      invariant Greedy(lo, end) == blocks + Greedy(base, end)
      invariant forall k :: k in blocks ==> k.bits >= minBits && k.addr >= lo && End(k) <= end
      decreases length
    {
      var alignBits := Min(Ctz(base), Log2(length));
      NextBitsFit(base, length, minBits);
      GreedyStep(base, end);
      TilesAppend(blocks, lo, base, Block(alignBits, base));
      blocks := blocks + [Block(alignBits, base)];
      base := base + Pow2(alignBits);
      length := length - Pow2(alignBits);
    }
    if length > 0 { AlignedPositive(length, minBits); }
    assert base == end;
    GreedyStep(end, end);
    assert blocks == Greedy(lo, end);
    forall ts | Tiles(ts, lo, end) ensures |blocks| <= |ts| { GreedyMinimal(lo, end, ts); }
  }

  /** Without such a point the difference of the pointers is negative. */
  lemma NoAlignedPoint(base: nat, length: nat, minBits: nat)
    ensures AlignUp(base, minBits) <= AlignDown(base + length, minBits) <==>
            exists x :: base <= x <= base + length && Aligned(x, minBits)
  {
    var up, down := AlignUp(base, minBits), AlignDown(base + length, minBits);
    assert up >= base;
    if x :| base <= x <= base + length && Aligned(x, minBits) {
      if x < up { AlignedGap(x, up, minBits); }
      if down < x { AlignedGap(down, x, minBits); }
    }
    if up <= down { assert base <= up <= base + length && Aligned(up, minBits); }
  }

  /** The length the loop starts with when the difference is taken on 64-bit words. */
  function WrappedLength(base: nat, length: nat, minBits: nat): nat {
    (AlignDown(base + length, minBits) - AlignUp(base, minBits)) % WORD
  }

  /** Then the wrapped length is always that of the whole address space but one
      block, and the very first block taken lies beyond the range. */
  lemma WrapsBeyond(base: nat, length: nat, minBits: nat)
    requires base > 0 && minBits < 64 && AlignUp(base, minBits) < WORD && AlignDown(base + length, minBits) < AlignUp(base, minBits)
    ensures var up, w := AlignUp(base, minBits), WrappedLength(base, length, minBits);
      && up > base + length && w == WORD - Pow2(minBits) && Pow2(minBits) <= w
      && minBits <= NextBits(up, w)
  {
    hide Pow2, Aligned, AlignDown, Ctz, Log2;
    var up, down, p := AlignUp(base, minBits), AlignDown(base + length, minBits), Pow2(minBits);
    Pow2Of64();
    Pow2Next(63);
    Pow2Monotone(minBits, 63);
    AlignedGap(down, up, minBits);
    if down + p < up {
      MulAligned(1, minBits);
      AlignedAdd(down, p, minBits);
      AlignedGap(down + p, up, minBits);
      assert false;
    }
    var gap: int := p;
    DivUnique(-gap, WORD, -1, WORD - p);
    CtzGreatest(up, minBits);
    Log2Greatest(WORD - p, minBits);
  }

  /** Ten bytes at address 1 hold no multiple of 16 KiB: the first block taken is
      the one at 16384. */
  lemma TenBytes()
    ensures AlignUp(1, 14) == 0x4000 && AlignDown(1 + 10, 14) == 0
    ensures WrappedLength(1, 10, 14) == WORD - 0x4000 && NextBits(0x4000, WORD - 0x4000) == 14
  {
    PowersAt14();
    hide Pow2, Ctz, Log2;
    AlignDownUnique(0x4000, 1 + 0x4000 - 1, 14);
    AlignDownUnique(0, 11, 14);
    WrapsBeyond(1, 10, 14);
    if 15 <= Ctz(0x4000) { AlignedWeaken(0x4000, 15, Ctz(0x4000)); }
  }

  lemma PowersAt14()
    ensures Pow2(14) == 0x4000 && Pow2(15) == 0x8000
  {
    assert Pow2(7) == 128;
    Pow2Sum(7, 7);
    Pow2Next(14);
  }
}
