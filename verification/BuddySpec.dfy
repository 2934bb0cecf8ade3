/** The buddy allocator on values: which blocks are free, how an added block
    merges with its buddies, how a block is carved out of a larger one, and
    which memory has been returned to the operating system meanwhile. */
module BuddySpec {
  import opened Bits
  import opened RangeBlocks

  /** Blocks of 2^minBits up to, not including, 2^maxBits bytes are kept.
      `boundary` holds the addresses whose entry forbids merging downwards. */
  datatype Config = Config(minBits: nat, maxBits: nat, boundary: set<nat>)

  function BuddyOf(k: Block): Block {
    Block(k.bits, if AlignDown(k.addr, k.bits + 1) == k.addr then End(k) else if k.addr >= Size(k) then k.addr - Size(k) else 0)
  }

  function ParentOf(k: Block): Block {
    Block(k.bits + 1, AlignDown(k.addr, k.bits + 1))
  }

  predicate CanConsolidate(cfg: Config, k: Block) {
    (if k.addr < BuddyOf(k).addr then BuddyOf(k).addr else k.addr) !in cfg.boundary
  }

  predicate Inside(x: nat, k: Block) {
    k.addr <= x < End(k)
  }

  predicate Overlap(k: Block, l: Block) {
    k.addr < End(l) && l.addr < End(k)
  }

  /** Aligned to its size, within the sizes handled and the address space, and
      not at the null address. */
  predicate Placed(cfg: Config, k: Block) {
    && cfg.minBits <= k.bits <= cfg.maxBits < 64 && Aligned(k.addr, k.bits)
    && 0 < k.addr < Pow2(64)
  }

  /** An aligned block does not stick out of the address space. */
  lemma InSpace(k: Block)
    requires k.bits <= 64 && Aligned(k.addr, k.bits) && k.addr < Pow2(64)
    ensures End(k) <= Pow2(64)
  {
    MultipleMod(1, Pow2(64));
    AlignedWeaken(Pow2(64), k.bits, 64);
    AlignedGap(k.addr, Pow2(64), k.bits);
  }

  ghost predicate Disjoint(free: set<Block>) {
    forall k, l :: k in free && l in free && k != l ==> !Overlap(k, l)
  }

  ghost predicate Apart(free: set<Block>, k: Block) {
    forall l :: l in free ==> !Overlap(l, k)
  }

  ghost predicate Covered(free: set<Block>, x: nat) {
    exists k :: k in free && Inside(x, k)
  }

  /** No two free buddies that may merge. */
  ghost predicate Coalesced(cfg: Config, free: set<Block>) {
    forall k :: k in free && BuddyOf(k) in free ==> !CanConsolidate(cfg, k)
  }

  ghost predicate AllPlaced(cfg: Config, free: set<Block>) {
    forall k :: k in free ==> Placed(cfg, k) && k.bits < cfg.maxBits
  }

  ghost predicate FreeInv(cfg: Config, free: set<Block>) {
    AllPlaced(cfg, free) && Disjoint(free) && Coalesced(cfg, free)
  }

  // ----- a block, its buddy and their parent

  /** Two blocks end to end make up a third. */
  predicate HalvesOf(p: Block, k: Block, b: Block) {
    && b != k
    && (if k.addr < b.addr then p.addr == k.addr && End(k) == b.addr && End(p) == End(b)
        else p.addr == b.addr && End(b) == k.addr && End(p) == End(k))
  }

  lemma Family(k: Block)
    requires Aligned(k.addr, k.bits)
    ensures var b, p := BuddyOf(k), ParentOf(k);
      && Aligned(b.addr, b.bits) && Aligned(p.addr, p.bits) && b.bits == k.bits && HalvesOf(p, k, b)
      && BuddyOf(b) == k && ParentOf(b) == p
  {
    var p := ParentOf(k);
    Halves(k.addr, k.bits);
    AlignedWeaken(p.addr, k.bits, p.bits);
    AlignedAdd(p.addr, Pow2(k.bits), k.bits);
    AlignDownUnique(p.addr, p.addr, p.bits);
    AlignDownUnique(p.addr, p.addr + Pow2(k.bits), p.bits);
  }

  /** The exclusive or with the size finds the buddy. */
  lemma BuddyIsXor(k: Block)
    requires Aligned(k.addr, k.bits)
    ensures BuddyOf(k).addr == BitXor(k.addr, Size(k))
  {
    BitXorFlip(k.addr, k.bits);
    Halves(k.addr, k.bits);
  }

  /** The block whose address is its size is the one with the null address as its buddy. */
  lemma NullBuddy(k: Block)
    requires Aligned(k.addr, k.bits) && k.addr > 0
    ensures BuddyOf(k).addr == 0 <==> k.addr == Size(k)
  {
    Family(k);
    Halves(k.addr, k.bits);
    if k.addr == Size(k) { AlignDownUnique(0, k.addr, k.bits + 1); }
  }

  /** Merged with it, the block would start at the null address. */
  lemma NullParent(k: Block)
    requires Aligned(k.addr, k.bits) && k.addr > 0 && BuddyOf(k).addr == 0
    ensures ParentOf(k).addr == 0
  {
    Family(k);
  }

  lemma FamilyPlaced(cfg: Config, k: Block)
    requires Placed(cfg, k) && k.bits < cfg.maxBits && BuddyOf(k).addr != 0
    ensures Placed(cfg, ParentOf(k)) && Placed(cfg, BuddyOf(k))
  {
    Family(k);
    InSpace(ParentOf(k));
  }

  // ----- adding a block

  /** The block grows while its buddy is free and may be merged. */
  function Merge(cfg: Config, free: set<Block>, k: Block): (set<Block>, Block)
    decreases cfg.maxBits - k.bits
  {
    if k.bits < cfg.maxBits && BuddyOf(k) in free && CanConsolidate(cfg, k)
    then Merge(cfg, free - {BuddyOf(k)}, ParentOf(k))
    else (free, k)
  }

  /** At no turn of the merge is the null address searched for as a buddy: it
      stands for an empty cache slot. */
  ghost predicate ChainSafe(cfg: Config, free: set<Block>, k: Block)
    decreases cfg.maxBits - k.bits
  {
    k.bits < cfg.maxBits ==>
      && BuddyOf(k).addr != 0
      && (BuddyOf(k) in free && CanConsolidate(cfg, k) ==> ChainSafe(cfg, free - {BuddyOf(k)}, ParentOf(k)))
  }

  /** That is so exactly if the block that comes out is not the one at its own size. */
  lemma {:induction false} ChainSafeWhen(cfg: Config, free: set<Block>, k: Block)
    requires AllPlaced(cfg, free) && Placed(cfg, k)
    ensures var m := Merge(cfg, free, k).1;
      ChainSafe(cfg, free, k) <==> (m.bits < cfg.maxBits ==> m.addr != Size(m))
    decreases cfg.maxBits - k.bits
  {
    NullBuddy(k);
    if k.bits < cfg.maxBits && BuddyOf(k) in free && CanConsolidate(cfg, k) {
      FamilyPlaced(cfg, k);
      ChainSafeWhen(cfg, free - {BuddyOf(k)}, ParentOf(k));
    }
  }

  /** One merge of a block with a free one. */
  lemma MergeStep(free: set<Block>, k: Block, b: Block, p: Block)
    requires Disjoint(free) && Apart(free, k) && b in free && HalvesOf(p, k, b)
    ensures Apart(free - {b}, p)
    ensures forall x :: Inside(x, p) <==> Inside(x, k) || Inside(x, b)
  {
    hide Pow2;
  }

  lemma {:induction false} MergeSound(cfg: Config, free: set<Block>, k: Block)
    requires FreeInv(cfg, free) && Placed(cfg, k) && Apart(free, k)
    ensures var (f, m) := Merge(cfg, free, k);
      && f <= free && FreeInv(cfg, f)
      && Placed(cfg, m) && Apart(f, m) && m.addr <= k.addr && End(k) <= End(m)
      && (m.bits < cfg.maxBits && BuddyOf(m) in f ==> !CanConsolidate(cfg, m))
      && (forall l :: l in free && l !in f ==> m.addr <= l.addr && End(l) <= End(m))
      && (m != k ==> m.bits > k.bits)
    decreases cfg.maxBits - k.bits
  {
    if k.bits < cfg.maxBits && BuddyOf(k) in free && CanConsolidate(cfg, k) {
      Family(k);
      FamilyPlaced(cfg, k);
      MergeStep(free, k, BuddyOf(k), ParentOf(k));
      MergeSound(cfg, free - {BuddyOf(k)}, ParentOf(k));
    }
  }

  /** Wherever two halves were merged, the upper one does not start at a boundary. */
  lemma {:induction false} MergeRespectsBoundary(cfg: Config, free: set<Block>, k: Block, j: nat)
    requires AllPlaced(cfg, free) && Placed(cfg, k)
    requires k.bits <= j < Merge(cfg, free, k).1.bits
    ensures AlignDown(k.addr, j + 1) + Pow2(j) !in cfg.boundary
    decreases cfg.maxBits - k.bits
  {
    hide Pow2, Aligned, AlignDown, BuddyOf, ParentOf, CanConsolidate;
    assert k.bits < cfg.maxBits && BuddyOf(k) in free && CanConsolidate(cfg, k);
    FamilyPlaced(cfg, k);
    if j == k.bits {
      UpperHalf(cfg, k);
    } else {
      ParentIs(k);
      AlignTwice(k.addr, k.bits + 1, j + 1);
      MergeRespectsBoundary(cfg, free - {BuddyOf(k)}, ParentOf(k), j);
    }
  }

  /** A block may merge with its buddy exactly if the upper of the two is not a boundary. */
  lemma UpperHalf(cfg: Config, k: Block)
    requires Aligned(k.addr, k.bits)
    ensures CanConsolidate(cfg, k) <==> AlignDown(k.addr, k.bits + 1) + Pow2(k.bits) !in cfg.boundary
  {
    Family(k);
    hide Pow2, Aligned, AlignDown;
  }

  lemma ParentIs(k: Block)
    ensures ParentOf(k) == Block(k.bits + 1, AlignDown(k.addr, k.bits + 1))
  {}

  lemma AlignTwice(x: nat, a: nat, b: nat)
    requires a <= b
    ensures AlignDown(AlignDown(x, a), b) == AlignDown(x, b)
  {
    hide Pow2, Aligned, AlignDown;
    var y, z := AlignDown(x, a), AlignDown(x, b);
    AlignedWeaken(z, a, b);
    if y < z { AlignedGap(y, z, a); }
    AlignDownUnique(z, y, b);
  }

  /** Two free halves that stay apart are kept apart by a boundary between them. */
  lemma KeptApart(cfg: Config, free: set<Block>, low: Block, high: Block)
    requires FreeInv(cfg, free) && low in free && high in free
    requires low.bits == high.bits && high.addr == End(low) && Aligned(low.addr, low.bits + 1)
    ensures high.addr in cfg.boundary
  {
    AlignDownUnique(low.addr, low.addr, low.bits + 1);
    UpperHalf(cfg, low);
    assert BuddyOf(low) == high;
  }

  /** Merging neither loses nor invents memory. */
  lemma {:induction false} MergeConserves(cfg: Config, free: set<Block>, k: Block, x: nat)
    requires FreeInv(cfg, free) && Placed(cfg, k) && Apart(free, k)
    ensures var (f, m) := Merge(cfg, free, k);
      (Covered(f, x) || Inside(x, m)) <==> (Covered(free, x) || Inside(x, k))
    decreases cfg.maxBits - k.bits
  {
    if k.bits < cfg.maxBits && BuddyOf(k) in free && CanConsolidate(cfg, k) {
      var b := BuddyOf(k);
      Family(k);
      FamilyPlaced(cfg, k);
      MergeStep(free, k, b, ParentOf(k));
      MergeConserves(cfg, free - {b}, ParentOf(k), x);
      if Covered(free, x) {
        var l :| l in free && Inside(x, l);
        if l != b { assert l in free - {b}; }
      }
    }
  }

  /** The free blocks after an addition, and the block that grew too big, if any. */
  function Added(cfg: Config, free: set<Block>, k: Block): set<Block> {
    var (f, m) := Merge(cfg, free, k);
    if m.bits < cfg.maxBits then f + {m} else f
  }

  lemma BuddySymmetric(cfg: Config, k: Block)
    requires Aligned(k.addr, k.bits)
    ensures CanConsolidate(cfg, BuddyOf(k)) <==> CanConsolidate(cfg, k)
  {
    Family(k);
    hide BuddyOf;
  }

  lemma AddedInv(cfg: Config, free: set<Block>, k: Block)
    requires FreeInv(cfg, free) && Placed(cfg, k) && Apart(free, k)
    ensures FreeInv(cfg, Added(cfg, free, k))
  {
    hide Pow2, Aligned, AlignDown, BuddyOf, Merge;
    MergeSound(cfg, free, k);
    var (f, m) := Merge(cfg, free, k);
    Family(m);
    BuddySymmetric(cfg, m);
    if m.bits < cfg.maxBits {
      forall l | l in f + {m} && BuddyOf(l) in f + {m} ensures !CanConsolidate(cfg, l) {
        if l != m {
          Family(l);
          BuddySymmetric(cfg, l);
        }
      }
      assert Disjoint(f + {m});
    }
  }

  // ----- taking a block out

  /** Free blocks after carving a block of 2^b bytes from the low end of `k`:
      the other half is left behind at each split. */
  function Carved(free: set<Block>, k: Block, b: nat): set<Block>
    decreases k.bits - b
  {
    if k.bits <= b then free - {k} else Carved(free, k, b + 1) + {Block(b, k.addr + Pow2(b))}
  }

  lemma {:induction false} CarvedSound(cfg: Config, free: set<Block>, k: Block, b: nat)
    requires FreeInv(cfg, free) && k in free && cfg.minBits <= b <= k.bits
    ensures FreeInv(cfg, Carved(free, k, b)) && Placed(cfg, Block(b, k.addr)) && Apart(Carved(free, k, b), Block(b, k.addr))
    ensures free - {k} <= Carved(free, k, b)
    decreases k.bits - b
  {
    hide Placed, FreeInv, Apart, Pow2;
    if b == k.bits {
      TakenSound(cfg, free, k);
    } else {
      CarvedSound(cfg, free, k, b + 1);
      SplitKeepsFree(cfg, Carved(free, k, b + 1), Block(b + 1, k.addr));
    }
  }

  lemma TakenSound(cfg: Config, free: set<Block>, k: Block)
    requires FreeInv(cfg, free) && k in free
    ensures FreeInv(cfg, free - {k}) && Placed(cfg, k) && Apart(free - {k}, k)
  {}

  lemma SplitKeepsFree(cfg: Config, f: set<Block>, big: Block)
    requires FreeInv(cfg, f) && Placed(cfg, big) && big.bits > cfg.minBits && Apart(f, big)
    ensures var low, second := Block(big.bits - 1, big.addr), Block(big.bits - 1, big.addr + Pow2(big.bits - 1));
      FreeInv(cfg, f + {second}) && Placed(cfg, low) && Apart(f + {second}, low) && low !in f
  {
    hide Pow2, Aligned, AlignDown, BuddyOf, CanConsolidate;
    SplitFacts(cfg, big);
    var low, second := Block(big.bits - 1, big.addr), Block(big.bits - 1, big.addr + Pow2(big.bits - 1));
    assert Overlap(low, big);
    assert AllPlaced(cfg, f + {second});
    assert Disjoint(f + {second});
    forall l | l in f + {second} && BuddyOf(l) in f + {second} ensures !CanConsolidate(cfg, l) {
      if l != second { Family(l); }
    }
  }

  lemma SplitFacts(cfg: Config, big: Block)
    requires Placed(cfg, big) && big.bits > cfg.minBits
    ensures var low, second := Block(big.bits - 1, big.addr), Block(big.bits - 1, big.addr + Pow2(big.bits - 1));
      && Placed(cfg, low) && Placed(cfg, second) && BuddyOf(low) == second && BuddyOf(second) == low
      && low.addr == big.addr && End(low) == second.addr && End(second) == End(big)
  {
    hide Pow2, Aligned, AlignDown;
    var b := big.bits - 1;
    InSpace(big);
    Pow2Next(b);
    AlignedWeaken(big.addr, b, b + 1);
    MulAligned(1, b);
    AlignedAdd(big.addr, Pow2(b), b);
    AlignDownUnique(big.addr, big.addr, b + 1);
    AlignDownUnique(big.addr, big.addr + Pow2(b), b + 1);
  }

  lemma SplitInside(cfg: Config, big: Block, x: nat)
    requires Placed(cfg, big) && big.bits > cfg.minBits
    ensures Inside(x, big) <==>
      Inside(x, Block(big.bits - 1, big.addr)) || Inside(x, Block(big.bits - 1, big.addr + Pow2(big.bits - 1)))
  {
    hide Pow2, Placed;
    SplitFacts(cfg, big);
  }

  lemma {:induction false} CarvedConserves(cfg: Config, free: set<Block>, k: Block, b: nat, x: nat)
    requires FreeInv(cfg, free) && k in free && cfg.minBits <= b <= k.bits
    ensures Covered(Carved(free, k, b), x) || Inside(x, Block(b, k.addr)) <==> Covered(free, x)
    decreases k.bits - b
  {
    hide Inside, Covered, FreeInv, Carved, Placed, Apart, Pow2;
    CarvedUnfold(free, k, b, Pages({}, {}));
    if b == k.bits {
      CoveredWith(free - {k}, k, x);
      assert free - {k} + {k} == free;
    } else {
      CarvedConserves(cfg, free, k, b + 1, x);
      CarvedSound(cfg, free, k, b + 1);
      SplitInside(cfg, Block(b + 1, k.addr), x);
      CoveredWith(Carved(free, k, b + 1), Block(b, k.addr + Pow2(b)), x);
    }
  }

  lemma CoveredWith(f: set<Block>, k: Block, x: nat)
    ensures Covered(f + {k}, x) <==> Covered(f, x) || Inside(x, k)
  {
    if Covered(f, x) {
      var l :| l in f && Inside(x, l);
      assert l in f + {k};
    }
    if Inside(x, k) { assert k in f + {k}; }
  }

  // ----- memory handed back to the operating system

  /** `flags` holds the addresses whose decommitted bit is set, `gone` the bytes
      that have been handed back. */
  datatype Pages = Pages(flags: set<nat>, gone: set<nat>)

  function Span(k: Block): set<nat> {
    set x | k.addr <= x < End(k) && Inside(x, k)
  }

  /** Every free block is wholly gone if its flag is set and wholly resident
      otherwise; nothing else is gone and nothing else is flagged. */
  ghost predicate PagesInv(free: set<Block>, pg: Pages) {
    && (forall a :: a in pg.flags ==> exists k :: k in free && k.addr == a)
    && (forall k, x :: k in free && Inside(x, k) ==> (x in pg.gone <==> k.addr in pg.flags))
    && (forall x :: x in pg.gone ==> Covered(free, x))
  }

  /** `on_consolidate`: recommit a flagged block and clear its flag. */
  function Consolidated(pg: Pages, k: Block): Pages {
    if k.addr in pg.flags then Pages(pg.flags - {k.addr}, pg.gone - Span(k)) else pg
  }

  /** `on_split`: the second half takes over the flag of the whole. */
  function SplitPages(pg: Pages, whole: nat, second: nat): Pages {
    pg.(flags := if whole in pg.flags then pg.flags + {second} else pg.flags - {second})
  }

  lemma SplitFlag(pg: Pages, whole: nat, second: nat)
    requires whole != second
    ensures SplitPages(pg, whole, second).gone == pg.gone
    ensures whole in SplitPages(pg, whole, second).flags <==> whole in pg.flags
  {}

  lemma SameAddrOverlap(k: Block, l: Block)
    requires k.addr == l.addr
    ensures Overlap(k, l)
  {}

  lemma ConsolidatedKeeps(free: set<Block>, pg: Pages, k: Block)
    requires Disjoint(free) && k in free && PagesInv(free, pg)
    ensures var pg' := Consolidated(pg, k);
      PagesInv(free, pg') && k.addr !in pg'.flags && pg'.flags <= pg.flags
  {
    var pg' := Consolidated(pg, k);
    if k.addr in pg.flags {
      forall a | a in pg'.flags ensures exists l :: l in free && l.addr == a { assert a in pg.flags; }
      forall l, x | l in free && Inside(x, l) ensures x in pg'.gone <==> l.addr in pg'.flags {
        if l != k && l.addr == k.addr { SameAddrOverlap(l, k); }
        if l != k && x in Span(k) { assert Overlap(l, k); }
      }
    }
  }

  /** Two resident halves may be replaced by their parent. */
  lemma ParentKeepsPages(free: set<Block>, pg: Pages, k: Block, b: Block, p: Block)
    requires Disjoint(free + {k}) && b in free && k !in free && HalvesOf(p, k, b)
    requires PagesInv(free + {k}, pg) && k.addr !in pg.flags && b.addr !in pg.flags
    ensures PagesInv(free - {b} + {p}, pg)
  {
    hide Pow2;
    var before, after := free + {k}, free - {b} + {p};
    forall a | a in pg.flags ensures exists l :: l in after && l.addr == a {
      var l :| l in before && l.addr == a;
      assert l in after;
    }
    forall l, x | l in after && Inside(x, l) ensures x in pg.gone <==> l.addr in pg.flags {
      if l == p {
        if Inside(x, k) { assert k in before; } else { assert Inside(x, b) && b in before; }
      } else {
        assert l in before;
      }
    }
    forall x | x in pg.gone ensures Covered(after, x) {
      var l :| l in before && Inside(x, l);
      assert l in after;
    }
  }

  function MergedPages(cfg: Config, free: set<Block>, k: Block, pg: Pages): Pages
    decreases cfg.maxBits - k.bits
  {
    if k.bits < cfg.maxBits && BuddyOf(k) in free && CanConsolidate(cfg, k)
    then MergedPages(cfg, free - {BuddyOf(k)}, ParentOf(k), Consolidated(Consolidated(pg, BuddyOf(k)), k))
    else pg
  }

  /** Merging keeps every block all gone or all resident, and what has grown is resident. */
  lemma {:induction false} MergedPagesInv(cfg: Config, free: set<Block>, k: Block, pg: Pages)
    requires FreeInv(cfg, free) && Placed(cfg, k) && Apart(free, k) && PagesInv(free + {k}, pg)
    ensures var (f, m), pg' := Merge(cfg, free, k), MergedPages(cfg, free, k, pg);
      && PagesInv(f + {m}, pg')
      && (m != k || k.addr !in pg.flags ==> m.addr !in pg'.flags)
    decreases cfg.maxBits - k.bits
  {
    if k.bits < cfg.maxBits && BuddyOf(k) in free && CanConsolidate(cfg, k) {
      var b := BuddyOf(k);
      Family(k);
      FamilyPlaced(cfg, k);
      MergeStep(free, k, b, ParentOf(k));
      assert k !in free by { if k in free { SameAddrOverlap(k, k); } }
      assert Disjoint(free + {k});
      ConsolidatedKeeps(free + {k}, pg, b);
      var pg1 := Consolidated(pg, b);
      ConsolidatedKeeps(free + {k}, pg1, k);
      var pg2 := Consolidated(pg1, k);
      ParentKeepsPages(free, pg2, k, b, ParentOf(k));
      MergedPagesInv(cfg, free - {b}, ParentOf(k), pg2);
      MergeSound(cfg, free - {b}, ParentOf(k));
    }
  }

  function CarvedPages(k: Block, b: nat, pg: Pages): Pages
    decreases k.bits - b
  {
    if k.bits <= b then pg else SplitPages(CarvedPages(k, b + 1, pg), k.addr, k.addr + Pow2(b))
  }

  lemma {:induction false} CarvedPagesInv(cfg: Config, free: set<Block>, k: Block, b: nat, pg: Pages)
    requires FreeInv(cfg, free) && k in free && cfg.minBits <= b <= k.bits && PagesInv(free, pg)
    ensures var pg' := CarvedPages(k, b, pg);
      && PagesInv(Carved(free, k, b) + {Block(b, k.addr)}, pg')
      && pg'.gone == pg.gone && (k.addr in pg'.flags <==> k.addr in pg.flags)
    decreases k.bits - b
  {
    hide PagesInv, FreeInv, Carved, CarvedPages;
    CarvedUnfold(free, k, b, pg);
    if b == k.bits {
      assert free - {k} + {k} == free;
    } else {
      CarvedPagesInv(cfg, free, k, b + 1, pg);
      CarvedPagesStep(cfg, free, k, b, CarvedPages(k, b + 1, pg));
    }
  }

  lemma CarvedUnfold(free: set<Block>, k: Block, b: nat, pg: Pages)
    requires b <= k.bits
    ensures b == k.bits ==> Carved(free, k, b) == free - {k} && CarvedPages(k, b, pg) == pg
    ensures b < k.bits ==> Carved(free, k, b) == Carved(free, k, b + 1) + {Block(b, k.addr + Pow2(b))}
    ensures b < k.bits ==> CarvedPages(k, b, pg) == SplitPages(CarvedPages(k, b + 1, pg), k.addr, k.addr + Pow2(b))
  {}

  lemma CarvedPagesStep(cfg: Config, free: set<Block>, k: Block, b: nat, pg: Pages)
    requires FreeInv(cfg, free) && k in free && cfg.minBits <= b < k.bits
    requires PagesInv(Carved(free, k, b + 1) + {Block(b + 1, k.addr)}, pg)
    ensures var second := Block(b, k.addr + Pow2(b)); var pg' := SplitPages(pg, k.addr, second.addr);
      && PagesInv(Carved(free, k, b + 1) + {second} + {Block(b, k.addr)}, pg')
      && pg'.gone == pg.gone && (k.addr in pg'.flags <==> k.addr in pg.flags)
  {
    hide PagesInv, FreeInv, Carved, SplitPages, Placed, Apart, Pow2;
    CarvedSound(cfg, free, k, b + 1);
    FreeDisjoint(cfg, Carved(free, k, b + 1));
    SplitFlag(pg, k.addr, k.addr + Pow2(b));
    SplitKeepsPages(cfg, Carved(free, k, b + 1), Block(b + 1, k.addr), pg);
  }

  lemma FreeDisjoint(cfg: Config, f: set<Block>)
    requires FreeInv(cfg, f)
    ensures Disjoint(f)
  {}

  lemma SplitKeepsPages(cfg: Config, f: set<Block>, big: Block, pg: Pages)
    requires Placed(cfg, big) && big.bits > cfg.minBits && Apart(f, big) && Disjoint(f) && PagesInv(f + {big}, pg)
    ensures var low, second := Block(big.bits - 1, big.addr), Block(big.bits - 1, big.addr + Pow2(big.bits - 1));
      PagesInv(f + {second} + {low}, SplitPages(pg, big.addr, second.addr))
  {
    SplitFacts(cfg, big);
    var low, second := Block(big.bits - 1, big.addr), Block(big.bits - 1, big.addr + Pow2(big.bits - 1));
    var pg', before, after := SplitPages(pg, big.addr, second.addr), f + {big}, f + {second} + {low};
    forall a | a in pg'.flags ensures exists l :: l in after && l.addr == a {
      if a == second.addr {
        assert second in after;
      } else {
        var l :| l in before && l.addr == a;
        if l == big { assert low in after; } else { assert l in after; }
      }
    }
    forall l, x | l in after && Inside(x, l) ensures x in pg'.gone <==> l.addr in pg'.flags {
      SplitInside(cfg, big, x);
      if l in f {
        assert l in before && !Overlap(l, big);
        assert l.addr != second.addr;
      } else {
        assert Inside(x, big) && big in before;
      }
    }
    forall x | x in pg'.gone ensures Covered(after, x) {
      var l :| l in before && Inside(x, l);
      SplitInside(cfg, big, x);
      if l == big { assert Inside(x, low) || Inside(x, second); assert low in after && second in after; } else { assert l in after; }
    }
  }
}
