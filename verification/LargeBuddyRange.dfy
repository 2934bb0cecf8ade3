/** `LargeBuddyRange`: a buddy allocator that refills itself from a parent range,
    passes blocks that grow too large back to it, and returns the memory of
    blocks that stay idle to the operating system.

    The state proved about is the byte: who holds it (a free block, a caller, the
    parent) and whether it is committed. */
module LargeBuddyRange {
  import opened Bits
  import opened RangeBlocks
  import opened BuddySpec
  import opened BuddyRefill
  import RBHeap
  import W = ChunkWord
  import opened Buddy

  function Bytes(free: set<Block>): set<nat> {
    set k, x | k in free && x in Span(k) :: x
  }

  function BytesOf(ks: seq<Block>): set<nat> {
    Bytes(set k | k in ks)
  }

  predicate Between(lo: nat, x: nat, hi: nat) { lo <= x < hi }

  function Range(lo: nat, hi: nat): set<nat> {
    set x | lo <= x < hi && Between(lo, x, hi)
  }

  lemma InSpan(x: nat, k: Block)
    ensures x in Span(k) <==> Inside(x, k)
  {}

  lemma InBytes(free: set<Block>, x: nat)
    ensures x in Bytes(free) <==> Covered(free, x)
  {
    if Covered(free, x) {
      var k :| k in free && Inside(x, k);
      assert x in Span(k);
    }
  }

  lemma ApartBytes(free: set<Block>, k: Block)
    ensures Apart(free, k) <==> Bytes(free) !! Span(k)
  {
    if Bytes(free) !! Span(k) {
      forall l | l in free ensures !Overlap(l, k) {
        var x := if l.addr < k.addr then k.addr else l.addr;
        InSpan(x, l);
        InSpan(x, k);
      }
    } else {
      var x :| x in Bytes(free) && x in Span(k);
      var l :| l in free && x in Span(l);
      assert Overlap(l, k);
    }
  }

  lemma BytesWith(free: set<Block>, k: Block)
    ensures Bytes(free + {k}) == Bytes(free) + Span(k)
  {
    forall x ensures x in Bytes(free + {k}) <==> x in Bytes(free) + Span(k) {
      InBytes(free + {k}, x);
      InBytes(free, x);
      CoveredWith(free, k, x);
    }
  }

  lemma BytesOfMore(ks: seq<Block>, k: Block)
    ensures BytesOf(ks + [k]) == BytesOf(ks) + Span(k)
  {
    assert (set l | l in ks + [k]) == (set l | l in ks) + {k};
    BytesWith((set l | l in ks), k);
  }

  /** Adding a block: its bytes join the free ones or leave with the overflow. */
  lemma MergeBytes(cfg: Config, free: set<Block>, k: Block)
    requires FreeInv(cfg, free) && Placed(cfg, k) && Apart(free, k)
    ensures var (f, m) := Merge(cfg, free, k);
      Bytes(f) + Span(m) == Bytes(free) + Span(k) && Bytes(f) !! Span(m)
  {
    var (f, m) := Merge(cfg, free, k);
    forall x ensures x in Bytes(f) + Span(m) <==> x in Bytes(free) + Span(k) {
      MergeConserves(cfg, free, k, x);
      InBytes(f, x);
      InBytes(free, x);
    }
    MergeSound(cfg, free, k);
    ApartBytes(f, m);
  }

  lemma CarvedBytes(cfg: Config, free: set<Block>, k: Block, b: nat)
    requires FreeInv(cfg, free) && k in free && cfg.minBits <= b <= k.bits
    ensures Bytes(Carved(free, k, b)) + Span(Block(b, k.addr)) == Bytes(free)
    ensures Bytes(Carved(free, k, b)) !! Span(Block(b, k.addr))
  {
    var f, low := Carved(free, k, b), Block(b, k.addr);
    forall x ensures x in Bytes(f) + Span(low) <==> x in Bytes(free) {
      CarvedConserves(cfg, free, k, b, x);
      InBytes(f, x);
      InBytes(free, x);
    }
    CarvedSound(cfg, free, k, b);
    ApartBytes(f, low);
  }

  // ----- what each step does to the committed memory

  lemma GoneIsFree(free: set<Block>, pg: Pages)
    requires PagesInv(free, pg)
    ensures pg.gone <= Bytes(free)
  {
    forall x | x in pg.gone ensures x in Bytes(free) { InBytes(free, x); }
  }

  /** A block held by a caller is resident and unflagged. */
  lemma Arrives(free: set<Block>, pg: Pages, k: Block)
    requires PagesInv(free, pg) && Apart(free, k)
    ensures PagesInv(free + {k}, pg) && k.addr !in pg.flags
  {
    if k.addr in pg.flags {
      var l :| l in free && l.addr == k.addr;
      SameAddrOverlap(l, k);
    }
    ApartBytes(free, k);
    GoneIsFree(free, pg);
    forall a | a in pg.flags ensures exists l :: l in free + {k} && l.addr == a {
      var l :| l in free && l.addr == a;
      assert l in free + {k};
    }
    forall l, x | l in free + {k} && Inside(x, l) ensures x in pg.gone <==> l.addr in pg.flags {
      if l == k { assert x in Span(k); }
    }
    forall x | x in pg.gone ensures Covered(free + {k}, x) { CoveredWith(free, k, x); }
  }

  function Recommitted(pg: Pages, k: Block): Pages {
    Pages(pg.flags - {k.addr}, pg.gone - Span(k))
  }

  lemma Departs(free: set<Block>, pg: Pages, k: Block)
    requires PagesInv(free + {k}, pg) && Apart(free, k)
    ensures PagesInv(free, Recommitted(pg, k))
    ensures k.addr !in pg.flags ==> Recommitted(pg, k) == pg
  {
    var pg' := Recommitted(pg, k);
    forall a | a in pg'.flags ensures exists l :: l in free && l.addr == a {
      var l :| l in free + {k} && l.addr == a;
      assert l in free;
    }
    forall l, x | l in free && Inside(x, l) ensures x in pg'.gone <==> l.addr in pg'.flags {
      assert l in free + {k} && !Overlap(l, k);
      if l.addr == k.addr { SameAddrOverlap(l, k); }
      assert x !in Span(k);
    }
    forall x | x in pg'.gone ensures Covered(free, x) {
      CoveredWith(free, k, x);
      InSpan(x, k);
    }
    if k.addr !in pg.flags {
      assert k in free + {k};
      assert forall x :: x in Span(k) ==> Inside(x, k);
      assert pg.gone - Span(k) == pg.gone;
    }
  }

  function Decommitted(pg: Pages, k: Block): Pages {
    Pages(pg.flags + {k.addr}, pg.gone + Span(k))
  }

  lemma DecommitKeeps(free: set<Block>, pg: Pages, k: Block)
    requires PagesInv(free, pg) && Disjoint(free) && k in free && k.addr !in pg.flags
    ensures PagesInv(free, Decommitted(pg, k)) && Span(k) !! pg.gone
  {
    var pg' := Decommitted(pg, k);
    assert forall x :: x in Span(k) ==> Inside(x, k);
    forall l, x | l in free && Inside(x, l) ensures x in pg'.gone <==> l.addr in pg'.flags {
      if l != k {
        if l.addr == k.addr { SameAddrOverlap(l, k); }
        if x in Span(k) { assert Overlap(l, k); }
      } else {
        assert x in Span(k);
      }
    }
    forall x | x in pg'.gone ensures Covered(free, x) {
      if x in Span(k) { assert k in free && Inside(x, k); }
    }
  }

  // ----- staying clear of the null address

  /** For no size are all bytes of the block at that very address present: its
      buddy would be at the null address. */
  ghost predicate NullSafe(cfg: Config, s: set<nat>) {
    forall j :: cfg.minBits <= j < cfg.maxBits ==> !(Span(Block(j, Pow2(j))) <= s)
  }

  lemma NullSafeLess(cfg: Config, s: set<nat>, s': set<nat>)
    requires NullSafe(cfg, s) && s' <= s
    ensures NullSafe(cfg, s')
  {}

  /** Then no merge meets the null address. */
  lemma NullSafeChain(cfg: Config, free: set<Block>, k: Block)
    requires FreeInv(cfg, free) && Placed(cfg, k) && Apart(free, k) && NullSafe(cfg, Bytes(free) + Span(k))
    ensures ChainSafe(cfg, free, k)
  {
    hide Disjoint, Coalesced, Pow2, Aligned, Bytes, Span, Merge, ChainSafe;
    var m := Merge(cfg, free, k).1;
    ChainSafeWhen(cfg, free, k);
    MergeSound(cfg, free, k);
    MergeBytes(cfg, free, k);
    assert m.addr == Size(m) ==> m == Block(m.bits, Pow2(m.bits));
    assert Span(m) <= Bytes(free) + Span(k);
  }

  /** A block larger than any kept here is clear of all of them. */
  lemma NullSafeLarge(cfg: Config, s: set<nat>, k: Block)
    requires NullSafe(cfg, s) && cfg.maxBits <= k.bits && k.addr > 0 && Aligned(k.addr, k.bits)
    ensures NullSafe(cfg, s + Span(k))
  {
    hide Pow2, Aligned, Span;
    AlignedPositive(k.addr, k.bits);
    forall j | cfg.minBits <= j < cfg.maxBits ensures !(Span(Block(j, Pow2(j))) <= s + Span(k)) {
      var own := Block(j, Pow2(j));
      Pow2Next(j);
      Pow2Monotone(j + 1, k.bits);
      forall x | x in Span(own) && x in Span(k) ensures false {
        InSpan(x, own);
        InSpan(x, k);
      }
    }
  }

  /** The bytes of a range that blocks of the smallest size can cover. */
  function Usable(minBits: nat, base: nat, length: nat): set<nat> {
    Range(AlignUp(base, minBits), AlignDown(base + length, minBits))
  }

  lemma UsableWithin(minBits: nat, k: Block)
    ensures Usable(minBits, k.addr, Size(k)) <= Span(k)
  {
    hide Pow2;
    var lo, hi := AlignUp(k.addr, minBits), AlignDown(End(k), minBits);
    assert k.addr <= lo && hi <= End(k);
    forall x | x in Range(lo, hi) ensures x in Span(k) { InSpan(x, k); }
  }

  /** The largest size at most 2^s and above 2^b that the parent grants; 0 if it grants none. */
  function Granted(supply: nat -> nat, b: nat, s: nat): (t: nat)
    ensures t == 0 <==> forall i :: b < i <= s ==> supply(i) == 0
    ensures t != 0 ==> b < t <= s && supply(t) != 0 && forall i :: t < i <= s ==> supply(i) == 0
  {
    if s <= b then 0 else if supply(s) != 0 then s else Granted(supply, b, s - 1)
  }

  // ----- the range

  // ----- how much to ask for

  /** The size a range asks of an aligned parent, given the total so far. */
  function AskedBits(refillBits: nat, minRefillBits: nat, total: nat, b: nat): nat {
    NextPow2Bits(Max(Max(Min(Pow2(refillBits), total), Pow2(minRefillBits)), Pow2(b)))
  }

  /** It is the least power of two that covers the request, the smallest refill,
      and the total so far or the largest refill, whichever is less. */
  lemma AskedLeast(refillBits: nat, minRefillBits: nat, total: nat, b: nat, n: nat)
    ensures AskedBits(refillBits, minRefillBits, total, b) <= n <==>
      Pow2(b) <= Pow2(n) && Pow2(minRefillBits) <= Pow2(n) && Min(Pow2(refillBits), total) <= Pow2(n)
  {
    hide Pow2, NextPow2Bits;
    NextPow2Least(Max(Max(Min(Pow2(refillBits), total), Pow2(minRefillBits)), Pow2(b)), n);
  }

  /** The totals after successive refills for requests of 2^b bytes, from an empty start. */
  ghost predicate Refills(totals: seq<nat>, refillBits: nat, minRefillBits: nat, b: nat) {
    && |totals| > 0 && totals[0] == 0
    && forall i :: 0 <= i < |totals| - 1 ==>
         var sum := totals[i] + Pow2(AskedBits(refillBits, minRefillBits, totals[i], b));
         sum < WORD && totals[i + 1] == sum % WORD
  }

  /** The size asked for repeats once and then doubles up to the largest refill. */
  lemma GradualGrowth(totals: seq<nat>, refillBits: nat, minRefillBits: nat, b: nat, i: nat)
    requires Refills(totals, refillBits, minRefillBits, b) && i < |totals| && minRefillBits <= refillBits
    ensures var least, most := Max(minRefillBits, b), Max(refillBits, b);
      AskedBits(refillBits, minRefillBits, totals[i], b) == if i == 0 then least else Min(least + i - 1, most)
  {
    hide Pow2, Refills;
    TotalGrows(totals, refillBits, minRefillBits, b, i);
    Asked(refillBits, minRefillBits, b, totals[i], i);
  }

  /** The total is a power of two until the largest refill is reached. */
  ghost predicate TotalAt(refillBits: nat, least: nat, most: nat, total: nat, i: nat) {
    if i == 0 then total == 0
    else if least + i - 1 <= most then total == Pow2(least + i - 1)
    else Pow2(refillBits) <= total
  }

  lemma Asked(refillBits: nat, minRefillBits: nat, b: nat, total: nat, i: nat)
    requires minRefillBits <= refillBits
    requires TotalAt(refillBits, Max(minRefillBits, b), Max(refillBits, b), total, i)
    ensures var least, most := Max(minRefillBits, b), Max(refillBits, b);
      AskedBits(refillBits, minRefillBits, total, b) == if i == 0 then least else Min(least + i - 1, most)
  {
    hide Pow2, AskedBits;
    var least, most := Max(minRefillBits, b), Max(refillBits, b);
    var n := if i == 0 then least else Min(least + i - 1, most);
    AskedLeast(refillBits, minRefillBits, total, b, n);
    Pow2Monotone(b, n);
    Pow2Monotone(minRefillBits, n);
    if refillBits <= n { Pow2Monotone(refillBits, n); } else { Pow2Monotone(n, refillBits); }
    if n > 0 {
      AskedLeast(refillBits, minRefillBits, total, b, n - 1);
      Pow2Strict(n - 1, n);
      if refillBits < n { Pow2Monotone(refillBits, n - 1); }
    }
  }

  lemma {:induction false} TotalGrows(totals: seq<nat>, refillBits: nat, minRefillBits: nat, b: nat, i: nat)
    requires Refills(totals, refillBits, minRefillBits, b) && i < |totals| && minRefillBits <= refillBits
    ensures TotalAt(refillBits, Max(minRefillBits, b), Max(refillBits, b), totals[i], i)
  {
    hide Pow2, AskedBits;
    if i > 0 {
      var least, most := Max(minRefillBits, b), Max(refillBits, b);
      TotalGrows(totals, refillBits, minRefillBits, b, i - 1);
      Asked(refillBits, minRefillBits, b, totals[i - 1], i - 1);
      var n := AskedBits(refillBits, minRefillBits, totals[i - 1], b);
      assert totals[i] == totals[i - 1] + Pow2(n);
      if i > 1 { Pow2Next(least + i - 2); }
      Pow2Monotone(refillBits, most);
    }
  }

  /** A reading of the 64-bit clock. */
  type Clock = x: nat | x < WORD

  /** Difference of two readings on 64-bit words. */
  function Elapsed(now: Clock, since: Clock): nat { (now - since) % WORD }

  /** The decay time has passed since the reading; the clock goes around at most once. */
  predicate Rested(now: Clock, since: Clock, decay: Clock) {
    if since <= now then now >= since + decay else now + WORD >= since + decay
  }

  /** The subtraction decides just that. */
  lemma ElapsedMeans(now: Clock, since: Clock, decay: Clock)
    ensures Elapsed(now, since) >= decay <==> Rested(now, since, decay)
  {}

  /** When the next sweep is due after a look at the clock. */
  function DueAfter(due: Clock, now: Clock, decay: Clock): Clock {
    if decay > 0 && due <= now then (now + decay) % WORD else due
  }

  /** The blocks of all rested buckets are decommitted, besides those that were. */
  ghost predicate Swept(free: set<Block>, flags: set<nat>, flags': set<nat>, clocks: seq<Clock>, min: nat, now: Clock, decay: Clock) {
    forall k :: k in free ==>
      && min <= k.bits < min + |clocks|
      && (k.addr in flags' <==> k.addr in flags || Rested(now, clocks[k.bits - min], decay))
  }

  /** The flags after a look at the clock, given those before it. */
  ghost predicate SweptWhenDue(free: set<Block>, flags: set<nat>, flags': set<nat>, clocks: seq<Clock>, min: nat,
                               due: Clock, now: Clock, decay: Clock) {
    if decay > 0 && due <= now then Swept(free, flags, flags', clocks, min, now, decay) else flags' == flags
  }

  class LargeBuddyRange {
    const buddy: Buddy
    const refillBits: nat
    const minRefillBits: nat
    /** Whether the parent aligns what it hands out. */
    const parentAligned: bool
    var requestedTotal: nat
    var lastTouched: seq<Clock>
    var nextSweepDue: Clock
    /** The bytes callers hold. */
    ghost var out: set<nat>

    ghost predicate Valid()
      reads this, buddy, buddy.forest, buddy.forest.tree
    {
      && buddy.Valid() && PagesInv(buddy.Free(), buddy.pages)
      && minRefillBits <= refillBits <= buddy.cfg.maxBits < 64
      && (refillBits < buddy.cfg.maxBits || parentAligned)
      && NullSafe(buddy.cfg, Bytes(buddy.Free()) + out)
      && |lastTouched| == buddy.cfg.maxBits - buddy.cfg.minBits
      && Bytes(buddy.Free()) !! out
    }

    constructor (minBits: nat, maxBits: nat, boundary: set<nat>, refillBits: nat, minRefillBits: nat, parentAligned: bool,
                 pagemap: map<nat, RBHeap.Words>)
      requires 10 <= minBits < maxBits < 64 && minRefillBits <= refillBits <= maxBits
      requires refillBits < maxBits || parentAligned
      requires forall k :: k in pagemap <==> 0 < k < 0x1_0000_0000_0000_0000 && Aligned(k, minBits)
      requires forall k :: k in pagemap ==> !W.IsDecommitted(pagemap[k].one)
      ensures Valid() && fresh(buddy) && fresh(buddy.forest) && fresh(buddy.forest.tree)
      ensures buddy.Free() == {} && out == {} && buddy.cfg == Config(minBits, maxBits, boundary)
    {
      buddy := new Buddy(minBits, maxBits, boundary, pagemap);
      this.refillBits, this.minRefillBits, this.parentAligned := refillBits, minRefillBits, parentAligned;
      requestedTotal, nextSweepDue := 0, 0;
      lastTouched := seq(maxBits - minBits, _ => 0);
      out := {};
      new;
      NothingOut(buddy.cfg, buddy.Free());
    }

    static lemma NothingOut(cfg: Config, free: set<Block>)
      requires free == {}
      ensures NullSafe(cfg, Bytes(free) + {}) && PagesInv(free, Pages({}, {}))
    {
      assert Bytes(free) + {} == {};
      forall j | cfg.minBits <= j < cfg.maxBits ensures !(Span(Block(j, Pow2(j))) <= {}) {
        InSpan(Pow2(j), Block(j, Pow2(j)));
      }
    }

    /** `notify_not_using`: only committed memory may be handed back. */
    ghost method NotifyNotUsing(k: Block)
      requires buddy.Shape() && Span(k) !! buddy.pages.gone
      modifies buddy`pages
      ensures buddy.Shape() && buddy.pages == old(buddy.pages).(gone := old(buddy.pages).gone + Span(k))
    {
      buddy.SetGone(buddy.pages.gone + Span(k));
    }

    /** A free block has an entry of its own. */
    lemma FreeMapped(k: Block)
      requires Valid() && k in buddy.Free()
      ensures buddy.Mapped(k.addr) && buddy.Shape() && Disjoint(buddy.Free())
    {
      hide Buddy.Shape, Disjoint, Coalesced, NullSafe, PagesInv;
      buddy.MappedBlock(k);
    }

    /** The flags change, the blocks do not. */
    twostate lemma OnlyPages(pg: Pages)
      requires old(Valid()) && buddy.Shape() && buddy.pages == pg && PagesInv(buddy.Free(), pg)
      requires unchanged(this) && buddy.Free() == old(buddy.Free())
      ensures Valid()
    {
      hide Buddy.Shape, FreeInv, PagesInv, NullSafe;
    }

    /** Hand a free block's memory back and record that in its flag. */
    method Decommit(k: Block)
      requires Valid() && k in buddy.Free() && k.addr !in buddy.pages.flags
      modifies buddy`pages, buddy.forest.tree`store
      ensures Valid() && buddy.pages == Decommitted(old(buddy.pages), k)
    {
      hide Valid, Buddy.Shape, FreeInv, PagesInv, NullSafe, Buddy.Mapped, Span, FreeOf, Disjoint;
      FreeMapped(k);
      PagesKept();
      DecommitKeeps(buddy.Free(), buddy.pages, k);
      NotifyNotUsing(k);
      buddy.SetDecommitted(k.addr, true);
      OnlyPages(buddy.pages);
    }

    lemma PagesKept()
      requires Valid()
      ensures PagesInv(buddy.Free(), buddy.pages)
    {}

    /** Bytes that are not free are committed. */
    lemma Committed(k: Block)
      requires Valid() && Span(k) !! Bytes(buddy.Free())
      ensures Span(k) !! buddy.pages.gone && k.addr !in buddy.pages.flags
    {
      ApartBytes(buddy.Free(), k);
      Arrives(buddy.Free(), buddy.pages, k);
      GoneIsFree(buddy.Free(), buddy.pages);
    }

    /** `add_block` seen from the bytes: `m` is the block `k` ended up in. */
    method Absorb(k: Block) returns (overflow: nat, landedBits: nat, ghost m: Block)
      requires Valid() && k.bits < buddy.cfg.maxBits && Placed(buddy.cfg, k) && Span(k) !! Bytes(buddy.Free()) && Span(k) !! out
      requires NullSafe(buddy.cfg, Bytes(buddy.Free()) + out + Span(k))
      modifies buddy, buddy.forest, buddy.forest.tree
      ensures Valid() && m.addr !in buddy.pages.flags
      ensures Aligned(m.addr, m.bits) && m.addr <= k.addr < End(m) && Span(k) <= Span(m)
      ensures m == Merge(buddy.cfg, old(buddy.Free()), k).1 && buddy.Free() == Added(buddy.cfg, old(buddy.Free()), k)
      ensures buddy.pages == MergedPages(buddy.cfg, old(buddy.Free()), k, old(buddy.pages))
      ensures if overflow == 0 then m in buddy.Free() && landedBits == m.bits && buddy.cfg.minBits <= m.bits < buddy.cfg.maxBits
              else m == Block(buddy.cfg.maxBits, overflow)
      ensures forall l :: l in buddy.Free() ==> l in old(buddy.Free()) || (overflow == 0 && l == m)
      ensures overflow == 0 ==> Bytes(buddy.Free()) == old(Bytes(buddy.Free())) + Span(k)
      ensures overflow != 0 ==> Bytes(buddy.Free()) + Span(m) == old(Bytes(buddy.Free())) + Span(k)
      ensures overflow != 0 ==> Span(m) !! Bytes(buddy.Free()) && Span(m) !! out
    {
      hide FreeInv, Placed, Merge, Added, MergedPages, PagesInv, Apart, Pow2, Aligned, Bytes, Span, Buddy.Shape;
      hide ChainSafe, NullSafe;
      ghost var cfg, free, pg := buddy.cfg, buddy.Free(), buddy.pages;
      m := Merge(cfg, free, k).1;
      AbsorbFacts(cfg, free, k, pg);
      NullSafeLess(cfg, Bytes(free) + out + Span(k), Bytes(free) + Span(k));
      NullSafeChain(cfg, free, k);
      FreePlaced(cfg, free);
      SafeMisses(cfg, free, k, buddy.entries, buddy.emptyAtOrAbove);
      overflow, landedBits := buddy.AddBlock(k.addr, k.bits);
      NullSafeLess(cfg, Bytes(free) + out + Span(k), Bytes(buddy.Free()) + out);
    }

    static lemma FreePlaced(cfg: Config, free: set<Block>)
      requires FreeInv(cfg, free)
      ensures AllPlaced(cfg, free)
    {}

    static lemma AbsorbFacts(cfg: Config, free: set<Block>, k: Block, pg: Pages)
      requires FreeInv(cfg, free) && Placed(cfg, k) && Span(k) !! Bytes(free) && PagesInv(free, pg) && k.bits < cfg.maxBits
      ensures Apart(free, k)
      ensures var (f, m), pg' := Merge(cfg, free, k), MergedPages(cfg, free, k, pg);
        && m.addr !in pg'.flags && Aligned(m.addr, m.bits) && m.addr <= k.addr < End(m) && Span(k) <= Span(m)
        && cfg.minBits <= m.bits <= cfg.maxBits
        && Bytes(f) + Span(m) == Bytes(free) + Span(k) && Bytes(f) !! Span(m)
        && Bytes(f + {m}) == Bytes(f) + Span(m)
        && f <= free && Added(cfg, free, k) == (if m.bits < cfg.maxBits then f + {m} else f)
        && PagesInv(Added(cfg, free, k), pg')
    {
      var (f, m) := Merge(cfg, free, k);
      var pg' := MergedPages(cfg, free, k, pg);
      hide FreeInv, Placed, Merge, MergedPages, PagesInv, Apart, Pow2, Aligned, Bytes, Span;
      ApartBytes(free, k);
      Arrives(free, pg, k);
      MergedPagesInv(cfg, free, k, pg);
      MergeSound(cfg, free, k);
      MergeBytes(cfg, free, k);
      BytesWith(f, m);
      Departs(f, pg', m);
      PlacedFacts(cfg, m);
      SpanWithin(k, m);
    }

    static lemma SpanWithin(k: Block, m: Block)
      requires m.addr <= k.addr && End(k) <= End(m)
      ensures Span(k) <= Span(m)
    {
      forall x | x in Span(k) ensures x in Span(m) { InSpan(x, m); }
    }

    static lemma PlacedFacts(cfg: Config, m: Block)
      requires Placed(cfg, m)
      ensures Aligned(m.addr, m.bits) && cfg.minBits <= m.bits <= cfg.maxBits
    {}

    // ----- timed decay

    method TouchBucket(idx: nat, at: Clock)
      requires Valid() && idx < |lastTouched|
      modifies this`lastTouched
      ensures Valid() && lastTouched == old(lastTouched)[idx := at]
    {
      lastTouched := lastTouched[idx := at];
    }

    /** Decommit every block of one bucket that is not decommitted yet. */
    method SweepBucket(idx: nat)
      requires Valid() && idx < |lastTouched|
      modifies buddy`pages, buddy.forest.tree
      ensures Valid() && buddy.Free() == old(buddy.Free())
      ensures forall k :: k in buddy.Free() ==>
        (k.addr in buddy.pages.flags <==> k.addr in old(buddy.pages.flags) || k.bits == buddy.cfg.minBits + idx)
    {
      hide Valid, FreeInv, PagesInv, Span, Buddy.Shape, Buddy.Valid, Buddy.Mapped, FreeOf, Contents, Disjoint;
      var b := buddy.cfg.minBits + idx;
      BucketFree(idx);
      PagesKept();
      var visited := buddy.ForEachInBucket(idx);
      ghost var free := buddy.Free();
      OnlyPages(buddy.pages);
      assert forall a :: a in visited <==> Block(b, a) in free;
      var i := 0;
      while i < |visited|
        invariant 0 <= i <= |visited| && Valid() && buddy.Free() == free
        invariant forall a :: a in buddy.pages.flags <==> a in old(buddy.pages.flags) || a in visited[..i]
      {
        assert visited[..i + 1] == visited[..i] + [visited[i]];
        assert Block(b, visited[i]) in free;
        FreeMapped(Block(b, visited[i]));
        var decommitted := buddy.IsDecommitted(visited[i]);
        if !decommitted {
          Decommit(Block(b, visited[i]));
        }
        i := i + 1;
      }
      assert visited[..i] == visited;
      forall k | k in free ensures k.addr in visited <==> k.bits == b {
        OneBlockAt(free, k, b);
      }
    }

    lemma BucketFree(idx: nat)
      requires Valid() && idx < |lastTouched|
      ensures Disjoint(buddy.Free()) && buddy.Shape() && idx < |buddy.entries|
      ensures forall a :: a in Contents(buddy.entries[idx]) <==> Block(buddy.cfg.minBits + idx, a) in buddy.Free()
    {
      forall a ensures a in Contents(buddy.entries[idx]) <==> Block(buddy.cfg.minBits + idx, a) in buddy.Free() {
        FreeMember(buddy.entries, buddy.cfg.minBits, Block(buddy.cfg.minBits + idx, a));
      }
    }

    static lemma OneBlockAt(free: set<Block>, k: Block, b: nat)
      requires Disjoint(free) && k in free
      ensures Block(b, k.addr) in free <==> k.bits == b
    {
      if Block(b, k.addr) in free { SameAddrOverlap(k, Block(b, k.addr)); }
      assert k.bits == b ==> k == Block(b, k.addr);
    }

    /** `maybe_sweep_decay`: when a sweep is due, exactly the blocks of buckets to
        which nothing was added for the decay time become decommitted, whatever
        they were before. */
    method MaybeSweepDecay(now: Clock, decay: Clock)
      requires Valid()
      modifies this`nextSweepDue, buddy`pages, buddy.forest.tree
      ensures Valid() && buddy.Free() == old(buddy.Free())
      ensures if decay == 0 || now < old(nextSweepDue) then buddy.pages == old(buddy.pages) && nextSweepDue == old(nextSweepDue)
              else && nextSweepDue == (now + decay) % WORD
                   && forall k :: k in buddy.Free() ==>
                        && buddy.cfg.minBits <= k.bits < buddy.cfg.minBits + |lastTouched|
                        && (k.addr in buddy.pages.flags <==>
                              k.addr in old(buddy.pages.flags) || Rested(now, lastTouched[k.bits - buddy.cfg.minBits], decay))
      ensures nextSweepDue == DueAfter(old(nextSweepDue), now, decay)
      ensures SweptWhenDue(buddy.Free(), old(buddy.pages.flags), buddy.pages.flags, lastTouched, buddy.cfg.minBits,
                old(nextSweepDue), now, decay)
      ensures decay > 0 && old(nextSweepDue) <= now ==>
        AllRested(buddy.Free(), buddy.pages.flags, lastTouched, buddy.cfg.minBits, now, decay)
    {
      hide FreeInv, PagesInv, Span, Buddy.Shape, Buddy.Valid, SweptBelow, FreeOf, Bytes, NullSafe, Rested, Elapsed;
      if decay == 0 || now < nextSweepDue { return; }
      BucketsShaped();
      ghost var min, free, flags := buddy.cfg.minBits, buddy.Free(), buddy.pages.flags;
      NothingSwept(free, flags, lastTouched, min, now, decay);
      var idx := 0;
      while idx < |lastTouched|
        invariant 0 <= idx <= |lastTouched| && Valid() && buddy.Free() == free
        invariant SweptBelow(free, flags, buddy.pages.flags, lastTouched, min, now, decay, idx)
      {
        ghost var before := buddy.pages.flags;
        ElapsedMeans(now, lastTouched[idx], decay);
        if Elapsed(now, lastTouched[idx]) >= decay { SweepBucket(idx); }
        BucketSwept(free, flags, before, buddy.pages.flags, lastTouched, min, now, decay, idx);
        idx := idx + 1;
      }
      AllSwept(free, flags, buddy.pages.flags, lastTouched, min, now, decay);
      nextSweepDue := (now + decay) % WORD;
    }

    lemma BucketsShaped()
      requires Valid()
      ensures forall k :: k in buddy.Free() ==> buddy.cfg.minBits <= k.bits < buddy.cfg.minBits + |lastTouched|
    {
      buddy.FreeBits();
    }

    /** The idle buckets below `idx` have been swept. */
    static ghost predicate SweptBelow(free: set<Block>, flags: set<nat>, flags': set<nat>, clocks: seq<Clock>,
                          min: nat, now: Clock, decay: Clock, idx: nat) {
      forall k :: k in free ==>
        && min <= k.bits < min + |clocks|
        && (k.addr in flags' <==> k.addr in flags || (k.bits < min + idx && Rested(now, clocks[k.bits - min], decay)))
    }

    static lemma NothingSwept(free: set<Block>, flags: set<nat>, clocks: seq<Clock>, min: nat, now: Clock, decay: Clock)
      requires forall k :: k in free ==> min <= k.bits < min + |clocks|
      ensures SweptBelow(free, flags, flags, clocks, min, now, decay, 0)
    {}

    static lemma BucketSwept(free: set<Block>, flags: set<nat>, mid: set<nat>, flags': set<nat>, clocks: seq<Clock>,
                          min: nat, now: Clock, decay: Clock, idx: nat)
      requires SweptBelow(free, flags, mid, clocks, min, now, decay, idx) && idx < |clocks|
      requires if Rested(now, clocks[idx], decay)
               then forall k :: k in free ==> (k.addr in flags' <==> k.addr in mid || k.bits == min + idx)
               else flags' == mid
      ensures SweptBelow(free, flags, flags', clocks, min, now, decay, idx + 1)
    {
      hide Rested;
    }

    static lemma AllSwept(free: set<Block>, flags: set<nat>, flags': set<nat>, clocks: seq<Clock>, min: nat, now: Clock, decay: Clock)
      requires SweptBelow(free, flags, flags', clocks, min, now, decay, |clocks|)
      ensures forall k :: k in free ==>
        && min <= k.bits < min + |clocks|
        && (k.addr in flags' <==> k.addr in flags || Rested(now, clocks[k.bits - min], decay))
    {
      hide Rested;
    }

    // ----- adding, refilling, handing out

    /** Clocks are restarted or stay. */
    static ghost predicate SomeTouched(clocks: seq<Clock>, clocks': seq<Clock>, at: Clock) {
      |clocks'| == |clocks| && forall i :: 0 <= i < |clocks| ==> clocks'[i] == clocks[i] || clocks'[i] == at
    }

    /** The clock of a bucket that has a new block was restarted, and no other clock was set to anything else. */
    static ghost predicate NewTouched(before: set<Block>, after: set<Block>, clocks: seq<Clock>, clocks': seq<Clock>, minBits: nat, at: Clock) {
      && |clocks'| == |clocks|
      && (forall i :: 0 <= i < |clocks| ==> clocks'[i] == clocks[i] || clocks'[i] == at)
      && (forall k :: k in after && k !in before ==> minBits <= k.bits < minBits + |clocks| && clocks'[k.bits - minBits] == at)
    }

    static lemma NothingNew(free: set<Block>, clocks: seq<Clock>, minBits: nat, at: Clock)
      ensures NewTouched(free, free, clocks, clocks, minBits, at)
    {}

    /** One more block `m` with its clock restarted, or none. */
    static lemma OneNew(before: set<Block>, mid: set<Block>, after: set<Block>, clocks: seq<Clock>, clocks': seq<Clock>,
                        minBits: nat, at: Clock, m: Block, landed: bool)
      requires NewTouched(before, mid, clocks, clocks', minBits, at)
      requires forall l :: l in after ==> l in mid || (landed && l == m)
      requires landed ==> minBits <= m.bits < minBits + |clocks|
      ensures |clocks'| == |clocks|
      ensures NewTouched(before, after, clocks, if landed then clocks'[m.bits - minBits := at] else clocks', minBits, at)
    {}

    /** `add_range`: what blocks can cover of the range joins the free blocks,
        except for what has grown too large and is released to the parent. */
    method AddRange(base: nat, length: nat, at: Clock) returns (released: seq<Block>)
      requires Valid() && 0 < base && length < Pow2(buddy.cfg.maxBits) && base + length < Pow2(64)
      requires AlignUp(base, buddy.cfg.minBits) <= base + length
      requires var r := Usable(buddy.cfg.minBits, base, length);
        r !! Bytes(buddy.Free()) && r !! out && NullSafe(buddy.cfg, Bytes(buddy.Free()) + out + r)
      modifies this`lastTouched, buddy, buddy.forest, buddy.forest.tree
      ensures Valid()
      ensures var lo, hi := AlignUp(base, buddy.cfg.minBits), AlignDown(base + length, buddy.cfg.minBits);
        && 0 < lo <= hi
        && buddy.Free() == AddedAll(buddy.cfg, old(buddy.Free()), Greedy(lo, hi))
        && released == Overflowed(buddy.cfg, old(buddy.Free()), Greedy(lo, hi))
      ensures Bytes(buddy.Free()) !! BytesOf(released) && out !! BytesOf(released)
      ensures forall k :: k in released ==> k.bits == buddy.cfg.maxBits
      ensures Bytes(buddy.Free()) + BytesOf(released) == old(Bytes(buddy.Free())) + Usable(buddy.cfg.minBits, base, length)
      ensures NewTouched(old(buddy.Free()), buddy.Free(), old(lastTouched), lastTouched, buddy.cfg.minBits, at)
    {
      hide Valid, Pow2, Aligned, AlignDown, AlignUp, Placed, Bytes, BytesOf, Merge, Added, AddedAll, Overflowed;
      hide Range, Span, Tiles, Split, NewTouched, FreeOf, Greedy, NullSafe, Fits;
      ghost var cfg, before := buddy.cfg, Bytes(buddy.Free());
      Shaped();
      var blocks := RangeToPow2Blocks(base, length, buddy.cfg.minBits);
      ghost var lo, hi := AlignUp(base, cfg.minBits), AlignDown(base + length, cfg.minBits);
      ghost var whole := before + out + Range(lo, hi);
      BlocksFit(cfg, base, length);
      SplitStart(before, out, lo, hi);
      released := [];
      NothingNew(buddy.Free(), lastTouched, cfg.minBits, at);
      ghost var cursor := lo;
      var i := 0;
      assert blocks[0..] == blocks && [] + Overflowed(cfg, buddy.Free(), blocks) == Overflowed(cfg, buddy.Free(), blocks);
      while i < |blocks|
        invariant 0 <= i <= |blocks| && Valid() && buddy.cfg == cfg && lo <= cursor && |lastTouched| == |old(lastTouched)|
        invariant Tiles(blocks[i..], cursor, hi)
        invariant AddedAll(cfg, old(buddy.Free()), blocks) == AddedAll(cfg, buddy.Free(), blocks[i..])
        invariant Overflowed(cfg, old(buddy.Free()), blocks) == released + Overflowed(cfg, buddy.Free(), blocks[i..])
        invariant forall k :: k in released ==> k.bits == cfg.maxBits
        invariant NewTouched(old(buddy.Free()), buddy.Free(), old(lastTouched), lastTouched, cfg.minBits, at)
        invariant Split(Bytes(buddy.Free()), BytesOf(released), out, Range(cursor, hi), before + Range(lo, cursor))
      {
        var k := blocks[i];
        NextTile(blocks, i, lo, cursor, hi);
        ghost var r, f, mid, clocks := BytesOf(released), Bytes(buddy.Free()), buddy.Free(), lastTouched;
        SplitFree(f, r, out, Span(k), Range(End(k), hi), before + Range(lo, cursor));
        StillSafe(cfg, f, r, out, Span(k), before, lo, cursor, End(k), hi);
        NextAdded(cfg, mid, blocks, i);
        var overflow, landedBits, m := Absorb(k);
        Shaped();
        OneNew(old(buddy.Free()), mid, buddy.Free(), old(lastTouched), clocks, cfg.minBits, at, m, overflow == 0);
        if overflow == 0 {
          TouchBucket(landedBits - buddy.cfg.minBits, at);
        } else {
          BytesOfMore(released, m);
          released := released + [Block(buddy.cfg.maxBits, overflow)];
        }
        SplitStep(f, r, out, Span(k), Range(End(k), hi), before + Range(lo, cursor),
          Bytes(buddy.Free()), if overflow == 0 then {} else Span(m));
        assert overflow == 0 ==> r + {} == r;
        assert before + Range(lo, End(k)) == before + Range(lo, cursor) + Span(k);
        cursor := End(k);
        i := i + 1;
      }
      assert blocks[i..] == [];
      LastTile(cfg, buddy.Free(), cursor, hi);
      SplitEnd(Bytes(buddy.Free()), BytesOf(released), out, Range(cursor, hi), before + Range(lo, cursor));
    }

    static lemma NextAdded(cfg: Config, free: set<Block>, blocks: seq<Block>, i: nat)
      requires i < |blocks|
      ensures AddedAll(cfg, free, blocks[i..]) == AddedAll(cfg, Added(cfg, free, blocks[i]), blocks[i + 1..])
      ensures var m, rest := Merge(cfg, free, blocks[i]).1, Overflowed(cfg, Added(cfg, free, blocks[i]), blocks[i + 1..]);
        Overflowed(cfg, free, blocks[i..]) == if m.bits < cfg.maxBits then rest else [m] + rest
    {
      hide Added, Merge;
      assert blocks[i..][1..] == blocks[i + 1..];
    }

    /** What is free and what is still to come stays clear of the null address. */
    static lemma StillSafe(cfg: Config, free: set<nat>, released: set<nat>, out: set<nat>, k: set<nat>,
                          before: set<nat>, lo: nat, cursor: nat, next: nat, hi: nat)
      requires lo <= cursor <= next <= hi && k + Range(next, hi) == Range(cursor, hi)
      requires Split(free, released, out, k + Range(next, hi), before + Range(lo, cursor))
      requires NullSafe(cfg, before + out + Range(lo, hi))
      ensures NullSafe(cfg, free + out + k)
    {
      hide NullSafe, Range;
      RangeSplit(lo, cursor, hi);
      NullSafeLess(cfg, before + out + Range(lo, hi), free + out + k);
    }

    /** `total` is shared out between the free blocks and the released ones; `rest` is still to come. */
    static predicate Split(free: set<nat>, released: set<nat>, out: set<nat>, rest: set<nat>, total: set<nat>) {
      free !! released && out !! released && rest !! (free + released + out) && free + released == total
    }

    static lemma SplitStart(free: set<nat>, out: set<nat>, lo: nat, hi: nat)
      requires free !! Range(lo, hi) && out !! Range(lo, hi)
      ensures Split(free, BytesOf([]), out, Range(lo, hi), free + Range(lo, lo))
    {
      NoBytes(lo);
    }

    static lemma SplitFree(free: set<nat>, released: set<nat>, out: set<nat>, k: set<nat>, rest: set<nat>, total: set<nat>)
      requires Split(free, released, out, k + rest, total)
      ensures k !! free && k !! out
    {}

    static lemma SplitStep(free: set<nat>, released: set<nat>, out: set<nat>, k: set<nat>, rest: set<nat>, total: set<nat>,
                           free': set<nat>, m: set<nat>)
      requires Split(free, released, out, k + rest, total) && k !! rest
      requires free' + m == free + k && free' !! m && m !! out
      ensures Split(free', released + m, out, rest, total + k)
    {
      forall x ensures x in free' ==> x !in released && x !in rest {
        assert x in free' + m ==> x in free + k;
      }
      forall x ensures x in m ==> x !in rest {
        assert x in free' + m ==> x in free + k;
      }
      forall x ensures x in free' + (released + m) <==> x in total + k {
        assert x in free' + m <==> x in free + k;
        assert x in free + released <==> x in total;
      }
    }

    static lemma SplitEnd(free: set<nat>, released: set<nat>, out: set<nat>, rest: set<nat>, total: set<nat>)
      requires Split(free, released, out, rest, total)
      ensures free !! released && out !! released && free + released == total
    {}

    lemma Shaped()
      requires Valid()
      ensures |lastTouched| == buddy.cfg.maxBits - buddy.cfg.minBits && buddy.cfg.minBits < buddy.cfg.maxBits < 64
      ensures minRefillBits <= refillBits <= buddy.cfg.maxBits
    {}

    static lemma NextTile(blocks: seq<Block>, i: nat, base: nat, cursor: nat, end: nat)
      requires i < |blocks| && Tiles(blocks[i..], cursor, end) && base <= cursor
      ensures var k := blocks[i];
        && k.addr == cursor && End(k) <= end && Tiles(blocks[i + 1..], End(k), end)
        && Range(cursor, end) == Span(k) + Range(End(k), end) && Span(k) !! Range(End(k), end)
        && Range(base, End(k)) == Range(base, cursor) + Span(k)
    {
      var k := blocks[i];
      assert blocks[i..][0] == k && blocks[i..][1..] == blocks[i + 1..];
      TilesUpwards(blocks[i + 1..], End(k), end);
      RangeSplit(cursor, End(k), end);
      RangeSplit(base, cursor, End(k));
      SpanIs(k);
    }

    static lemma LastTile(cfg: Config, free: set<Block>, cursor: nat, end: nat)
      requires Tiles([], cursor, end)
      ensures cursor == end && AddedAll(cfg, free, []) == free && Overflowed(cfg, free, []) == []
    {}

    static lemma SpanIs(k: Block)
      ensures Span(k) == Range(k.addr, End(k))
    {
      forall x: nat ensures x in Span(k) <==> x in Range(k.addr, End(k)) { InSpan(x, k); }
    }

    static lemma RangeSplit(lo: nat, mid: nat, hi: nat)
      requires lo <= mid <= hi
      ensures Range(lo, hi) == Range(lo, mid) + Range(mid, hi) && Range(lo, mid) !! Range(mid, hi)
    {}

    static lemma NoBytes(lo: nat)
      ensures BytesOf([]) == {} && Range(lo, lo) == {}
    {}

    static lemma EndPoints(base: nat, length: nat, minBits: nat)
      requires Aligned(base, minBits) && Aligned(length, minBits)
      ensures AlignUp(base, minBits) == base && AlignDown(base + length, minBits) == base + length
    {
      AlignedAdd(base, length, minBits);
      AlignDownUnique(base, base + Pow2(minBits) - 1, minBits);
      AlignDownUnique(base + length, base + length, minBits);
    }

    static lemma BlocksFit(cfg: Config, base: nat, length: nat)
      requires cfg.minBits <= cfg.maxBits < 64 && length < Pow2(cfg.maxBits) && base + length < Pow2(64)
      requires 0 < AlignUp(base, cfg.minBits) <= AlignDown(base + length, cfg.minBits)
      ensures var blocks := Greedy(AlignUp(base, cfg.minBits), AlignDown(base + length, cfg.minBits));
        forall i :: 0 <= i < |blocks| ==> Placed(cfg, blocks[i]) && blocks[i].bits < cfg.maxBits
    {
      hide Pow2, Aligned, Greedy, Placed;
      var lo, hi := AlignUp(base, cfg.minBits), AlignDown(base + length, cfg.minBits);
      assert base <= lo && hi <= base + length && Aligned(lo, cfg.minBits) && Aligned(hi, cfg.minBits);
      GreedyFits(cfg, lo, hi);
    }

    /** What the parent may answer: null, or memory nobody here holds.  A parent
        that does not align hands out less than the size not kept here. */
    ghost predicate Supplied(bits: nat, a: nat)
      reads this, buddy
    {
      a != 0 ==>
        && (if parentAligned then Aligned(a, bits) else bits < buddy.cfg.maxBits)
        && a + Pow2(bits) < Pow2(64)
        && Span(Block(bits, a)) !! Bytes(buddy.Free()) && Span(Block(bits, a)) !! out
        && (bits < buddy.cfg.maxBits ==> NullSafe(buddy.cfg, Bytes(buddy.Free()) + out + Span(Block(bits, a))))
    }

    /** Size asked of the parent: what has been requested so far, within the limits. */
    function RefillSizeBits(b: nat): nat
      reads this`requestedTotal
    {
      AskedBits(refillBits, minRefillBits, requestedTotal, b)
    }

    /** The request is the least power of two that covers the size needed, the
        smallest refill and the total so far, as far as the largest refill allows. */
    lemma RefillSizeWithin(b: nat)
      requires minRefillBits <= refillBits
      ensures forall n: nat :: RefillSizeBits(b) <= n <==>
        Pow2(b) <= Pow2(n) && Pow2(minRefillBits) <= Pow2(n) && Min(Pow2(refillBits), requestedTotal) <= Pow2(n)
      ensures b <= RefillSizeBits(b) && minRefillBits <= RefillSizeBits(b) <= Max(refillBits, b)
      ensures RefillSizeBits(b) == Max(refillBits, b) || requestedTotal <= Pow2(RefillSizeBits(b))
    {
      hide Pow2, AskedBits;
      var n, top := RefillSizeBits(b), Max(refillBits, b);
      forall n: nat ensures RefillSizeBits(b) <= n <==>
        Pow2(b) <= Pow2(n) && Pow2(minRefillBits) <= Pow2(n) && Min(Pow2(refillBits), requestedTotal) <= Pow2(n)
      {
        AskedLeast(refillBits, minRefillBits, requestedTotal, b, n);
      }
      Pow2Monotone(minRefillBits, top);
      Pow2Monotone(b, top);
      Pow2Monotone(refillBits, top);
      assert n <= n && n <= top;
      if n < b { Pow2Strict(n, b); }
      if n < minRefillBits { Pow2Strict(n, minRefillBits); }
      if n < top && refillBits == top { Pow2Strict(n, refillBits); }
    }

    /** `refill` from an aligned parent. */
    method RefillAlignedParent(b: nat, supply: nat -> nat, at: Clock) returns (addr: nat, released: seq<Block>)
      requires Valid() && parentAligned && buddy.cfg.minBits <= b < buddy.cfg.maxBits
      requires Supplied(RefillSizeBits(b), supply(RefillSizeBits(b)))
      modifies this`requestedTotal, this`lastTouched, this`out, buddy, buddy.forest, buddy.forest.tree
      ensures Valid() && addr == supply(old(RefillSizeBits(b)))
      ensures addr == 0 ==> unchanged(this) && unchanged(buddy) && released == []
      ensures addr != 0 ==>
        && var asked := Block(old(RefillSizeBits(b)), addr);
        && requestedTotal == (old(requestedTotal) + Size(asked)) % WORD
        && Aligned(addr, b) && old(out) !! Span(Block(b, addr)) && out == old(out) + Span(Block(b, addr))
        && Bytes(buddy.Free()) !! BytesOf(released) && out !! BytesOf(released)
        && (forall k :: k in released ==> k.bits == buddy.cfg.maxBits)
        && NewTouched(old(buddy.Free()), buddy.Free(), old(lastTouched), lastTouched, buddy.cfg.minBits, at)
        && Bytes(buddy.Free()) + BytesOf(released) + out == old(Bytes(buddy.Free())) + old(out) + Span(asked)
    {
      hide Valid, Pow2, Aligned, AlignDown, AlignUp, Bytes, BytesOf, Span, Range, RefillSizeBits, Supplied;
      hide NewTouched, FreeOf, NullSafe, AddedAll, Overflowed, Greedy;
      Shaped();
      var bits := RefillSizeBits(b);
      RefillSizeWithin(b);
      addr := supply(bits);
      released := [];
      if addr == 0 { return; }
      RefillFacts(addr, bits, b);
      ghost var low, rest := Span(Block(b, addr)), Range(addr + Pow2(b), addr + Pow2(bits));
      ghost var before := Bytes(buddy.Free());
      EndPoints(addr + Pow2(b), Pow2(bits) - Pow2(b), buddy.cfg.minBits);
      requestedTotal := (requestedTotal + Pow2(bits)) % WORD;
      Framed();
      Hold(Block(b, addr));
      assert before + (old(out) + low) + rest == before + old(out) + (low + rest);
      released := AddRange(addr + Pow2(b), Pow2(bits) - Pow2(b), at);
      SharedOut(Bytes(buddy.Free()), BytesOf(released), old(out), low, rest, before);
    }

    twostate lemma Framed()
      requires old(Valid()) && unchanged(buddy) && unchanged(buddy.forest) && unchanged(buddy.forest.tree)
      requires unchanged(this`lastTouched) && unchanged(this`out)
      ensures Valid()
    {
      hide Buddy.Valid, PagesInv, NullSafe, FreeOf, Bytes;
    }

    static lemma SharedOut(free: set<nat>, released: set<nat>, out: set<nat>, low: set<nat>, rest: set<nat>, before: set<nat>)
      requires free + released == before + rest
      ensures free + released + (out + low) == before + out + (low + rest)
    {
      forall x ensures x in free + released + (out + low) <==> x in before + out + (low + rest) {
        assert x in free + released <==> x in before + rest;
      }
    }

    /** The block handed on and the range kept make up what the parent gave. */
    lemma RefillFacts(a: nat, bits: nat, b: nat)
      requires Valid() && a != 0 && parentAligned && Supplied(bits, a) && buddy.cfg.minBits <= b <= bits <= buddy.cfg.maxBits
      ensures var low, rest := Span(Block(b, a)), Range(a + Pow2(b), a + Pow2(bits));
        && Pow2(b) <= Pow2(bits) && Span(Block(bits, a)) == low + rest && low !! rest
        && low !! Bytes(buddy.Free()) && rest !! Bytes(buddy.Free()) && low !! out && rest !! out
      ensures Aligned(a, b) && Aligned(a + Pow2(b), buddy.cfg.minBits)
      ensures a + Pow2(bits) < Pow2(64)
      ensures NullSafe(buddy.cfg, Bytes(buddy.Free()) + out + (Span(Block(b, a)) + Range(a + Pow2(b), a + Pow2(bits))))
      ensures NullSafe(buddy.cfg, Bytes(buddy.Free()) + out + Span(Block(b, a)))
      ensures Aligned(Pow2(bits) - Pow2(b), buddy.cfg.minBits)
      ensures Pow2(bits) - Pow2(b) < Pow2(buddy.cfg.maxBits)
    {
      hide Valid, Pow2, Aligned, Span, Range, Bytes, NullSafe;
      RefillAligned(a, bits, b, buddy.cfg.minBits, buddy.cfg.maxBits);
      SpanIs(Block(b, a));
      SpanIs(Block(bits, a));
      RangeSplit(a, a + Pow2(b), a + Pow2(bits));
      PartsDisjoint(Span(Block(b, a)), Range(a + Pow2(b), a + Pow2(bits)), Bytes(buddy.Free()));
      PartsDisjoint(Span(Block(b, a)), Range(a + Pow2(b), a + Pow2(bits)), out);
      AnswerSafe(a, bits);
      NullSafeLess(buddy.cfg, Bytes(buddy.Free()) + out + Span(Block(bits, a)), Bytes(buddy.Free()) + out + Span(Block(b, a)));
    }

    /** Whatever an aligned parent answers stays clear of the null address. */
    lemma AnswerSafe(a: nat, bits: nat)
      requires Valid() && a != 0 && parentAligned && Supplied(bits, a)
      ensures NullSafe(buddy.cfg, Bytes(buddy.Free()) + out + Span(Block(bits, a)))
    {
      hide Bytes, Span, NullSafe, Aligned, Pow2, FreeOf, Buddy.Valid, PagesInv;
      if bits >= buddy.cfg.maxBits { NullSafeLarge(buddy.cfg, Bytes(buddy.Free()) + out, Block(bits, a)); }
    }

    static lemma PartsDisjoint(low: set<nat>, rest: set<nat>, s: set<nat>)
      requires low + rest !! s
      ensures low !! s && rest !! s
    {}

    static lemma RefillAligned(a: nat, bits: nat, b: nat, min: nat, max: nat)
      requires Aligned(a, bits) && min <= b <= bits <= max
      ensures Pow2(b) <= Pow2(bits) && Pow2(bits) - Pow2(b) < Pow2(max)
      ensures Aligned(a, b) && Aligned(a + Pow2(b), min) && Aligned(Pow2(bits) - Pow2(b), min)
    {
      Pow2Monotone(b, bits);
      Pow2Monotone(bits, max);
      AlignedWeaken(a, b, bits);
      AlignedWeaken(a, min, bits);
      MultipleMod(1, Pow2(b));
      MultipleMod(1, Pow2(bits));
      AlignedWeaken(Pow2(b), min, b);
      AlignedWeaken(Pow2(bits), min, bits);
      AlignedAdd(a, Pow2(b), min);
      AlignedAdd(Pow2(bits), Pow2(b), min);
    }

    /** `k` is the low end of a free block of the least size that will do. */
    static ghost predicate SplitFrom(before: set<Block>, after: set<Block>, from: Block, k: Block) {
      && from in before && from.addr == k.addr && k.bits <= from.bits && after == Carved(before, from, k.bits)
      && forall l :: l in before && k.bits <= l.bits ==> from.bits <= l.bits
    }

    /** `k` was split off a free block, and its flag cleared, before the look at the clock. */
    static ghost predicate ServedFrom(before: set<Block>, after: set<Block>, pg: Pages, flags': set<nat>, k: Block,
                                      clocks: seq<Clock>, min: nat, due: Clock, now: Clock, decay: Clock) {
      exists from ::
        && SplitFrom(before, after, from, k)
        && SweptWhenDue(after, Recommitted(CarvedPages(from, k.bits, pg), k).flags, flags', clocks, min, due, now, decay)
    }

    /** Take a block out of the buddy allocator and commit its memory. */
    method TakeCached(b: nat) returns (addr: nat, ghost from: Block)
      requires Valid() && buddy.cfg.minBits <= b < buddy.cfg.maxBits
      modifies this`out, buddy, buddy.forest, buddy.forest.tree
      ensures Valid()
      ensures addr == 0 <==> !HasBig(old(buddy.Free()), b)
      ensures addr == 0 ==> buddy.Free() == old(buddy.Free()) && buddy.pages == old(buddy.pages) && out == old(out)
      ensures addr != 0 ==> var k := Block(b, addr);
        && Aligned(addr, b) && Span(k) !! old(out) && out == old(out) + Span(k)
        && Bytes(buddy.Free()) + Span(k) == old(Bytes(buddy.Free()))
        && SplitFrom(old(buddy.Free()), buddy.Free(), from, k)
        && buddy.pages == Recommitted(CarvedPages(from, b, old(buddy.pages)), k)
    {
      hide FreeInv, PagesInv, Carved, CarvedPages, Span, Bytes, Aligned, Buddy.Shape, Chosen, FreeOf, NullSafe;
      hide Pow2, Buddy.Mapped;
      ghost var cfg, free, pg, k := buddy.cfg, buddy.Free(), buddy.pages, Block(b, 0);
      from := k;
      addr, k := buddy.RemoveBlock(b);
      from := k;
      if addr == 0 { return; }
      TakenFacts(cfg, free, k, b, pg);
      buddy.MappedBlock(Block(b, addr));
      NotifyUsing(Block(b, addr));
      var decommitted := buddy.IsDecommitted(addr);
      if decommitted { buddy.SetDecommitted(addr, false); }
      assert buddy.pages == Recommitted(CarvedPages(k, b, pg), Block(b, addr));
      assert Bytes(buddy.Free()) + (out + Span(Block(b, addr))) == Bytes(free) + out;
      out := out + Span(Block(b, addr));
    }

    ghost method NotifyUsing(k: Block)
      requires buddy.Shape()
      modifies buddy`pages
      ensures buddy.Shape() && buddy.pages == old(buddy.pages).(gone := old(buddy.pages).gone - Span(k))
    {
      buddy.SetGone(buddy.pages.gone - Span(k));
    }

    static lemma TakenFacts(cfg: Config, free: set<Block>, k: Block, b: nat, pg: Pages)
      requires FreeInv(cfg, free) && PagesInv(free, pg) && k in free && cfg.minBits <= b <= k.bits
      ensures var low, f := Block(b, k.addr), Carved(free, k, b);
        && Aligned(k.addr, b) && Placed(cfg, low) && PagesInv(f, Recommitted(CarvedPages(k, b, pg), low))
        && Bytes(f) + Span(low) == Bytes(free) && Bytes(f) !! Span(low)
    {
      hide FreeInv, PagesInv, Carved, CarvedPages, Span, Bytes, Placed;
      CarvedBytes(cfg, free, k, b);
      CarvedPagesInv(cfg, free, k, b, pg);
      CarvedSound(cfg, free, k, b);
      Departs(Carved(free, k, b), CarvedPages(k, b, pg), Block(b, k.addr));
      PlacedFacts(cfg, Block(b, k.addr));
    }

    /** The parent's answers leave a request that finds nothing here unserved. */
    ghost predicate Refused(b: nat, supply: nat -> nat)
      reads this`requestedTotal
    {
      if parentAligned then supply(if b < buddy.cfg.maxBits then RefillSizeBits(b) else b) == 0
      else b >= buddy.cfg.maxBits || forall s :: b < s <= Max(b + 1, refillBits) ==> supply(s) == 0
    }

    /** The bytes the parent hands over for such a request, as far as they can be used. */
    ghost function Gained(b: nat, supply: nat -> nat): set<nat>
      reads this`requestedTotal
    {
      if Refused(b, supply) then {}
      else if parentAligned then
        var asked := if b < buddy.cfg.maxBits then RefillSizeBits(b) else b;
        Span(Block(asked, supply(asked)))
      else
        var t := Granted(supply, b, Max(b + 1, refillBits));
        Usable(buddy.cfg.minBits, supply(t), Pow2(t))
    }

    /** The size of the parent's answer. */
    ghost function GainedBits(b: nat, supply: nat -> nat): nat
      reads this`requestedTotal
    {
      if parentAligned then RefillSizeBits(b) else Granted(supply, b, Max(b + 1, refillBits))
    }

    /** `refill` from a parent that does not align: ask for twice the size, so that
        the range contains an aligned block, and take that from the free blocks. */
    method RefillUnalignedParent(b: nat, supply: nat -> nat, at: Clock, now: Clock, later: Clock, decay: Clock) returns (addr: nat)
      requires Valid() && !parentAligned && buddy.cfg.minBits <= b < buddy.cfg.maxBits && !HasBig(buddy.Free(), b)
      requires forall s :: Supplied(s, supply(s))
      modifies this, buddy, buddy.forest, buddy.forest.tree
      ensures Valid() && (addr == 0 <==> old(Refused(b, supply)))
      ensures addr == 0 ==> unchanged(this) && buddy.Free() == old(buddy.Free()) && buddy.pages == old(buddy.pages)
      ensures addr != 0 ==> var t, k := old(GainedBits(b, supply)), Block(b, addr);
        && requestedTotal == (old(requestedTotal) + Pow2(t)) % WORD
        && Aligned(addr, b) && Span(k) !! old(out) && out == old(out) + Span(k)
        && Bytes(buddy.Free()) + out == old(Bytes(buddy.Free())) + old(out) + old(Gained(b, supply))
        && SomeTouched(old(lastTouched), lastTouched, at)
        && nextSweepDue == DueAfter(old(nextSweepDue), now, decay)
      decreases 1, 0
    {
      hide Valid, Pow2, Aligned, AlignDown, AlignUp, Bytes, BytesOf, Span, Range, Supplied, NewTouched, FreeOf;
      hide NullSafe, AddedAll, Overflowed, Greedy, HasBig, Usable, DueAfter, SomeTouched, SweptLater, ServedFrom;
      Shaped();
      var s := Max(b + 1, refillBits);
      while b + 1 <= s
        invariant Granted(supply, b, s) == Granted(supply, b, Max(b + 1, refillBits))
        decreases s
      {
        var base := supply(s);
        if base != 0 {
          assert Granted(supply, b, s) == s;
          RefillReady(base, s, b);
          ghost var before, out0 := Bytes(buddy.Free()), out;
          requestedTotal := (requestedTotal + Pow2(s)) % WORD;
          Framed();
          var released := AddRange(base, Pow2(s), at);
          NoBytes(0);
          ClocksOnly(old(buddy.Free()), buddy.Free(), old(lastTouched), lastTouched, buddy.cfg.minBits, at);
          assert Bytes(buddy.Free()) == before + Usable(buddy.cfg.minBits, base, Pow2(s));
          var none;
          NeverAsked();
          addr, none := AllocRange(b, NoSupply, at, now, later, decay);
          return;
        }
        s := s - 1;
      }
      return 0;
    }

    /** A parent that refuses everything, for a request that is served from here. */
    static function NoSupply(s: nat): nat { 0 }

    lemma NeverAsked()
      ensures forall s :: Supplied(s, NoSupply(s))
    {}

    /** The range serves the request and overflows nowhere. */
    lemma RefillReady(base: nat, s: nat, b: nat)
      requires Valid() && !parentAligned && base != 0 && Supplied(s, base) && buddy.cfg.minBits <= b < s && !HasBig(buddy.Free(), b)
      ensures var min := buddy.cfg.minBits; var lo, hi := AlignUp(base, min), AlignDown(base + Pow2(s), min);
        && Pow2(s) < Pow2(buddy.cfg.maxBits) && base + Pow2(s) < Pow2(64) && 0 < lo <= base + Pow2(s) && 0 < lo <= hi
        && Overflowed(buddy.cfg, buddy.Free(), Greedy(lo, hi)) == []
        && HasBig(AddedAll(buddy.cfg, buddy.Free(), Greedy(lo, hi)), b)
      ensures var r := Usable(buddy.cfg.minBits, base, Pow2(s));
        r !! Bytes(buddy.Free()) && r !! out && NullSafe(buddy.cfg, Bytes(buddy.Free()) + out + r)
    {
      hide Pow2, Aligned, AlignDown, AlignUp, Bytes, Span, Range, NullSafe, AddedAll, Overflowed, Greedy, HasBig;
      hide Usable, PagesInv, Buddy.Shape, Disjoint, Coalesced;
      var cfg, free := buddy.cfg, buddy.Free();
      Pow2Strict(s, cfg.maxBits);
      RefillServes(cfg, free, base, s, b);
      assert AlignDown(base + Pow2(s), cfg.minBits) <= base + Pow2(s);
      UsableWithin(cfg.minBits, Block(s, base));
      var r, all := Usable(cfg.minBits, base, Pow2(s)), Span(Block(s, base));
      assert r <= all;
      NullSafeLess(cfg, Bytes(free) + out + all, Bytes(free) + out + r);
    }

    static lemma ClocksOnly(before: set<Block>, after: set<Block>, clocks: seq<Clock>, clocks': seq<Clock>, minBits: nat, at: Clock)
      requires NewTouched(before, after, clocks, clocks', minBits, at)
      ensures SomeTouched(clocks, clocks', at)
    {}

    /** Some free block serves the request. */
    ghost predicate Cached(free: set<Block>, b: nat) { b < buddy.cfg.maxBits && HasBig(free, b) }

    /** The total of the requests is a 64-bit word. */
    static function TotalAfter(total: nat, bits: nat): nat { (total + Pow2(bits)) % WORD }

    /** `alloc_range`: a committed block that nobody else holds.  Bytes move only
        from the free blocks or the parent to the caller, and what a refill brings
        too much of stays here or goes back.  Null means that no free block is
        large enough and the parent refused every size it was asked for. */
    method AllocRange(b: nat, supply: nat -> nat, at: Clock, now: Clock, later: Clock, decay: Clock) returns (addr: nat, released: seq<Block>)
      requires Valid() && buddy.cfg.minBits <= b
      requires forall s :: Supplied(s, supply(s))
      modifies this, buddy, buddy.forest, buddy.forest.tree
      ensures Valid()
      ensures addr == 0 <==> !Cached(old(buddy.Free()), b) && old(Refused(b, supply))
      ensures addr == 0 ==> buddy.Free() == old(buddy.Free()) && out == old(out)
      ensures addr == 0 || Cached(old(buddy.Free()), b) || b >= buddy.cfg.maxBits ==>
        requestedTotal == old(requestedTotal) && lastTouched == old(lastTouched) && released == []
      ensures addr != 0 && !Cached(old(buddy.Free()), b) && b < buddy.cfg.maxBits ==>
        && requestedTotal == TotalAfter(old(requestedTotal), old(GainedBits(b, supply)))
        && SomeTouched(old(lastTouched), lastTouched, at)
        && (parentAligned ==> NewTouched(old(buddy.Free()), buddy.Free(), old(lastTouched), lastTouched, buddy.cfg.minBits, at))
      ensures addr != 0 ==> var k := Block(b, addr);
        && Aligned(addr, b) && Span(k) !! old(out) && out == old(out) + Span(k)
        && Span(k) !! buddy.pages.gone && addr !in buddy.pages.flags
        && Bytes(buddy.Free()) + BytesOf(released) + out ==
             old(Bytes(buddy.Free())) + old(out) + (if Cached(old(buddy.Free()), b) then {} else old(Gained(b, supply)))
      ensures !parentAligned ==> released == []
      ensures Bytes(buddy.Free()) !! BytesOf(released) && out !! BytesOf(released) && buddy.pages.gone !! BytesOf(released)
      ensures forall k :: k in released ==> k.bits == buddy.cfg.maxBits
      ensures b >= buddy.cfg.maxBits ==> nextSweepDue == old(nextSweepDue) && buddy.pages == old(buddy.pages)
      ensures Cached(old(buddy.Free()), b) ==>
        && nextSweepDue == DueAfter(old(nextSweepDue), now, decay)
        && ServedFrom(old(buddy.Free()), buddy.Free(), old(buddy.pages), buddy.pages.flags, Block(b, addr),
             lastTouched, buddy.cfg.minBits, old(nextSweepDue), now, decay)
      ensures b < buddy.cfg.maxBits && !Cached(old(buddy.Free()), b) ==>
        SweptLater(parentAligned, addr, old(nextSweepDue), nextSweepDue, buddy.Free(), old(buddy.pages.flags), buddy.pages.flags,
          lastTouched, buddy.cfg.minBits, now, later, decay)
      decreases if HasBig(buddy.Free(), b) then 0 else 1, 2
    {
      hide Valid, Aligned, Span, Bytes, BytesOf, NewTouched, FreeOf, Pow2, HasBig, NullSafe, Supplied, Refused;
      hide Gained, GainedBits, Carved, CarvedPages, SplitFrom, SomeTouched, Rested, SweptWhenDue, AllRested, DueAfter;
      released := [];
      NoBytes(0);
      if b >= buddy.cfg.maxBits {
        addr := if parentAligned then supply(b) else 0;
        LargeAnswer(b, supply);
        if addr != 0 {
          Hold(Block(b, addr));
          HeldCommitted(Block(b, addr));
        }
        return;
      }
      ghost var from;
      addr, from := TakeCached(b);
      if addr != 0 {
        MaybeSweepDecay(now, decay);
        HeldCommitted(Block(b, addr));
        return;
      }
      StillSupplied(supply);
      addr, released := Refill(b, supply, at, now, later, decay);
      MaybeSweepDecay(later, decay);
      if addr != 0 { HeldCommitted(Block(b, addr)); }
      NotFreeCommitted(BytesOf(released));
    }

    /** No block of a rested bucket is still committed. */
    static ghost predicate AllRested(free: set<Block>, flags: set<nat>, clocks: seq<Clock>, min: nat, now: Clock, decay: Clock) {
      forall k :: k in free ==>
        min <= k.bits < min + |clocks| && (Rested(now, clocks[k.bits - min], decay) ==> k.addr in flags)
    }

    /** The look at the clock after a refill; a refill from an unaligned parent has had
        one before.  Nothing but a sweep changes a flag if it failed. */
    static ghost predicate SweptLater(aligned: bool, addr: nat, due0: Clock, due': Clock, free: set<Block>, flags: set<nat>,
                                      flags': set<nat>, clocks: seq<Clock>, min: nat, now: Clock, later: Clock, decay: Clock) {
      var due := if aligned || addr == 0 then due0 else DueAfter(due0, now, decay);
      && due' == DueAfter(due, later, decay)
      && (decay > 0 && due <= later ==> AllRested(free, flags', clocks, min, later, decay))
      && (addr == 0 ==> SweptWhenDue(free, flags, flags', clocks, min, due, later, decay))
    }

    /** What the parent may answer depends on the bytes held here alone. */
    twostate lemma StillSupplied(supply: nat -> nat)
      requires old(forall s :: Supplied(s, supply(s)))
      requires buddy.Free() == old(buddy.Free()) && out == old(out)
      ensures forall s :: Supplied(s, supply(s))
    {
      hide Bytes, Span, NullSafe, Aligned, Pow2, FreeOf;
      forall s ensures Supplied(s, supply(s)) { assert old(Supplied(s, supply(s))); }
    }

    /** Requests beyond the sizes kept here go to the parent if it aligns. */
    lemma LargeAnswer(b: nat, supply: nat -> nat)
      requires Valid() && b >= buddy.cfg.maxBits && Supplied(b, supply(b))
      ensures Refused(b, supply) <==> !parentAligned || supply(b) == 0
      ensures !Refused(b, supply) ==> var k := Block(b, supply(b));
        && Gained(b, supply) == Span(k) && Aligned(k.addr, b)
        && Span(k) !! Bytes(buddy.Free()) && Span(k) !! out && NullSafe(buddy.cfg, Bytes(buddy.Free()) + out + Span(k))
    {
      hide Bytes, Span, NullSafe, Aligned, Pow2, FreeOf, Buddy.Valid, PagesInv;
      if parentAligned && supply(b) != 0 { AnswerSafe(supply(b), b); }
    }

    /** `refill`. */
    method Refill(b: nat, supply: nat -> nat, at: Clock, now: Clock, later: Clock, decay: Clock) returns (addr: nat, released: seq<Block>)
      requires Valid() && buddy.cfg.minBits <= b < buddy.cfg.maxBits && !HasBig(buddy.Free(), b)
      requires forall s :: Supplied(s, supply(s))
      modifies this, buddy, buddy.forest, buddy.forest.tree
      ensures Valid() && (addr == 0 <==> old(Refused(b, supply)))
      ensures addr == 0 ==> unchanged(this) && buddy.Free() == old(buddy.Free()) && buddy.pages == old(buddy.pages) && released == []
      ensures addr != 0 ==> var k := Block(b, addr);
        && nextSweepDue == (if parentAligned then old(nextSweepDue) else DueAfter(old(nextSweepDue), now, decay))
        && requestedTotal == (old(requestedTotal) + Pow2(old(GainedBits(b, supply)))) % WORD
        && SomeTouched(old(lastTouched), lastTouched, at)
        && (parentAligned ==> NewTouched(old(buddy.Free()), buddy.Free(), old(lastTouched), lastTouched, buddy.cfg.minBits, at))
        && Aligned(addr, b) && Span(k) !! old(out) && out == old(out) + Span(k)
        && Bytes(buddy.Free()) + BytesOf(released) + out == old(Bytes(buddy.Free())) + old(out) + old(Gained(b, supply))
      ensures !parentAligned ==> released == []
      ensures Bytes(buddy.Free()) !! BytesOf(released) && out !! BytesOf(released)
      ensures forall k :: k in released ==> k.bits == buddy.cfg.maxBits
      decreases 1, 1
    {
      hide Valid, Aligned, Span, Bytes, BytesOf, NewTouched, FreeOf, Pow2, HasBig, NullSafe, Supplied, RefillSizeBits, Usable;
      NoBytes(0);
      released := [];
      if parentAligned {
        addr, released := RefillAlignedParent(b, supply, at);
        if addr != 0 { ClocksOnly(old(buddy.Free()), buddy.Free(), old(lastTouched), lastTouched, buddy.cfg.minBits, at); }
      } else {
        addr := RefillUnalignedParent(b, supply, at, now, later, decay);
        assert Bytes(buddy.Free()) + BytesOf([]) + out == Bytes(buddy.Free()) + out;
      }
    }

    ghost method Hold(k: Block)
      requires Valid() && Span(k) !! Bytes(buddy.Free()) && NullSafe(buddy.cfg, Bytes(buddy.Free()) + out + Span(k))
      modifies this`out
      ensures Valid() && out == old(out) + Span(k)
    {
      hide Buddy.Valid, PagesInv, NullSafe, FreeOf, Bytes;
      assert Bytes(buddy.Free()) + (out + Span(k)) == Bytes(buddy.Free()) + out + Span(k);
      out := out + Span(k);
    }

    lemma HeldCommitted(k: Block)
      requires Valid() && Span(k) <= out
      ensures Span(k) !! buddy.pages.gone && k.addr !in buddy.pages.flags
    {
      Committed(k);
    }

    lemma NotFreeCommitted(s: set<nat>)
      requires Valid() && s !! Bytes(buddy.Free())
      ensures s !! buddy.pages.gone
    {
      GoneIsFree(buddy.Free(), buddy.pages);
    }

    /** `dealloc_range`: the caller's bytes become free, or go to the parent with
        the block they complete; without a decay time they are decommitted at once. */
    method DeallocRange(k: Block, at: Clock, now: Clock, decay: Clock) returns (released: seq<Block>)
      requires Valid() && buddy.cfg.minBits <= k.bits && Aligned(k.addr, k.bits) && 0 < k.addr < Pow2(64)
      requires Span(k) <= out
      modifies this, buddy, buddy.forest, buddy.forest.tree
      ensures Valid() && out == old(out) - Span(k)
      ensures Bytes(buddy.Free()) + BytesOf(released) == old(Bytes(buddy.Free())) + Span(k)
      ensures Bytes(buddy.Free()) !! BytesOf(released) && out !! BytesOf(released) && buddy.pages.gone !! BytesOf(released)
      ensures requestedTotal == old(requestedTotal)
      ensures k.bits >= buddy.cfg.maxBits ==>
        && released == [k] && lastTouched == old(lastTouched) && buddy.Free() == old(buddy.Free())
        && buddy.pages == old(buddy.pages) && nextSweepDue == old(nextSweepDue)
      ensures k.bits < buddy.cfg.maxBits ==> var m := Merge(buddy.cfg, old(buddy.Free()), k).1;
        var merged := MergedPages(buddy.cfg, old(buddy.Free()), k, old(buddy.pages));
        && buddy.Free() == Added(buddy.cfg, old(buddy.Free()), k)
        && nextSweepDue == DueAfter(old(nextSweepDue), now, decay)
        && (decay > 0 ==> SweptWhenDue(buddy.Free(), merged.flags, buddy.pages.flags, lastTouched, buddy.cfg.minBits,
                            old(nextSweepDue), now, decay))
        && if m.bits == buddy.cfg.maxBits then released == [m] && lastTouched == old(lastTouched) && (decay == 0 ==> buddy.pages == merged)
        else && released == [] && m in buddy.Free() && Span(k) <= Span(m)
             && (decay == 0 ==>
                  && lastTouched == old(lastTouched)
                  && buddy.pages == Decommitted(merged, m))
             && (decay > 0 ==>
                  && buddy.cfg.minBits <= m.bits < buddy.cfg.minBits + |old(lastTouched)|
                  && lastTouched == old(lastTouched)[m.bits - buddy.cfg.minBits := at])
    {
      hide Valid, Aligned, Pow2, Span, Bytes, BytesOf, Merge, MergedPages, PagesInv, FreeOf, NullSafe, Added, Rested, SweptWhenDue;
      released := [];
      NoBytes(0);
      Release(k);
      if k.bits >= buddy.cfg.maxBits {
        BytesOfMore([], k);
        released := [k];
        assert [] + [k] == [k];
        NotFreeCommitted(Span(k));
        return;
      }
      Shaped();
      var overflow, landedBits, m := Absorb(k);
      if overflow == 0 {
        if decay == 0 {
          var base := AlignDown(k.addr, landedBits);
          AlignDownUnique(m.addr, k.addr, landedBits);
          Decommit(Block(landedBits, base));
        } else {
          Shaped();
          TouchBucket(landedBits - buddy.cfg.minBits, at);
        }
      } else {
        BytesOfMore([], m);
        released := [Block(buddy.cfg.maxBits, overflow)];
        assert [] + [m] == released;
      }
      MaybeSweepDecay(now, decay);
      NotFreeCommitted(BytesOf(released));
    }

    ghost method Release(k: Block)
      requires Valid() && Span(k) <= out
      modifies this`out
      ensures Valid() && out == old(out) - Span(k) && Span(k) !! Bytes(buddy.Free())
      ensures NullSafe(buddy.cfg, Bytes(buddy.Free()) + out + Span(k))
    {
      hide Buddy.Valid, PagesInv, NullSafe, FreeOf, Bytes, Span;
      ghost var all := Bytes(buddy.Free()) + out;
      NullSafeLess(buddy.cfg, all, Bytes(buddy.Free()) + (out - Span(k)) + Span(k));
      NullSafeLess(buddy.cfg, all, Bytes(buddy.Free()) + (out - Span(k)));
      out := out - Span(k);
    }
  }
}
