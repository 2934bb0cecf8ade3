/** `Buddy`: per size, three cached block addresses and a search tree.  The trees
    of all sizes keep their nodes, and the decommitted flags, in one pagemap. */
module Buddy {
  import W = ChunkWord
  import opened Bits
  import opened RangeBlocks
  import opened BuddySpec
  import opened Lists
  import RBHeap
  import RBTree
  import F = Forest

  /** A bucket: the cached addresses and the keys of the tree. */
  datatype Entry = Entry(cache: seq<nat>, tree: set<nat>)

  const CACHE_SLOTS: nat := 3

  /** No address twice, and the tree is used only when every slot is. */
  predicate EntryOk(e: Entry) {
    && |e.cache| == CACHE_SLOTS && 0 !in e.tree && (0 in e.cache ==> e.tree == {})
    && (forall i :: 0 <= i < |e.cache| ==> e.cache[i] !in e.tree)
    && (forall i, j :: 0 <= i < j < |e.cache| && e.cache[i] == e.cache[j] ==> e.cache[i] == 0)
  }

  function Contents(e: Entry): set<nat> {
    (set a | a in e.cache && a != 0) + e.tree
  }

  /** The free blocks of all buckets; bucket `i` holds blocks of 2^(minBits + i) bytes. */
  function FreeOf(entries: seq<Entry>, minBits: nat): set<Block> {
    set i, a | 0 <= i < |entries| && a in Contents(entries[i]) :: Block(minBits + i, a)
  }

  lemma FreeMember(entries: seq<Entry>, minBits: nat, k: Block)
    ensures k in FreeOf(entries, minBits) <==>
      minBits <= k.bits < minBits + |entries| && k.addr in Contents(entries[k.bits - minBits])
  {
    if minBits <= k.bits < minBits + |entries| && k.addr in Contents(entries[k.bits - minBits]) {
      var i := k.bits - minBits;
      assert Block(minBits + i, k.addr) == k;
    }
  }

  lemma FreeUpdated(entries: seq<Entry>, minBits: nat, i: nat, e: Entry, a: nat)
    requires i < |entries|
    ensures Contents(e) == Contents(entries[i]) + {a} ==>
      FreeOf(entries[i := e], minBits) == FreeOf(entries, minBits) + {Block(minBits + i, a)}
    ensures Contents(e) == Contents(entries[i]) - {a} ==>
      FreeOf(entries[i := e], minBits) == FreeOf(entries, minBits) - {Block(minBits + i, a)}
  {
    var after, before := FreeOf(entries[i := e], minBits), FreeOf(entries, minBits);
    forall k: Block
      ensures k in after <==> if k.bits == minBits + i then k.addr in Contents(e) else k in before
      ensures k.bits == minBits + i ==> (k in before <==> k.addr in Contents(entries[i]))
    {
      FreeMember(entries[i := e], minBits, k);
      FreeMember(entries, minBits, k);
    }
    hide FreeOf, Contents;
  }

  /** The address a bucket gives up: the greatest of its cached addresses and
      the least key of its tree. */
  ghost predicate Chosen(e: Entry, a: nat) {
    && a in Contents(e)
    && (forall c :: c in e.cache ==> c <= a)
    && (a in e.tree ==> forall x :: x in e.tree ==> a <= x)
    && (e.tree != {} ==> exists x :: x in e.tree && x <= a)
  }

  /** The search of the cache finds a buddy that is not free exactly if the block
      is the one at its own size and a slot is empty: null then matches. */
  lemma NullBuddyFound(e: Entry, k: Block)
    requires EntryOk(e) && Aligned(k.addr, k.bits) && k.addr > 0
    ensures var a := BuddyOf(k).addr;
      a in e.cache && a !in Contents(e) <==> k.addr == Size(k) && 0 in e.cache
  {
    NullBuddy(k);
  }

  /** The search for the buddy of `k` stops at an empty slot of its bucket. */
  ghost predicate NullHit(cfg: Config, entries: seq<Entry>, empty: nat, k: Block) {
    && BuddyOf(k).addr == 0 && CanConsolidate(cfg, k)
    && cfg.minBits <= k.bits && k.bits - cfg.minBits < empty && k.bits - cfg.minBits < |entries|
    && 0 in entries[k.bits - cfg.minBits].cache
  }

  lemma SafeMisses(cfg: Config, free: set<Block>, k: Block, entries: seq<Entry>, empty: nat)
    requires AllPlaced(cfg, free) && Placed(cfg, k) && ChainSafe(cfg, free, k)
    ensures var m := Merge(cfg, free, k).1; m.bits < cfg.maxBits ==> !NullHit(cfg, entries, empty, m)
    decreases cfg.maxBits - k.bits
  {
    hide AlignDown, Aligned, CanConsolidate;
    if k.bits < cfg.maxBits && BuddyOf(k) in free && CanConsolidate(cfg, k) {
      FamilyPlaced(cfg, k);
      SafeMisses(cfg, free - {BuddyOf(k)}, ParentOf(k), entries, empty);
    }
  }

  /** Every bucket at or above `empty` is empty, cache and tree. */
  ghost predicate Buckets(cfg: Config, entries: seq<Entry>, empty: nat) {
    && 10 <= cfg.minBits < cfg.maxBits < 64
    && |entries| == cfg.maxBits - cfg.minBits
    && empty <= |entries|
    && (forall i :: 0 <= i < |entries| ==> EntryOk(entries[i]))
    && (forall i :: empty <= i < |entries| ==> Contents(entries[i]) == {})
  }

  lemma BucketDropped(cfg: Config, entries: seq<Entry>, empty: nat, idx: nat, e': Entry, a: nat)
    requires Buckets(cfg, entries, empty) && idx < |entries|
    requires EntryOk(e') && Contents(e') == Contents(entries[idx]) - {a}
    ensures Buckets(cfg, entries[idx := e'], empty)
    ensures FreeOf(entries[idx := e'], cfg.minBits) == FreeOf(entries, cfg.minBits) - {Block(cfg.minBits + idx, a)}
  {
    FreeUpdated(entries, cfg.minBits, idx, e', a);
    hide EntryOk, Contents, FreeOf;
  }

  lemma BucketFilled(cfg: Config, entries: seq<Entry>, empty: nat, idx: nat, e': Entry, a: nat)
    requires Buckets(cfg, entries, empty) && idx < |entries|
    requires EntryOk(e') && Contents(e') == Contents(entries[idx]) + {a}
    ensures Buckets(cfg, entries[idx := e'], if empty > idx + 1 then empty else idx + 1)
    ensures FreeOf(entries[idx := e'], cfg.minBits) == FreeOf(entries, cfg.minBits) + {Block(cfg.minBits + idx, a)}
  {
    FreeUpdated(entries, cfg.minBits, idx, e', a);
    hide EntryOk, Contents, FreeOf;
  }

  class Buddy {
    const cfg: Config
    const forest: F.Forest
    var caches: seq<seq<nat>>
    var emptyAtOrAbove: nat
    /** The buckets: the caches with the keys of the trees. */
    ghost var entries: seq<Entry>
    /** The flags of the pagemap, and the bytes that have been handed back. */
    ghost var pages: Pages

    ghost function Free(): set<Block>
      reads this`entries
    {
      FreeOf(entries, cfg.minBits)
    }

    ghost predicate Synced()
      reads this`caches, this`entries, this`pages, forest, forest.tree`store
    {
      && forest.Valid() && forest.grain == cfg.minBits
      && |caches| == |forest.shapes| == |entries|
      && (forall i :: 0 <= i < |entries| ==> entries[i] == Entry(caches[i], forest.Set(i)))
      && pages.flags == forest.Marks()
    }

    ghost predicate Shape()
      reads this`caches, this`entries, this`emptyAtOrAbove, this`pages, forest, forest.tree`store
    {
      Buckets(cfg, entries, emptyAtOrAbove) && Synced()
    }

    ghost predicate Valid()
      reads this`caches, this`entries, this`emptyAtOrAbove, this`pages, forest, forest.tree`store
    {
      Shape() && FreeInv(cfg, Free())
    }

    /** An empty allocator over a pagemap in which no flag is set. */
    constructor (minBits: nat, maxBits: nat, boundary: set<nat>, pagemap: map<nat, RBHeap.Words>)
      requires 10 <= minBits < maxBits < 64
      requires forall k :: k in pagemap <==> 0 < k < 0x1_0000_0000_0000_0000 && Aligned(k, minBits)
      requires forall k :: k in pagemap ==> !W.IsDecommitted(pagemap[k].one)
      ensures Valid() && fresh(forest) && fresh(forest.tree) && Free() == {} && pages == Pages({}, {})
      ensures cfg == Config(minBits, maxBits, boundary)
    {
      cfg := Config(minBits, maxBits, boundary);
      forest := new F.Forest(minBits, maxBits - minBits, pagemap);
      caches := seq(maxBits - minBits, _ => [0, 0, 0]);
      entries := seq(maxBits - minBits, _ => Entry([0, 0, 0], {}));
      emptyAtOrAbove := 0;
      pages := Pages({}, {});
      new;
      RBHeap.ViewKeys(forest.tree.store);
      assert forest.Marks() == {};
      forall k: Block ensures k !in Free() { FreeMember(entries, minBits, k); }
    }

    // ----- the flags

    /** Addresses the pagemap has an entry for. */
    ghost predicate Mapped(addr: nat) { 0 < addr < Pow2(64) && Aligned(addr, cfg.minBits) }

    lemma MappedBlock(k: Block)
      requires Placed(cfg, k)
      ensures Mapped(k.addr)
    {
      AlignedWeaken(k.addr, cfg.minBits, k.bits);
    }

    method IsDecommitted(addr: nat) returns (decommitted: bool)
      requires Shape() && Mapped(addr)
      ensures decommitted == (addr in pages.flags)
    {
      Pow2Of64();
      hide Pow2, Aligned, Buckets, F.Planted, F.MarksOf, RBHeap.View;
      decommitted := forest.IsMarked(addr);
    }

    method SetDecommitted(addr: nat, on: bool)
      requires Shape() && Mapped(addr)
      modifies this`pages, forest.tree`store
      ensures Shape() && pages == old(pages).(flags := if on then old(pages).flags + {addr} else old(pages).flags - {addr})
    {
      Pow2Of64();
      hide Pow2, Aligned, Buckets, F.Planted, F.MarksOf, RBHeap.View;
      forest.SetMark(addr, on);
      pages := pages.(flags := forest.Marks());
    }

    lemma NullUnflagged()
      requires Shape()
      ensures 0 !in pages.flags
    {}

    ghost method SetGone(gone: set<nat>)
      requires Shape()
      modifies this`pages
      ensures Shape() && pages == old(pages).(gone := gone)
    {
      pages := pages.(gone := gone);
    }

    /** `on_consolidate`. */
    method OnConsolidate(addr: nat, b: nat)
      requires Shape() && (addr == 0 || Mapped(addr))
      modifies this`pages, forest.tree`store
      ensures Shape() && pages == Consolidated(old(pages), Block(b, addr))
    {
      hide Shape;
      if addr == 0 {
        // the entry of the null address reads as zero
        NullUnflagged();
        return;
      }
      var decommitted := IsDecommitted(addr);
      if decommitted {
        SetGone(pages.gone - Span(Block(b, addr)));
        SetDecommitted(addr, false);
      }
    }

    /** `on_split`. */
    method OnSplit(whole: nat, second: nat)
      requires Shape() && Mapped(whole) && Mapped(second)
      modifies this`pages, forest.tree`store
      ensures Shape() && pages == SplitPages(old(pages), whole, second)
    {
      hide Shape;
      var decommitted := IsDecommitted(whole);
      SetDecommitted(second, decommitted);
    }

    // ----- one bucket

    /** All but bucket `idx` is in place. */
    ghost predicate SyncedBut(idx: nat)
      reads this`caches, this`entries, this`pages, forest, forest.tree`store
    {
      && forest.Valid() && forest.grain == cfg.minBits
      && |caches| == |forest.shapes| == |entries|
      && (forall i :: 0 <= i < |entries| && i != idx ==> entries[i] == Entry(caches[i], forest.Set(i)))
      && pages.flags == forest.Marks()
    }

    /** After an operation on one tree, the other buckets are as they were. */
    twostate lemma OneTree(idx: nat)
      requires old(Synced()) && idx < |entries| && unchanged(this)
      requires forest.Valid() && forest.Others(idx, old(forest.shapes)) && forest.Marks() == old(forest.Marks())
      ensures SyncedBut(idx)
    {
      forall i | 0 <= i < |entries| && i != idx ensures entries[i] == Entry(caches[i], forest.Set(i)) {
        assert old(forest.Set(i)) == forest.Set(i);
      }
    }

    /** Store a bucket that has lost the address `a`. */
    method Drop(idx: nat, cache: seq<nat>, ghost a: nat)
      requires Buckets(cfg, entries, emptyAtOrAbove) && idx < |entries| && SyncedBut(idx)
      requires var e' := Entry(cache, forest.Set(idx)); EntryOk(e') && Contents(e') == Contents(entries[idx]) - {a}
      modifies this`entries, this`caches
      ensures Shape() && Free() == old(Free()) - {Block(cfg.minBits + idx, a)}
      ensures entries == old(entries)[idx := Entry(cache, forest.Set(idx))]
    {
      hide Buckets, EntryOk, Contents, FreeOf, F.Planted, F.MarksOf, F.Forest.Marks, F.Forest.Valid;
      ghost var e' := Entry(cache, forest.Set(idx));
      BucketDropped(cfg, entries, emptyAtOrAbove, idx, e', a);
      caches := caches[idx := cache];
      entries := entries[idx := e'];
    }

    method Fill(idx: nat, cache: seq<nat>, ghost a: nat)
      requires Buckets(cfg, entries, emptyAtOrAbove) && idx < |entries| && SyncedBut(idx)
      requires var e' := Entry(cache, forest.Set(idx)); EntryOk(e') && Contents(e') == Contents(entries[idx]) + {a}
      modifies this`entries, this`caches, this`emptyAtOrAbove
      ensures Shape() && Free() == old(Free()) + {Block(cfg.minBits + idx, a)}
    {
      hide Buckets, EntryOk, Contents, FreeOf, F.Planted, F.MarksOf, F.Forest.Marks, F.Forest.Valid;
      ghost var e' := Entry(cache, forest.Set(idx));
      BucketFilled(cfg, entries, emptyAtOrAbove, idx, e', a);
      emptyAtOrAbove := if emptyAtOrAbove > idx + 1 then emptyAtOrAbove else idx + 1;
      caches := caches[idx := cache];
      entries := entries[idx := e'];
    }

    /** The cache slot that holds `a`, or the number of slots. */
    static method FindSlot(cache: seq<nat>, a: nat) returns (slot: nat)
      ensures slot <= |cache| && (slot < |cache| ==> cache[slot] == a)
      ensures slot == |cache| <==> a !in cache
      ensures forall j :: 0 <= j < slot ==> cache[j] != a
    {
      slot := 0;
      while slot < |cache| && cache[slot] != a
        invariant 0 <= slot <= |cache|
        invariant forall j :: 0 <= j < slot ==> cache[j] != a
      {
        slot := slot + 1;
      }
    }

    lemma BucketIs(idx: nat)
      requires Shape() && idx < |entries|
      ensures |caches| == |forest.shapes| == |entries| && |caches[idx]| == CACHE_SLOTS
      ensures entries[idx] == Entry(caches[idx], forest.Set(idx)) && EntryOk(entries[idx])
      ensures idx >= emptyAtOrAbove ==> Contents(entries[idx]) == {}
    {}

    lemma BuddyInBucket(k: Block)
      requires Shape() && cfg.minBits <= k.bits < cfg.maxBits && Placed(cfg, k)
      ensures BuddyOf(k) == Block(k.bits, BuddyOf(k).addr) && k.bits - cfg.minBits < |entries|
      ensures BuddyOf(k).addr < Pow2(64) && (BuddyOf(k).addr == 0 || Mapped(BuddyOf(k).addr))
      ensures BuddyOf(k) in Free() <==> BuddyOf(k).addr in Contents(entries[k.bits - cfg.minBits])
    {
      hide Pow2, Aligned, AlignDown, FreeOf, Contents, EntryOk, F.Forest.Valid, F.Forest.Marks;
      if BuddyOf(k).addr != 0 {
        FamilyPlaced(cfg, k);
        MappedBlock(BuddyOf(k));
      }
      FreeMember(entries, cfg.minBits, BuddyOf(k));
    }

    static lemma SlotRefilled(e: Entry, slot: nat, m: nat, rest: set<nat>)
      requires EntryOk(e) && slot < |e.cache|
      requires if e.tree == {} then m == 0 && rest == {} else m in e.tree && rest == e.tree - {m}
      ensures EntryOk(Entry(e.cache[slot := m], rest))
      ensures Contents(Entry(e.cache[slot := m], rest)) == Contents(e) - {e.cache[slot]}
    {
      var e' := Entry(e.cache[slot := m], rest);
      forall a ensures a in Contents(e') <==> a in Contents(e) - {e.cache[slot]} {
        if a in e.cache && a != e.cache[slot] {
          var j :| 0 <= j < |e.cache| && e.cache[j] == a;
          assert e'.cache[j] == a;
        }
        if m != 0 { assert e'.cache[slot] == m; }
      }
    }

    static lemma TreeLoses(e: Entry, a: nat)
      requires EntryOk(e) && a in e.tree
      ensures EntryOk(Entry(e.cache, e.tree - {a}))
      ensures Contents(Entry(e.cache, e.tree - {a})) == Contents(e) - {a}
    {}

    /** `remove_buddy`: take the buddy of a block out of its bucket if it is free and
        may be merged.  A null buddy is taken for found at an empty slot, which
        leaves the free blocks as they are. */
    method RemoveBuddy(addr: nat, b: nat) returns (found: bool)
      requires Valid() && cfg.minBits <= b < cfg.maxBits && Placed(cfg, Block(b, addr))
      modifies this`entries, this`caches, this`pages, forest, forest.tree
      ensures Shape() && emptyAtOrAbove == old(emptyAtOrAbove) && |entries| == old(|entries|)
      ensures forall i :: 0 <= i < |entries| && i != b - cfg.minBits ==> entries[i] == old(entries)[i]
      ensures found == ((BuddyOf(Block(b, addr)) in old(Free()) && CanConsolidate(cfg, Block(b, addr)))
        || NullHit(cfg, old(entries), old(emptyAtOrAbove), Block(b, addr)))
      ensures Free() == if found then old(Free()) - {BuddyOf(Block(b, addr))} else old(Free())
      ensures pages == if found then Consolidated(old(pages), BuddyOf(Block(b, addr))) else old(pages)
    {
      hide Pow2, Aligned, AlignDown, BuddyOf, Placed, FreeInv, CanConsolidate, FreeOf, Consolidated, Buckets, EntryOk, Mapped;
      hide F.Forest.Valid, F.Forest.Marks;
      var idx := b - cfg.minBits;
      var buddy := BuddyOf(Block(b, addr)).addr;
      BuddyInBucket(Block(b, addr));
      BucketIs(idx);
      if idx >= emptyAtOrAbove { return false; }
      ghost var e := entries[idx];
      var slot := FindSlot(caches[idx], buddy);
      if slot < CACHE_SLOTS {
        if !CanConsolidate(cfg, Block(b, addr)) { return false; }
        OnConsolidate(buddy, b);
        BucketIs(idx);
        label before:
        var m := forest.RemoveMin(idx);
        OneTree@before(idx);
        SlotRefilled(e, slot, m, forest.Set(idx));
        Drop(idx, caches[idx][slot := m], buddy);
        return true;
      }
      Pow2Of64();
      var inTree, path, c, f := forest.Find(idx, buddy);
      if !inTree { return false; }
      if !CanConsolidate(cfg, Block(b, addr)) { return false; }
      OnConsolidate(buddy, b);
      BucketIs(idx);
      label taking:
      forest.RemoveAt(idx, path, c, f);
      OneTree@taking(idx);
      TreeLoses(e, buddy);
      Drop(idx, caches[idx], buddy);
      return true;
    }

    static lemma EntryGrows(e: Entry, e': Entry, slot: nat, addr: nat)
      requires EntryOk(e) && addr > 0 && addr !in Contents(e) && slot <= CACHE_SLOTS
      requires if slot < CACHE_SLOTS then e.cache[slot] == 0 else 0 !in e.cache
      requires e' == if slot < CACHE_SLOTS then Entry(e.cache[slot := addr], e.tree) else Entry(e.cache, e.tree + {addr})
      ensures EntryOk(e') && Contents(e') == Contents(e) + {addr}
    {
      forall a ensures a in Contents(e') <==> a in Contents(e) + {addr} {
        if slot < CACHE_SLOTS {
          assert e'.cache[slot] == addr;
          if a in e.cache && a != 0 {
            var j :| 0 <= j < |e.cache| && e.cache[j] == a;
            assert e'.cache[j] == a;
          }
        }
      }
    }

    /** A block apart from the free ones is the key of no tree. */
    lemma InNoTree(k: Block)
      requires Shape() && Apart(Free(), k) && Placed(cfg, k) && k.bits < cfg.maxBits
      ensures Mapped(k.addr) && k.bits - cfg.minBits < |entries| && k.addr !in Contents(entries[k.bits - cfg.minBits])
      ensures forall j :: 0 <= j < |forest.shapes| ==> k.addr !in forest.Set(j)
    {
      MappedBlock(k);
      FreeMember(entries, cfg.minBits, k);
      if k in Free() { SameAddrOverlap(k, k); }
      forall j | 0 <= j < |forest.shapes| ensures k.addr !in forest.Set(j) {
        var l := Block(cfg.minBits + j, k.addr);
        FreeMember(entries, cfg.minBits, l);
        SameAddrOverlap(l, k);
      }
    }

    /** Put a block into its bucket: the first empty cache slot, else the tree. */
    method Place(addr: nat, b: nat)
      requires Shape() && cfg.minBits <= b < cfg.maxBits && Placed(cfg, Block(b, addr)) && Apart(Free(), Block(b, addr))
      modifies this`entries, this`caches, this`emptyAtOrAbove, forest, forest.tree
      ensures Shape() && Free() == old(Free()) + {Block(b, addr)} && pages == old(pages)
    {
      hide Pow2, Aligned, AlignDown, Placed, Apart, FreeOf, Buckets, EntryOk, Contents;
      hide F.Forest.Valid, F.Forest.Marks;
      var idx := b - cfg.minBits;
      InNoTree(Block(b, addr));
      BucketIs(idx);
      Pow2Of64();
      ghost var e := entries[idx];
      var slot := FindSlot(caches[idx], 0);
      if slot < CACHE_SLOTS {
        EntryGrows(e, Entry(caches[idx][slot := addr], e.tree), slot, addr);
        Fill(idx, caches[idx][slot := addr], addr);
        return;
      }
      var inTree, path, c, f := forest.Find(idx, addr);
      label adding:
      forest.InsertAt(idx, path, addr, c);
      OneTree@adding(idx);
      EntryGrows(e, Entry(caches[idx], e.tree + {addr}), slot, addr);
      Fill(idx, caches[idx], addr);
    }

    /** `add_block`: the address of the block that grew to 2^maxBits bytes, or
        null, and then the size at which the block came to rest. */
    method AddBlock(addr: nat, b: nat) returns (overflow: nat, landedBits: nat)
      requires Valid() && b < cfg.maxBits && Placed(cfg, Block(b, addr)) && Apart(Free(), Block(b, addr))
      requires var m := Merge(cfg, Free(), Block(b, addr)).1; m.bits < cfg.maxBits ==> !NullHit(cfg, entries, emptyAtOrAbove, m)
      modifies this, forest, forest.tree
      ensures Valid()
      ensures Free() == Added(cfg, old(Free()), Block(b, addr))
      ensures pages == MergedPages(cfg, old(Free()), Block(b, addr), old(pages))
      ensures var m := Merge(cfg, old(Free()), Block(b, addr)).1;
        if m.bits < cfg.maxBits then overflow == 0 && landedBits == m.bits else overflow == m.addr != 0
      decreases cfg.maxBits - b
    {
      hide Shape, FreeInv, Placed, Apart, ChainSafe, Mapped, Merge, Added, MergedPages, Pow2, Aligned, AlignDown;
      hide BuddyOf, FreeOf, EntryOk, Contents, CanConsolidate, Consolidated;
      ghost var k := Block(b, addr);
      ghost var free := Free();
      AddedInv(cfg, free, k);
      MergeCases(cfg, free, k, pages);
      ghost var buddy, parent := BuddyOf(k), ParentOf(k);
      assert parent == Block(b + 1, AlignDown(addr, b + 1));
      MappedBlock(k);
      var found := RemoveBuddy(addr, b);
      if found {
        OnConsolidate(addr, b);
        assert Free() == free - {buddy};
        assert pages == Consolidated(Consolidated(old(pages), buddy), k);
        var addr' := AlignDown(addr, b + 1);
        if b + 1 == cfg.maxBits {
          return addr', 0;
        }
        overflow, landedBits := AddBlock(addr', b + 1);
        return;
      }
      Place(addr, b);
      return 0, b;
    }

    /** One turn of the merge loop. */
    static lemma MergeCases(cfg: Config, free: set<Block>, k: Block, pg: Pages)
      requires FreeInv(cfg, free) && k.bits < cfg.maxBits && Placed(cfg, k) && Apart(free, k)
      ensures k !in free && k.addr > 0 && cfg.minBits <= k.bits
      ensures var b, p := BuddyOf(k), ParentOf(k);
        if b in free && CanConsolidate(cfg, k)
        then && FreeInv(cfg, free - {b}) && Placed(cfg, p) && Apart(free - {b}, p) && p.addr > 0
             && Merge(cfg, free, k) == Merge(cfg, free - {b}, p) && Merge(cfg, free, k).1.bits > k.bits
             && Added(cfg, free, k) == Added(cfg, free - {b}, p)
             && MergedPages(cfg, free, k, pg) == MergedPages(cfg, free - {b}, p, Consolidated(Consolidated(pg, b), k))
             && (p.bits == cfg.maxBits ==>
                  && Merge(cfg, free, k) == (free - {b}, p) && Added(cfg, free, k) == free - {b}
                  && MergedPages(cfg, free, k, pg) == Consolidated(Consolidated(pg, b), k))
        else Merge(cfg, free, k) == (free, k) && Added(cfg, free, k) == free + {k} && MergedPages(cfg, free, k, pg) == pg
    {
      hide Disjoint, Coalesced, Pow2, AlignDown, Aligned;
      assert k !in free by { if k in free { SameAddrOverlap(k, k); } }
      if BuddyOf(k) in free && CanConsolidate(cfg, k) {
        FamilyPlaced(cfg, k);
        TakenSound(cfg, free, BuddyOf(k));
        Family(k);
        MergeStep(free, k, BuddyOf(k), ParentOf(k));
        MergeSound(cfg, free - {BuddyOf(k)}, ParentOf(k));
      }
    }

    /** The slots with the address in hand hold the same addresses as before. */
    static ghost predicate Exchanged(cache: seq<nat>, addr: nat, cache0: seq<nat>, addr0: nat) {
      && |cache| == |cache0| == CACHE_SLOTS
      && (forall a :: (a in cache || a == addr) <==> (a in cache0 || a == addr0))
      && (forall i, j :: 0 <= i < j < |cache| && cache[i] == cache[j] ==> cache[i] == 0)
      && (addr in cache ==> addr == 0)
    }

    static lemma SwapSlot(cache: seq<nat>, addr: nat, cache0: seq<nat>, addr0: nat, slot: nat)
      requires Exchanged(cache, addr, cache0, addr0) && slot < |cache|
      ensures Exchanged(cache[slot := addr], cache[slot], cache0, addr0)
    {
      var c := cache[slot := addr];
      forall a ensures (a in c || a == cache[slot]) <==> (a in cache || a == addr) {
        if a in cache {
          var j :| 0 <= j < |cache| && cache[j] == a;
          assert j == slot || c[j] == a;
        }
        if a == addr { assert c[slot] == a; }
      }
    }

    static lemma ExchangedContents(e: Entry, cache: seq<nat>, addr: nat, m: nat, rest: set<nat>)
      requires EntryOk(e) && Exchanged(cache, addr, e.cache, m)
      requires if e.tree == {} then m == 0 && rest == {} else m in e.tree && rest == e.tree - {m}
      ensures EntryOk(Entry(cache, rest))
      ensures addr != 0 ==> Contents(Entry(cache, rest)) == Contents(e) - {addr} && addr in Contents(e)
      ensures addr == 0 && m == 0 ==> Contents(Entry(cache, rest)) == Contents(e)
    {
      var e' := Entry(cache, rest);
      forall a ensures (a in cache || a == addr) <==> (a in e.cache || a == m) {}
      forall i | 0 <= i < |cache| ensures cache[i] !in rest {
        assert cache[i] in cache;
        if cache[i] in e.cache {
          var j :| 0 <= j < |e.cache| && e.cache[j] == cache[i];
        }
      }
      hide Exchanged;
      if addr != 0 {
        forall a ensures a in Contents(e') <==> a in Contents(e) && a != addr {
          if a in e.cache {
            var j :| 0 <= j < |e.cache| && e.cache[j] == a;
          }
        }
      }
    }

    /** Keep the greatest of the address in hand and the cached ones. */
    static method Compete(cache0: seq<nat>, m: nat) returns (addr: nat, cache: seq<nat>)
      requires Exchanged(cache0, m, cache0, m)
      ensures Exchanged(cache, addr, cache0, m)
      ensures m <= addr && forall i :: 0 <= i < CACHE_SLOTS ==> cache[i] <= addr
    {
      addr, cache := m, cache0;
      var slot := 0;
      while slot < CACHE_SLOTS
        invariant 0 <= slot <= CACHE_SLOTS == |cache|
        invariant Exchanged(cache, addr, cache0, m)
        invariant forall i :: 0 <= i < slot ==> cache[i] <= addr
        invariant m <= addr
      {
        if addr == 0 || cache[slot] > addr {
          SwapSlot(cache, addr, cache0, m, slot);
          addr, cache := cache[slot], cache[slot := addr];
        }
        slot := slot + 1;
      }
    }

    /** What comes out is chosen, and the rest stays. */
    static lemma Competed(e: Entry, cache: seq<nat>, addr: nat, m: nat, rest: set<nat>)
      requires EntryOk(e) && Exchanged(cache, addr, e.cache, m)
      requires m <= addr && forall i :: 0 <= i < CACHE_SLOTS ==> cache[i] <= addr
      requires if e.tree == {} then m == 0 else m in e.tree && forall k :: k in e.tree ==> m <= k
      requires rest == e.tree - {m}
      ensures EntryOk(Entry(cache, rest)) && Contents(Entry(cache, rest)) == Contents(e) - {addr}
      ensures addr == 0 <==> Contents(e) == {}
      ensures addr != 0 ==> Chosen(e, addr)
    {
      ExchangedContents(e, cache, addr, m, rest);
      forall c | c in e.cache ensures c <= addr {
        if c in cache { var i :| 0 <= i < |cache| && cache[i] == c; }
      }
      hide Exchanged, EntryOk;
    }

    /** Let the bucket's own blocks compete for being handed out. */
    method TakeFrom(idx: nat) returns (addr: nat)
      requires Shape() && idx < |entries|
      modifies this`entries, this`caches, forest, forest.tree
      ensures Shape() && pages == old(pages) && |entries| == old(|entries|)
      ensures forall i :: 0 <= i < |entries| && i != idx ==> entries[i] == old(entries)[i]
      ensures addr == 0 <==> Contents(old(entries)[idx]) == {}
      ensures addr != 0 ==> Chosen(old(entries)[idx], addr)
      ensures Free() == old(Free()) - {Block(cfg.minBits + idx, addr)}
    {
      hide Buckets, FreeOf, F.Planted, F.MarksOf, Contents, Chosen;
      BucketIs(idx);
      ghost var e := entries[idx];
      assert Exchanged(e.cache, 0, e.cache, 0) && 0 !in e.tree;
      forall m | m in e.tree ensures Exchanged(e.cache, m, e.cache, m) {}
      hide EntryOk, Exchanged;
      label before:
      var m := forest.RemoveMin(idx);
      OneTree@before(idx);
      var cache;
      addr, cache := Compete(caches[idx], m);
      Competed(e, cache, addr, m, forest.Set(idx));
      Drop(idx, cache, addr);
    }

    /** No block is left from `idx` on. */
    method Lower(idx: nat)
      requires Shape() && idx < |entries| && forall l :: l in Free() ==> l.bits < cfg.minBits + idx
      modifies this`emptyAtOrAbove
      ensures Shape() && emptyAtOrAbove == idx
    {
      forall i | idx <= i < |entries| ensures Contents(entries[i]) == {} { EmptyBucket(i, cfg.minBits + idx); }
      emptyAtOrAbove := idx;
    }

    lemma BucketCount()
      requires Shape()
      ensures |entries| == cfg.maxBits - cfg.minBits
    {}

    /** `remove_block`: null exactly when no free block is large enough; else the
        low end of a block of the least size that will do, which is split down. */
    method RemoveBlock(b: nat) returns (addr: nat, ghost k: Block)
      requires Valid() && cfg.minBits <= b < cfg.maxBits
      modifies this, forest, forest.tree
      ensures Valid()
      ensures addr == 0 <==> forall l :: l in old(Free()) ==> l.bits < b
      ensures addr == 0 ==> Free() == old(Free()) && pages == old(pages)
      ensures addr == 0 && b + 1 < cfg.maxBits ==> emptyAtOrAbove <= b - cfg.minBits
      ensures addr != 0 ==>
        && k in old(Free()) && k.addr == addr && b <= k.bits < cfg.maxBits
        && (forall l :: l in old(Free()) && b <= l.bits ==> k.bits <= l.bits)
        && Chosen(old(entries)[k.bits - cfg.minBits], addr)
        && Free() == Carved(old(Free()), k, b)
        && pages == CarvedPages(k, b, old(pages))
      decreases cfg.maxBits - b
    {
      hide FreeInv, Chosen, Carved, CarvedPages, Contents, EntryOk, FreeOf, Pow2, Aligned, Buckets, Synced, Mapped;
      hide ChainSafe, Placed, Apart, Merge, Added, MergedPages, SplitPages;
      k := Block(b, 0);
      var idx := b - cfg.minBits;
      ghost var free := Free();
      BucketCount();
      if idx >= emptyAtOrAbove {
        NoneAbove(idx);
        return 0, k;
      }
      addr := TakeFrom(idx);
      if addr != 0 {
        k := Block(b, addr);
        TookBlock(old(entries), cfg.minBits, idx, addr);
        TakenSound(cfg, free, k);
        CarvedWhole(free, k);
        return;
      }
      NoneAt(old(entries), cfg.minBits, idx);
      assert Free() == free;
      if b + 1 == cfg.maxBits {
        FreeBits();
        return;
      }
      var bigger;
      bigger, k := RemoveBlock(b + 1);
      if bigger == 0 {
        BucketCount();
        Lower(idx);
        return 0, k;
      }
      var second := bigger + Pow2(b);
      SplitOff(cfg, free, k, b);
      MappedBlock(k);
      MappedBlock(Block(b, second));
      OnSplit(bigger, second);
      var overflow, landed := AddBlock(second, b);
      CarvedStep(free, k, b, old(pages));
      addr := bigger;
    }

    lemma FreeBits()
      requires Shape()
      ensures forall l :: l in Free() ==> cfg.minBits <= l.bits < cfg.maxBits
    {
      forall l | l in Free() ensures cfg.minBits <= l.bits < cfg.maxBits { FreeMember(entries, cfg.minBits, l); }
    }

    lemma NoneAbove(idx: nat)
      requires Shape() && emptyAtOrAbove <= idx
      ensures forall l :: l in Free() ==> l.bits < cfg.minBits + idx
    {
      forall l | l in Free() ensures l.bits < cfg.minBits + idx { FreeMember(entries, cfg.minBits, l); }
    }

    lemma EmptyBucket(i: nat, b: nat)
      requires Shape() && i < |entries| && cfg.minBits + i >= b
      requires forall l :: l in Free() ==> l.bits < b
      ensures Contents(entries[i]) == {}
    {
      if a :| a in Contents(entries[i]) { FreeMember(entries, cfg.minBits, Block(cfg.minBits + i, a)); }
    }

    static lemma NoneAt(entries: seq<Entry>, minBits: nat, idx: nat)
      requires idx < |entries| && Contents(entries[idx]) == {}
      ensures forall l :: l in FreeOf(entries, minBits) ==> l.bits != minBits + idx
    {
      forall l | l in FreeOf(entries, minBits) ensures l.bits != minBits + idx { FreeMember(entries, minBits, l); }
    }

    static lemma TookBlock(entries: seq<Entry>, minBits: nat, idx: nat, a: nat)
      requires idx < |entries| && Chosen(entries[idx], a)
      ensures Block(minBits + idx, a) in FreeOf(entries, minBits)
    {
      FreeMember(entries, minBits, Block(minBits + idx, a));
    }

    static lemma CarvedWhole(free: set<Block>, k: Block)
      ensures Carved(free, k, k.bits) == free - {k}
      ensures forall pg :: CarvedPages(k, k.bits, pg) == pg
    {}

    static lemma CarvedStep(free: set<Block>, k: Block, b: nat, pg: Pages)
      requires b < k.bits
      ensures Carved(free, k, b) == Carved(free, k, b + 1) + {Block(b, k.addr + Pow2(b))}
      ensures CarvedPages(k, b, pg) == SplitPages(CarvedPages(k, b + 1, pg), k.addr, k.addr + Pow2(b))
    {}

    /** The half left over finds no buddy to merge with. */
    static lemma SplitOff(cfg: Config, free: set<Block>, k: Block, b: nat)
      requires FreeInv(cfg, free) && k in free && cfg.minBits <= b < k.bits
      ensures var f, second := Carved(free, k, b + 1), Block(b, k.addr + Pow2(b));
        && Placed(cfg, k) && Placed(cfg, second) && Apart(f, second) && FreeInv(cfg, f) && b < cfg.maxBits
        && ChainSafe(cfg, f, second)
        && Merge(cfg, f, second) == (f, second) && Added(cfg, f, second) == f + {second}
        && forall pg :: MergedPages(cfg, f, second, pg) == pg
    {
      var f, big := Carved(free, k, b + 1), Block(b + 1, k.addr);
      var low, second := Block(b, k.addr), Block(b, k.addr + Pow2(b));
      TakenSound(cfg, free, k);
      hide FreeInv, Carved, Pow2, Aligned, AlignDown, BuddyOf, CanConsolidate, Apart, Merge, Added, MergedPages;
      CarvedSound(cfg, free, k, b + 1);
      SplitFacts(cfg, big);
      SplitKeepsFree(cfg, f, big);
      ApartInside(f, big, second);
      NoBuddyNoMerge(cfg, f, second);
    }

    static lemma ApartInside(f: set<Block>, big: Block, part: Block)
      requires Apart(f, big) && big.addr <= part.addr && End(part) <= End(big)
      ensures Apart(f, part)
    {
      forall l | l in f ensures !Overlap(l, part) { assert !Overlap(l, big); }
    }

    static lemma NoBuddyNoMerge(cfg: Config, f: set<Block>, k: Block)
      requires k.bits < cfg.maxBits && BuddyOf(k) !in f && BuddyOf(k).addr != 0
      ensures ChainSafe(cfg, f, k) && Merge(cfg, f, k) == (f, k) && Added(cfg, f, k) == f + {k}
      ensures forall pg :: MergedPages(cfg, f, k, pg) == pg
    {}

    /** The occupied slots, in order. */
    static method Occupied(cache: seq<nat>) returns (cached: seq<nat>)
      requires |cache| == CACHE_SLOTS
      requires forall i, j :: 0 <= i < j < |cache| && cache[i] == cache[j] ==> cache[i] == 0
      ensures (forall a :: a in cached <==> a != 0 && a in cache) && Distinct(cached)
    {
      cached := [];
      var slot := 0;
      while slot < CACHE_SLOTS
        invariant 0 <= slot <= CACHE_SLOTS
        invariant forall a :: a in cached <==> a != 0 && a in cache[..slot]
        invariant Distinct(cached)
      {
        assert cache[..slot + 1] == cache[..slot] + [cache[slot]];
        assert cache[slot] != 0 ==> cache[slot] !in cached;
        if cache[slot] != 0 { cached := cached + [cache[slot]]; }
        slot := slot + 1;
      }
      assert cache[..slot] == cache;
    }

    static lemma Visits(e: Entry, cached: seq<nat>, keys: seq<nat>)
      requires EntryOk(e) && Distinct(cached) && Distinct(keys)
      requires forall a :: a in cached <==> a != 0 && a in e.cache
      requires forall a :: a in keys <==> a in e.tree
      ensures Distinct(cached + keys) && forall a :: a in cached + keys <==> a in Contents(e)
    {
      var all := cached + keys;
      forall i, j | 0 <= i < j < |all| ensures all[i] != all[j] {
        if i < |cached| <= j {
          assert cached[i] in cached && keys[j - |cached|] in keys;
          var s :| 0 <= s < |e.cache| && e.cache[s] == cached[i];
        }
      }
    }

    /** `for_each_in_bucket`: every free address of one size, once. */
    method ForEachInBucket(idx: nat) returns (visited: seq<nat>)
      requires Shape() && idx < |entries|
      modifies forest.tree
      ensures Shape() && Free() == old(Free()) && pages == old(pages)
      ensures (forall a :: a in visited <==> a in Contents(entries[idx])) && Distinct(visited)
    {
      hide Buckets, FreeOf, F.Planted, F.MarksOf, Contents, Distinct;
      BucketIs(idx);
      ghost var e := entries[idx];
      var cached := Occupied(caches[idx]);
      var keys := forest.ForEach(idx);
      NoRepeats(keys, forest.Set(idx));
      Visits(e, cached, keys);
      visited := cached + keys;
    }

    /** As many visits as keys: none is visited twice. */
    static lemma {:induction false} NoRepeats(keys: seq<nat>, s: set<nat>)
      requires (forall k :: k in keys <==> k in s) && |keys| == |s|
      ensures Distinct(keys)
    {
      forall i, j | 0 <= i < j < |keys| ensures keys[i] != keys[j] {
        if keys[i] == keys[j] {
          var rest := keys[..j] + keys[j + 1..];
          FewDistinct(rest, s);
        }
      }
    }

    static lemma {:induction false} FewDistinct(keys: seq<nat>, s: set<nat>)
      requires forall k :: k in s ==> k in keys
      ensures |s| <= |keys|
    {
      if keys != [] {
        var s' := s - {keys[0]};
        FewDistinct(keys[1..], s');
        assert s <= s' + {keys[0]};
      } else {
        assert s == {};
      }
    }
  }
}
