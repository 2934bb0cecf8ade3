/** The trees of all buckets: each has its own root word, and all keep their nodes
    in the same pagemap entries. */
module Forest {
  import W = ChunkWord
  import opened Bits
  import opened RBSpec
  import opened RBHeap
  import opened RBSteps
  import opened RBTree

  ghost predicate Rooted(m: Memory, root: W.Word, t: Tree) {
    Matches(m, t) && W.Address(root) == RootKey(t) && Ordered(t, 0, LIMIT) && WellFormed(t)
  }

  ghost predicate Apart(shapes: seq<Tree>) {
    forall i, j :: 0 <= i < |shapes| && 0 <= j < |shapes| && i != j ==> Keys(shapes[i]) !! Keys(shapes[j])
  }

  /** Fewer multiples of 2^b fit below n * 2^b than n. */
  lemma {:induction false} CountMultiples(s: set<nat>, b: nat, n: nat)
    requires forall k :: k in s ==> Aligned(k, b) && k < Shl(n, b)
    ensures |s| <= n
    decreases n
  {
    if n == 0 {
      assert Shl(0, b) == 0;
      assert forall k :: k !in s;
      assert s == {};
    } else {
      var top := Shl(n - 1, b);
      assert Shl(n, b) == top + Pow2(b) by { assert n * Pow2(b) == (n - 1) * Pow2(b) + Pow2(b); }
      MulAligned(n - 1, b);
      hide Shl, Pow2, Aligned;
      forall k | k in s - {top} ensures k < top { if top < k { AlignedGap(top, k, b); } }
      CountMultiples(s - {top}, b, n - 1);
    }
  }

  /** The tree's keys are far fewer than the path can cope with. */
  lemma FewKeys(s: set<nat>, b: nat)
    requires 10 <= b < 64 && forall k :: k in s ==> k < LIMIT && Aligned(k, b)
    ensures |s| < MAX_KEYS
  {
    Pow2Sum(64 - b, b);
    Pow2Of64();
    CountMultiples(s, b, Pow2(64 - b));
    Pow2Monotone(64 - b, 54);
    Pow2Sum(54, 8);
    Pow2Sum(62, 1);
    Pow2Monotone(54, 62);
    Pow2Next(62);
    Pow2Strict(54, 62);
  }

  ghost function MarksOf(m: Memory): set<nat> {
    set k | k in m.nodes && m.nodes[k].mark
  }

  lemma MarkSet(m: Memory, roots: seq<W.Word>, shapes: seq<Tree>, grain: nat, k: nat, on: bool)
    requires Planted(m, roots, shapes, grain) && k in m.nodes
    ensures var m' := m.(nodes := m.nodes[k := m.nodes[k].(mark := on)]);
      Planted(m', roots, shapes, grain) && MarksOf(m') == if on then MarksOf(m) + {k} else MarksOf(m) - {k}
  {
    hide Planted;
    StillPlanted(m, m.(nodes := m.nodes[k := m.nodes[k].(mark := on)]), roots, shapes, grain);
  }

  /** There is an entry for each chunk, and the trees share out some of them. */
  ghost predicate Planted(m: Memory, roots: seq<W.Word>, shapes: seq<Tree>, grain: nat) {
    && 10 <= grain < 64
    && |roots| == |shapes|
    && (forall i :: 0 <= i < |shapes| ==> Rooted(m, roots[i], shapes[i]))
    && Apart(shapes)
    && (forall k :: k in m.nodes <==> 0 < k < LIMIT && Aligned(k, grain))
  }

  /** An operation on tree `i` leaves the others in place. */
  lemma Replanted(m: Memory, m': Memory, roots: seq<W.Word>, shapes: seq<Tree>, grain: nat,
                  i: nat, root: W.Word, t: Tree, added: set<nat>)
    requires Planted(m, roots, shapes, grain) && i < |roots| && Rooted(m', root, t)
    requires OnlyTouches(m, m', Keys(shapes[i]) + added) && Keys(t) <= Keys(shapes[i]) + added
    requires forall j :: 0 <= j < |shapes| && j != i ==> added !! Keys(shapes[j])
    ensures Planted(m', roots[i := root], shapes[i := t], grain)
  {
    TouchKeepsKeys(m, m', Keys(shapes[i]) + added);
    hide Keys, Aligned, Pow2, Matches, Ordered, WellFormed, OnlyTouches, W.Address;
    var roots', shapes' := roots[i := root], shapes[i := t];
    forall j | 0 <= j < |shapes| ensures Rooted(m', roots'[j], shapes'[j]) {
      if j != i {
        assert Rooted(m, roots[j], shapes[j]);
        UntouchedMatches(m, m', Keys(shapes[i]) + added, shapes[j]);
      }
    }
  }

  /** Neither does a change of roots or flags. */
  lemma StillPlanted(m: Memory, m': Memory, roots: seq<W.Word>, shapes: seq<Tree>, grain: nat)
    requires Planted(m, roots, shapes, grain) && m'.nodes.Keys == m.nodes.Keys
    requires forall k :: k in m.nodes ==>
      m'.nodes[k].left == m.nodes[k].left && m'.nodes[k].right == m.nodes[k].right && m'.nodes[k].red == m.nodes[k].red
    ensures Planted(m', roots, shapes, grain)
  {
    hide Keys, Aligned, Pow2, Matches, Ordered, WellFormed, W.Address;
    forall j | 0 <= j < |shapes| ensures Rooted(m', roots[j], shapes[j]) {
      assert Rooted(m, roots[j], shapes[j]);
      SameTreeMatches(m, m', shapes[j]);
    }
  }

  lemma KeysOf(m: Memory, roots: seq<W.Word>, shapes: seq<Tree>, grain: nat, i: nat)
    requires Planted(m, roots, shapes, grain) && i < |shapes|
    ensures |Keys(shapes[i])| < MAX_KEYS
    ensures forall k :: k in Keys(shapes[i]) ==> 0 < k < LIMIT && Aligned(k, grain)
  {
    hide Keys, Aligned, Pow2, Matches, Ordered, WellFormed, W.Address;
    assert Rooted(m, roots[i], shapes[i]);
    KeysPresent(m, shapes[i]);
    FewKeys(Keys(shapes[i]), grain);
  }

  class Forest {
    const grain: nat
    const tree: RBTree
    var roots: seq<W.Word>
    ghost var shapes: seq<Tree>

    ghost function Set(i: nat): set<nat>
      requires i < |shapes|
      reads this`shapes
    {
      Keys(shapes[i])
    }

    /** The addresses whose decommitted flag is set. */
    ghost function Marks(): set<nat>
      reads tree`store
    {
      MarksOf(tree.Mem())
    }

    ghost predicate Valid()
      reads this, tree`store
    {
      Planted(tree.Mem(), roots, shapes, grain)
    }

    /** Empty trees over a pagemap, whatever its words hold. */
    constructor (grain: nat, count: nat, entries: map<nat, Words>)
      requires 10 <= grain < 64 && forall k :: k in entries <==> 0 < k < LIMIT && Aligned(k, grain)
      ensures Valid() && fresh(tree) && this.grain == grain && |shapes| == count
      ensures tree.store.entries == entries && forall i :: 0 <= i < count ==> Set(i) == {}
    {
      forall k | k in entries ensures W.Clean(k) { W.AlignedClean(k, grain); }
      this.grain := grain;
      tree := new RBTree(entries);
      roots := seq(count, _ => 0);
      shapes := seq(count, _ => Leaf);
      new;
      W.Parts(0);
      ViewKeys(tree.store);
    }

    /** Bring the root of tree `i` to the tree operations. */
    method Focus(i: nat)
      requires Valid() && i < |roots|
      modifies tree
      ensures Valid() && tree.Valid() && tree.tree == shapes[i] && tree.Contents() == Set(i)
      ensures tree.store.entries == old(tree.store.entries) && tree.Mem().nodes == old(tree.Mem()).nodes
      ensures |Set(i)| < MAX_KEYS && Marks() == old(Marks())
    {
      hide Planted, Keys, Matches, Ordered, WellFormed;
      ghost var before := tree.Mem();
      RootedAt(before, roots, shapes, grain, i);
      tree.store := tree.store.(root := roots[i]);
      tree.tree := shapes[i];
      assert tree.Mem().nodes == before.nodes;
      SameTreeMatches(before, tree.Mem(), shapes[i]);
      StillPlanted(before, tree.Mem(), roots, shapes, grain);
      KeysOf(before, roots, shapes, grain, i);
    }

    /** Keep the root after an operation that touched only tree `i` and the key added. */
    method Keep(i: nat, ghost before: Memory, ghost added: set<nat>)
      requires i < |shapes| && Planted(before, roots, shapes, grain)
      requires tree.Valid() && tree.Contents() <= Set(i) + added && OnlyTouches(before, tree.Mem(), Set(i) + added)
      requires forall j :: 0 <= j < |shapes| && j != i ==> added !! Set(j)
      modifies this
      ensures Valid() && |shapes| == old(|shapes|) && Set(i) == tree.Contents()
      ensures forall j :: 0 <= j < |shapes| && j != i ==> Set(j) == old(Set(j))
    {
      hide Planted, Keys, Matches, Ordered, WellFormed, OnlyTouches;
      SameLength(before, roots, shapes, grain);
      forall j | 0 <= j < |shapes| && j != i ensures added !! Keys(shapes[j]) { assert added !! Set(j); }
      Replanted(before, tree.Mem(), roots, shapes, grain, i, tree.store.root, tree.tree, added);
      roots := roots[i := tree.store.root];
      shapes := shapes[i := tree.tree];
    }

    static lemma SameLength(m: Memory, roots: seq<W.Word>, shapes: seq<Tree>, grain: nat)
      requires Planted(m, roots, shapes, grain)
      ensures |roots| == |shapes|
    {}

    static lemma RootedAt(m: Memory, roots: seq<W.Word>, shapes: seq<Tree>, grain: nat, i: nat)
      requires Planted(m, roots, shapes, grain) && i < |roots|
      ensures |roots| == |shapes| && Rooted(m, roots[i], shapes[i])
    {}

    /** Marks depend on the flags alone. */
    static lemma SameMarks(m: Memory, m': Memory, touched: set<nat>)
      requires OnlyTouches(m, m', touched)
      ensures MarksOf(m') == MarksOf(m)
    {}

    ghost predicate Others(i: nat, before: seq<Tree>)
      reads this`shapes
    {
      |shapes| == |before| && forall j :: 0 <= j < |shapes| && j != i ==> Set(j) == Keys(before[j])
    }

    method RemoveMin(i: nat) returns (least: nat)
      requires Valid() && i < |shapes|
      modifies this, tree
      ensures Valid() && Marks() == old(Marks()) && Others(i, old(shapes))
      ensures least == 0 <==> old(Set(i)) == {}
      ensures least != 0 ==> least in old(Set(i)) && forall k :: k in old(Set(i)) ==> least <= k
      ensures Set(i) == old(Set(i)) - {least}
    {
      hide Planted, Keys, Matches, Ordered, WellFormed, OnlyTouches, RBTree.Valid, View, MarksOf;
      SameLength(tree.Mem(), roots, shapes, grain);
      Focus(i);
      ghost var before := tree.Mem();
      least := tree.RemoveMin();
      SameMarks(before, tree.Mem(), Set(i));
      TouchesMore(before, tree.Mem(), Set(i), Set(i) + {});
      Keep(i, before, {});
    }

    /** Look for a key; the path leads to it or to its place. */
    method Find(i: nat, value: nat) returns (found: bool, path: RBPath, ghost c: Ctx, ghost f: Tree)
      requires Valid() && i < |shapes| && value < LIMIT
      modifies tree
      ensures Valid() && Marks() == old(Marks()) && fresh(path) && fresh(path.path)
      ensures found == (value in Set(i))
      ensures path.Holds(c) && shapes[i] == Plug(c, f)
      ensures if found then f.Node? && f.key == value else f.Leaf? && (value > 0 ==> Lo(c) < value < Hi(c))
    {
      hide Planted, Keys, Matches, Ordered, WellFormed, OnlyTouches, RBTree.Valid, View, MarksOf;
      SameLength(tree.Mem(), roots, shapes, grain);
      Focus(i);
      path := new RBPath();
      found, c, f := tree.Find(path, value);
    }

    method RemoveAt(i: nat, path: RBPath, ghost c: Ctx, ghost f: Tree)
      requires Valid() && i < |shapes| && path.Holds(c) && shapes[i] == Plug(c, f) && f.Node?
      modifies this, tree, path, path.path
      ensures Valid() && Marks() == old(Marks()) && Others(i, old(shapes))
      ensures Set(i) == old(Set(i)) - {f.key}
    {
      hide Planted, Keys, Matches, Ordered, WellFormed, OnlyTouches, RBTree.Valid, View, MarksOf;
      SameLength(tree.Mem(), roots, shapes, grain);
      Focus(i);
      ghost var before := tree.Mem();
      tree.RemovePath(path, c, f);
      SameMarks(before, tree.Mem(), Set(i));
      TouchesMore(before, tree.Mem(), Set(i), Set(i) + {});
      Keep(i, before, {});
    }

    method InsertAt(i: nat, path: RBPath, value: nat, ghost c: Ctx)
      requires Valid() && i < |shapes| && path.Holds(c) && shapes[i] == Plug(c, Leaf) && Lo(c) < value < Hi(c)
      requires 0 < value < LIMIT && Aligned(value, grain)
      requires forall j :: 0 <= j < |shapes| ==> value !in Set(j)
      modifies this, tree, path
      ensures Valid() && Marks() == old(Marks()) && Others(i, old(shapes))
      ensures Set(i) == old(Set(i)) + {value}
    {
      hide Planted, Keys, Matches, Ordered, WellFormed, OnlyTouches, RBTree.Valid, Aligned, View, MarksOf, Plug, Lo;
      hide Hi, RBPath.Holds;
      SameLength(tree.Mem(), roots, shapes, grain);
      EntryExists(tree.Mem(), roots, shapes, grain, value);
      Focus(i);
      ghost var before := tree.Mem();
      tree.InsertPath(path, value, c);
      SameMarks(before, tree.Mem(), Set(i) + {value});
      Keep(i, before, {value});
    }

    static lemma EntryExists(m: Memory, roots: seq<W.Word>, shapes: seq<Tree>, grain: nat, k: nat)
      requires Planted(m, roots, shapes, grain) && 0 < k < LIMIT && Aligned(k, grain)
      ensures k in m.nodes
    {}

    method ForEach(i: nat) returns (visited: seq<nat>)
      requires Valid() && i < |shapes|
      modifies tree
      ensures Valid() && Marks() == old(Marks())
      ensures (forall k :: k in visited <==> k in Set(i)) && |visited| == |Set(i)|
    {
      hide Planted, Keys, Matches, Ordered, WellFormed, OnlyTouches, RBTree.Valid, View, MarksOf;
      SameLength(tree.Mem(), roots, shapes, grain);
      Focus(i);
      visited := tree.ForEach();
    }

    // ----- the decommitted flags

    /** `is_decommitted`. */
    method IsMarked(k: nat) returns (marked: bool)
      requires Valid() && 0 < k < LIMIT && Aligned(k, grain)
      ensures marked == (k in Marks())
    {
      ViewKeys(tree.store);
      marked := W.IsDecommitted(tree.store.entries[k].one);
    }

    /** `set_decommitted`: no tree changes. */
    method SetMark(k: nat, on: bool)
      requires Valid() && 0 < k < LIMIT && Aligned(k, grain)
      modifies tree`store
      ensures Valid() && Marks() == if on then old(Marks()) + {k} else old(Marks()) - {k}
    {
      hide Planted, View, MarksOf, Aligned;
      EntryExists(tree.Mem(), roots, shapes, grain, k);
      ViewKeys(tree.store);
      MarkSet(tree.Mem(), roots, shapes, grain, k, on);
      ViewPutDecommitted(tree.store, k, on);
      tree.store := PutDecommitted(tree.store, k, on);
    }
  }
}
