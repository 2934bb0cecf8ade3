/** The local rewrites of `insert_path` and `remove_path`, on values and in memory. */
module RBSteps {
  import opened RBSpec
  import opened RBHeap

  // ----- one repair step of an insertion, on values

  predicate DoubleRed(c: Ctx) {
    c.Frame? && c.red && c.up.Frame? && !c.up.red
  }

  /** What replaces the grandparent after a double-red repair. */
  function Lifted(c: Ctx, f: Tree): Tree
    requires DoubleRed(c) && f.Node?
  {
    var dir, p, g := c.dir, c.key, c.up.key;
    if c.up.dir == dir then
      Join(dir, p, true, Blacken(f), Join(dir, g, false, c.sib, c.up.sib))
    else
      Join(dir, f.key, true,
           Join(!dir, g, false, Child(dir, f), c.up.sib),
           Join(dir, p, false, Child(!dir, f), c.sib))
  }

  lemma LiftedOrdered(c: Ctx, f: Tree)
    requires DoubleRed(c) && f.Node?
    requires OrderedCtx(c) && Ordered(f, Lo(c), Hi(c))
    ensures Ordered(Lifted(c, f), Lo(c.up.up), Hi(c.up.up))
  {
  }

  lemma LiftedSound(c: Ctx, f: Tree, h: int)
    requires DoubleRed(c) && IsRed(f)
    requires RBCtx(c, h) && RB(f, h)
    ensures IsRed(Lifted(c, f)) && RB(Lifted(c, f), h + 1) && RBCtx(c.up.up, h + 1)
    ensures CtxKeys(c.up.up) + Keys(Lifted(c, f)) == CtxKeys(c) + Keys(f)
  {
    assert Keys(f) == Keys(f.left) + {f.key} + Keys(f.right);
    if c.up.dir == c.dir {
      var inner := Join(c.dir, c.up.key, false, c.sib, c.up.sib);
      assert Keys(Blacken(f)) == Keys(f);
      assert Keys(inner) == Keys(c.sib) + {c.up.key} + Keys(c.up.sib);
      assert Keys(Lifted(c, f)) == Keys(f) + {c.key} + Keys(inner);
    } else {
      var a := Join(!c.dir, c.up.key, false, Child(c.dir, f), c.up.sib);
      var b := Join(c.dir, c.key, false, Child(!c.dir, f), c.sib);
      assert Keys(a) == Keys(Child(c.dir, f)) + {c.up.key} + Keys(c.up.sib);
      assert Keys(b) == Keys(Child(!c.dir, f)) + {c.key} + Keys(c.sib);
      assert Keys(Lifted(c, f)) == Keys(a) + {f.key} + Keys(b);
    }
  }

  /** The words in memory spell out a tree split at the hole of `c`. */
  ghost predicate Split(m: Memory, c: Ctx, f: Tree) {
    && Matches(m, f)
    && MatchesCtx(m, c, RootKey(f))
    && OrderedCtx(c)
    && Ordered(f, Lo(c), Hi(c))
  }

  lemma RedLeafAt(m: Memory, c: Ctx, k: nat)
    requires MatchesCtx(m, c, k) && OrderedCtx(c) && Lo(c) < k < Hi(c) && NodeIs(m, k, true, 0, 0, true)
    ensures Split(m, c, Node(Leaf, k, true, Leaf))
  {}

  /** The frame around a hole is not inside it. */
  lemma OutsideHole(c: Ctx, k: nat)
    requires OrderedCtx(c) && Lo(c) < k < Hi(c)
    ensures c.Frame? ==> c.key != k
  {}

  lemma RedLeaf(k: nat)
    ensures RB(Node(Leaf, k, true, Leaf), 1) && Keys(Node(Leaf, k, true, Leaf)) == {k}
  {}

  lemma BlackenDeepens(t: Tree, h: int)
    requires IsRed(t) && RB(t, h)
    ensures RB(Blacken(t), h + 1) && !IsRed(Blacken(t))
  {}

  lemma RedFrame(c: Ctx, h: int)
    requires RBCtx(c, h) && c.Frame? && c.red
    ensures DoubleRed(c)
  {}

  lemma LiftedKeys(c: Ctx, f: Tree)
    requires DoubleRed(c) && f.Node?
    ensures CtxKeys(c.up.up) + {f.key, c.key, c.up.key} <= CtxKeys(c) + Keys(f)
  {
    assert CtxKeys(c) == CtxKeys(c.up) + {c.key} + Keys(c.sib);
    assert CtxKeys(c.up) == CtxKeys(c.up.up) + {c.up.key} + Keys(c.up.sib);
  }

  lemma RaisedParentMatches(m: Memory, m': Memory, c: Ctx, f: Tree)
    requires Split(m, c, f) && DoubleRed(c) && IsRed(f) && c.up.dir == c.dir
    requires Present(m, HoleRef(c.up.up)) && Rewrites(m, m', HoleRef(c.up.up), c.key, {f.key, c.key, c.up.key})
    requires m'.nodes[f.key] == m.nodes[f.key].(red := false)
    requires NodeIs(m', c.key, c.dir, f.key, c.up.key, true)
    requires NodeIs(m', c.up.key, c.dir, RootKey(c.sib), RootKey(c.up.sib), false)
    ensures Matches(m', Lifted(c, f)) && MatchesCtx(m', c.up.up, c.key)
  {
    var ks := {f.key, c.key, c.up.key};
    NodeFacts(m, f, true, Lo(c), Hi(c));
    PiecesKept(m, m', c, f, c.key);
    JoinMatches(m', true, f.key, false, f.left, f.right);
    JoinMatches(m', c.dir, c.up.key, false, c.sib, c.up.sib);
    JoinMatches(m', c.dir, c.key, true, Blacken(f), Join(c.dir, c.up.key, false, c.sib, c.up.sib));
  }

  lemma RaisedCurrentMatches(m: Memory, m': Memory, c: Ctx, f: Tree)
    requires Split(m, c, f) && DoubleRed(c) && IsRed(f) && c.up.dir != c.dir
    requires Present(m, HoleRef(c.up.up)) && Rewrites(m, m', HoleRef(c.up.up), f.key, {f.key, c.key, c.up.key})
    requires NodeIs(m', f.key, c.dir, c.up.key, c.key, true)
    requires NodeIs(m', c.key, c.dir, RootKey(Child(!c.dir, f)), RootKey(c.sib), false)
    requires NodeIs(m', c.up.key, !c.dir, RootKey(Child(c.dir, f)), RootKey(c.up.sib), false)
    ensures Matches(m', Lifted(c, f)) && MatchesCtx(m', c.up.up, f.key)
  {
    PiecesKept(m, m', c, f, f.key);
    JoinMatches(m', !c.dir, c.up.key, false, Child(c.dir, f), c.up.sib);
    JoinMatches(m', c.dir, c.key, false, Child(!c.dir, f), c.sib);
    JoinMatches(m', c.dir, f.key, true,
                Join(!c.dir, c.up.key, false, Child(c.dir, f), c.up.sib),
                Join(c.dir, c.key, false, Child(!c.dir, f), c.sib));
  }

  /** Rewriting the three nodes of a double red leaves their subtrees and the rest alone. */
  lemma PiecesKept(m: Memory, m': Memory, c: Ctx, f: Tree, v: nat)
    requires Split(m, c, f) && DoubleRed(c) && IsRed(f)
    requires Present(m, HoleRef(c.up.up)) && Rewrites(m, m', HoleRef(c.up.up), v, {f.key, c.key, c.up.key})
    ensures Matches(m', f.left) && Matches(m', f.right) && Matches(m', c.sib) && Matches(m', c.up.sib)
    ensures MatchesCtx(m', c.up.up, v)
  {
    hide Matches, MatchesCtx, Ordered, OrderedCtx, Rewrites, NodeIs;
    var gc, up, ks := c.up, c.up.up, {f.key, c.key, c.up.key};
    FrameFacts(m, c, RootKey(f));
    FrameFacts(m, gc, c.key);
    NodeFacts(m, f, true, Lo(c), Hi(c));
    RefocusRewrite(m, m', up, gc.key, v, ks);
    BothKept(m, m', HoleRef(up), v, ks, f.left, f.right, f.key, Lo(c), Hi(c));
    SideKept(m, m', HoleRef(up), v, ks, c.dir, c.sib, c.key, Lo(gc), Hi(gc));
    SideKept(m, m', HoleRef(up), v, ks, gc.dir, gc.sib, gc.key, Lo(up), Hi(up));
  }

  lemma BothKept(m: Memory, m': Memory, r: Ref, v: nat, ks: set<nat>, left: Tree, right: Tree, k: nat, lo: int, hi: int)
    requires Present(m, r) && Rewrites(m, m', r, v, ks) && lo < k < hi
    requires Matches(m, left) && Ordered(left, lo, k) && Matches(m, right) && Ordered(right, k, hi)
    requires forall x :: x in ks ==> x == k || Outside(x, lo, hi)
    requires r.ChildRef? ==> Outside(r.key, lo, hi)
    ensures Matches(m', left) && Matches(m', right)
  {
    hide Matches, Ordered, Rewrites;
    MatchesRewrite(m, m', r, v, ks, left, lo, k);
    MatchesRewrite(m, m', r, v, ks, right, k, hi);
  }

  /** The subtree on the other side of a frame. */
  lemma SideKept(m: Memory, m': Memory, r: Ref, v: nat, ks: set<nat>, dir: bool, t: Tree, k: nat, lo: int, hi: int)
    requires Present(m, r) && Rewrites(m, m', r, v, ks) && lo < k < hi
    requires Matches(m, t) && Ordered(t, if dir then k else lo, if dir then hi else k)
    requires forall x :: x in ks ==> Outside(x, if dir then k else lo, if dir then hi else k)
    requires r.ChildRef? ==> Outside(r.key, lo, hi)
    ensures Matches(m', t)
  {
    hide Matches, Ordered, Rewrites;
    MatchesRewrite(m, m', r, v, ks, t, if dir then k else lo, if dir then hi else k);
  }

  // ----- taking a node out: the key at the end of the path replaces it, and
  // the hole is left at the end of the path

  predicate Below(c: Ctx, base: Ctx) {
    c.Frame? && (c.up == base || Below(c.up, base))
  }

  /** The key of the node at `base` on the way down to `c`. */
  function KeyAt(c: Ctx, base: Ctx): nat
    requires Below(c, base)
  {
    if c.up == base then c.key else KeyAt(c.up, base)
  }

  /** That node's place is taken by `m`, in the removed node's colour. */
  function Rename(c: Ctx, base: Ctx, m: nat): Ctx
    requires Below(c, base)
  {
    if c.up == base then c.(key := m) else c.(up := Rename(c.up, base, m))
  }

  /** `c` leads from the left child of the node at `base` down its right spine. */
  predicate LeftSpine(c: Ctx, base: Ctx) {
    c.Frame? && if c.dir then c.up == base else c.up != base && LeftSpine(c.up, base)
  }

  lemma {:induction false} SpineBelow(c: Ctx, base: Ctx)
    requires LeftSpine(c, base)
    ensures Below(c, base)
  {
    if !c.dir { SpineBelow(c.up, base); }
  }

  lemma {:induction false} BelowBounds(c: Ctx, base: Ctx)
    requires Below(c, base) && OrderedCtx(c)
    ensures OrderedCtx(base) && Lo(base) <= Lo(c) && Hi(c) <= Hi(base)
    ensures Lo(base) < KeyAt(c, base) < Hi(base) && Lo(base) < c.key < Hi(base)
    ensures Depth(c) > Depth(base)
  {
    if c.up != base { BelowBounds(c.up, base); }
  }

  lemma {:induction false} RenameRB(c: Ctx, base: Ctx, m: nat, h: int)
    requires Below(c, base) && RBCtx(c, h)
    ensures RBCtx(Rename(c, base, m), h)
    ensures Rename(c, base, m).Frame? && Rename(c, base, m).red == c.red
  {
    if c.up != base { RenameRB(c.up, base, m, if c.red then h else h + 1); }
  }

  lemma {:induction false} RenamePath(c: Ctx, base: Ctx, m: nat)
    requires Below(c, base)
    ensures |PathOf(Rename(c, base, m))| == |PathOf(c)| && Depth(Rename(c, base, m)) == Depth(c)
    ensures forall i :: 0 <= i < |PathOf(c)| ==> PathOf(Rename(c, base, m))[i].dir == PathOf(c)[i].dir
    ensures PathOf(Rename(c, base, m))[0] == PathOf(c)[0]
  {
    PathLength(c.up);
    if c.up != base { RenamePath(c.up, base, m); }
  }

  /** The key `m` at the end of the left spine can stand for the node above it. */
  lemma {:induction false} SpineRename(c: Ctx, base: Ctx, m: nat)
    requires LeftSpine(c, base) && Below(c, base) && OrderedCtx(c) && Lo(c) < m < Hi(c)
    ensures Hi(c) == KeyAt(c, base)
    ensures OrderedCtx(Rename(c, base, m))
    ensures Lo(Rename(c, base, m)) == Lo(c) && Hi(Rename(c, base, m)) == m
    ensures CtxKeys(Rename(c, base, m)) + {KeyAt(c, base)} == CtxKeys(c) + {m}
    ensures KeyAt(c, base) !in CtxKeys(Rename(c, base, m))
  {
    BelowBounds(c, base);
    if c.dir {
      CtxKeysOutside(base);
      KeysInRange(c.sib, c.key, Hi(base));
      OrderedWiden(c.sib, c.key, Hi(base), m, Hi(base));
    } else {
      SpineRename(c.up, base, m);
      KeysInRange(c.sib, Lo(c.up), c.key);
    }
  }

  /** Likewise for the only child of a node that has just a right child. */
  lemma RightChildRename(c: Ctx, m: nat)
    requires c.Frame? && !c.dir && c.sib.Leaf? && OrderedCtx(c) && c.key < m < Hi(c)
    ensures Rename(c, c.up, m) == c.(key := m) && KeyAt(c, c.up) == c.key
    ensures OrderedCtx(Rename(c, c.up, m)) && Lo(Rename(c, c.up, m)) == m
    ensures CtxKeys(Rename(c, c.up, m)) + {c.key} == CtxKeys(c) + {m}
    ensures c.key !in CtxKeys(Rename(c, c.up, m))
  {
    CtxKeysOutside(c.up);
  }

  /** In memory: `x` gets the words of the node it replaces, and the word that
      led to that node now leads to `x`. */
  lemma {:induction false} RenameMatches(m: Memory, m': Memory, c: Ctx, base: Ctx, x: nat, hole: nat)
    requires Below(c, base) && MatchesCtx(m, c, hole) && OrderedCtx(c) && Lo(c) < x < Hi(c)
    requires KeyAt(c, base) in m.nodes && x in m.nodes
    requires Present(m, HoleRef(base)) && Rewrites(m, m', HoleRef(base), x, {x})
    requires m'.nodes[x].left == m.nodes[KeyAt(c, base)].left
    requires m'.nodes[x].right == m.nodes[KeyAt(c, base)].right
    requires m'.nodes[x].red == m.nodes[KeyAt(c, base)].red
    ensures MatchesCtx(m', Rename(c, base, x), hole)
  {
    hide Matches, Ordered, OrderedCtx, Rewrites;
    FrameFacts(m, c, hole);
    BelowBounds(c, base);
    assert base.Frame? ==> Outside(base.key, Lo(base), Hi(base));
    if c.up == base {
      SideKept(m, m', HoleRef(base), x, {x}, c.dir, c.sib, c.key, Lo(base), Hi(base));
      RefocusRewrite(m, m', base, c.key, x, {x});
      RewriteKeeps(m, m', HoleRef(base), x, {x}, x);
    } else {
      BelowBounds(c.up, base);
      SideKept(m, m', HoleRef(base), x, {x}, c.dir, c.sib, c.key, Lo(c.up), Hi(c.up));
      RewriteKeeps(m, m', HoleRef(base), x, {x}, c.key);
      RenameMatches(m, m', c.up, base, x, c.key);
    }
  }

  /** Where the search for a replacement ends: at the node itself, at the last
      key of its left subtree, or at its only, right child. */
  predicate Replacement(c0: Ctx, f0: Tree, c1: Ctx, f1: Tree) {
    && f0.Node? && f1.Node?
    && (|| (c1 == c0 && f1 == f0 && f0.left.Leaf?)
        || (LeftSpine(c1, c0) && Below(c1, c0) && KeyAt(c1, c0) == f0.key)
        || (c1 == Frame(false, f0.key, f0.red, Leaf, c0) && f1 == f0.right && f0.left.Leaf? && f1.left.Leaf? && f1.right.Leaf?))
  }

  lemma SpineStep(c0: Ctx, f0: Tree, c: Ctx, f: Tree)
    requires Replacement(c0, f0, c, f) && f.right.Node?
    requires f0.left.Leaf? && f0.right.Node? ==> f0.right.left.Leaf? && f0.right.right.Leaf?
    ensures Replacement(c0, f0, Descend(c, f, false), f.right)
  {
    if Below(c, c0) { NotBelowSelf(c, c0); }
  }

  /** The surroundings of the hole once the replacement has been spliced in. */
  function Spliced(c0: Ctx, c1: Ctx, f1: Tree): Ctx
    requires f1.Node? && (c1 == c0 || Below(c1, c0))
  {
    if c1 == c0 then c0 else Rename(c1, c0, f1.key)
  }

  lemma {:induction false} NotBelowSelf(c: Ctx, base: Ctx)
    requires Below(c, base)
    ensures Depth(c) > Depth(base)
  {
    if c.up != base { NotBelowSelf(c.up, base); }
  }

  lemma BlackOfDepthOne(t: Tree)
    requires RB(t, 1) && !IsRed(t)
    ensures t.Leaf?
  {
    if t.Node? { RBDepth(t.left, 0); }
  }

  /** A node without a left child has at most a red leaf on its right. */
  lemma LoneRightChild(t: Tree, h: int)
    requires t.Node? && t.left.Leaf? && t.right.Node? && RB(t, h)
    ensures t.right.red && t.right.left.Leaf? && t.right.right.Leaf?
  {
    assert RB(t.left, 1) && RB(t.right, 1);
    if t.right.red {
      BlackOfDepthOne(t.right.left);
      BlackOfDepthOne(t.right.right);
    } else {
      BlackOfDepthOne(t.right);
    }
  }

  lemma SplicedSound(c0: Ctx, f0: Tree, c1: Ctx, f1: Tree, h: int)
    requires Replacement(c0, f0, c1, f1) && f1.right.Leaf?
    requires RB(f1, h) && RBCtx(c1, h) && (IsRed(f1) ==> c1.Frame? && !c1.red)
    ensures var c2 := Spliced(c0, c1, f1);
      if f1.red then RB(f1.left, h) && RBCtx(c2, h) && !IsRed(f1.left)
      else DoubleBlack(c2, f1.left, h - 1)
  {
    if Below(c1, c0) {
      NotBelowSelf(c1, c0);
      RenameRB(c1, c0, f1.key, h);
    }
  }

  lemma SplicedOrdered(c0: Ctx, f0: Tree, c1: Ctx, f1: Tree)
    requires Replacement(c0, f0, c1, f1) && f1.right.Leaf?
    requires OrderedCtx(c1) && Ordered(f1, Lo(c1), Hi(c1))
    ensures var c2 := Spliced(c0, c1, f1);
      && OrderedCtx(c2) && Ordered(f1.left, Lo(c2), Hi(c2))
      && f0.key in CtxKeys(c1) + Keys(f1)
      && CtxKeys(c2) + Keys(f1.left) == CtxKeys(c1) + Keys(f1) - {f0.key}
  {
    KeysInRange(f1.left, Lo(c1), f1.key);
    CtxKeysOutside(c1);
    if Below(c1, c0) { NotBelowSelf(c1, c0); }
    if c1 == c0 {
      assert Keys(f1) == {f1.key};
    } else if LeftSpine(c1, c0) {
      SpineRename(c1, c0, f1.key);
    } else {
      RightChildRename(c1, f1.key);
    }
  }

  lemma ReplacementNode(c0: Ctx, f0: Tree, c: Ctx, f: Tree)
    requires Replacement(c0, f0, c, f)
    ensures f.Node? && (c == c0 || Below(c, c0))
  {}

  /** The path has moved exactly when its last reference is a different place. */
  lemma DistinctHoles(c0: Ctx, f0: Tree, c: Ctx, f: Tree)
    requires Replacement(c0, f0, c, f) && OrderedCtx(c)
    ensures HoleRef(c) != HoleRef(c0) <==> c != c0
    ensures c != c0 ==> Below(c, c0)
  {
    if Below(c, c0) {
      NotBelowSelf(c, c0);
      BelowBounds(c, c0);
      assert c0.Frame? ==> Outside(c0.key, Lo(c0), Hi(c0));
    }
  }

  lemma {:induction false} SpliceFacts(m: Memory, base: Ctx, c: Ctx, hole: nat)
    requires Below(c, base) && MatchesCtx(m, c, hole) && OrderedCtx(c)
    ensures Present(m, HoleRef(base)) && Held(m, HoleRef(base)) == KeyAt(c, base)
    ensures KeyAt(c, base) in m.nodes && KeyAt(c, base) > 0
    ensures KeyAt(c, base) <= Lo(c) || Hi(c) <= KeyAt(c, base)
    ensures base.Frame? ==> base.key != KeyAt(c, base) && (base.key <= Lo(c) || Hi(c) <= base.key)
  {
    BelowBounds(c, base);
    FrameFacts(m, c, hole);
    assert base.Frame? ==> Outside(base.key, Lo(base), Hi(base));
    if c.up == base {
      HoleHolds(m, base, c.key);
    } else {
      SpliceFacts(m, base, c.up, c.key);
    }
  }

  lemma {:induction false} BaseKeys(c: Ctx, base: Ctx)
    requires Below(c, base)
    ensures CtxKeys(base) <= CtxKeys(c)
  {
    if c.up != base { BaseKeys(c.up, base); }
  }

  lemma SpliceTouches(m: Memory, m': Memory, base: Ctx, c: Ctx, f: Tree)
    requires Below(c, base) && f.Node?
    requires Present(m, HoleRef(base)) && Rewrites(m, m', HoleRef(base), f.key, {f.key})
    ensures OnlyTouches(m, m', CtxKeys(c) + Keys(f))
  {
    BaseKeys(c, base);
  }

  // ----- repairing a double black

  /** Red sibling: it moves above the parent, which leaves a black sibling. */
  function SiblingRaised(c: Ctx): Ctx
    requires c.Frame? && c.sib.Node?
  {
    Frame(c.dir, c.key, true, Child(c.dir, c.sib), Frame(c.dir, c.sib.key, false, Child(!c.dir, c.sib), c.up))
  }

  /** A black sibling with a red child on the far side, or else on the near side,
      supplies the missing black node. */
  function NiblingRaised(c: Ctx, f: Tree): Tree
    requires c.Frame? && c.sib.Node?
    requires IsRed(Child(!c.dir, c.sib)) || IsRed(Child(c.dir, c.sib))
  {
    var far, near := Child(!c.dir, c.sib), Child(c.dir, c.sib);
    if IsRed(far) then
      Join(c.dir, c.sib.key, c.red, Join(c.dir, c.key, false, f, near), Blacken(far))
    else
      Join(c.dir, near.key, c.red,
           Join(c.dir, c.key, false, f, Child(c.dir, near)),
           Join(c.dir, c.sib.key, false, Child(!c.dir, near), far))
  }

  /** All black below: the sibling turns red and the parent black. */
  function SiblingReddened(c: Ctx, f: Tree): Tree
    requires c.Frame? && c.sib.Node?
  {
    Join(c.dir, c.key, false, f, c.sib.(red := true))
  }

  /** The focus is one black node short. */
  ghost predicate DoubleBlack(c: Ctx, f: Tree, h: int) {
    RB(f, h) && RBCtx(c, h + 1) && (c.Top? ==> !IsRed(f))
  }

  lemma SiblingExists(c: Ctx, f: Tree, h: int)
    requires DoubleBlack(c, f, h) && c.Frame?
    ensures c.sib.Node?
    ensures c.red ==> !c.sib.red
    ensures c.sib.red ==> Child(c.dir, c.sib).Node? && Child(!c.dir, c.sib).Node?
  {
    RBDepth(f, h);
    if c.sib.Node? && c.sib.red {
      assert RB(c.sib.left, h + 1) && RB(c.sib.right, h + 1);
    }
  }

  lemma SiblingRaisedSound(c: Ctx, f: Tree, h: int)
    requires DoubleBlack(c, f, h) && c.Frame? && c.sib.Node? && c.sib.red
    ensures DoubleBlack(SiblingRaised(c), f, h)
    ensures CtxKeys(SiblingRaised(c)) == CtxKeys(c)
    ensures OrderedCtx(c) ==>
      OrderedCtx(SiblingRaised(c)) && Lo(SiblingRaised(c)) == Lo(c) && Hi(SiblingRaised(c)) == Hi(c)
  {
    var s := SiblingRaised(c);
    assert CtxKeys(s) == CtxKeys(s.up) + {c.key} + Keys(s.sib);
    assert CtxKeys(s.up) == CtxKeys(c.up) + {c.sib.key} + Keys(s.up.sib);
    assert Keys(c.sib) == Keys(s.sib) + {c.sib.key} + Keys(s.up.sib);
  }

  lemma SiblingRaisedTop(c: Ctx)
    requires c.Frame? && c.sib.Node?
    ensures TopRed(SiblingRaised(c))
  {}

  lemma RootIsTop(c: Ctx, h: int)
    requires c.Top?
    ensures RBCtx(c, h)
  {}

  lemma NiblingRaisedSound(c: Ctx, f: Tree, h: int)
    requires DoubleBlack(c, f, h) && c.Frame? && c.sib.Node? && !c.sib.red
    requires IsRed(Child(!c.dir, c.sib)) || IsRed(Child(c.dir, c.sib))
    ensures var t := NiblingRaised(c, f);
      && RB(t, if c.red then h + 1 else h + 2)
      && RBCtx(c.up, if c.red then h + 1 else h + 2)
      && (IsRed(t) ==> c.up.Frame? && !c.up.red)
  {
    var far, near := Child(!c.dir, c.sib), Child(c.dir, c.sib);
    assert RB(near, h) && RB(far, h);
    if IsRed(far) {
      BlackenDeepens(far, h);
      assert RB(Join(c.dir, c.key, false, f, near), h + 1);
    } else {
      assert RB(near.left, h) && RB(near.right, h);
      assert RB(Join(c.dir, c.key, false, f, Child(c.dir, near)), h + 1);
      assert RB(Join(c.dir, c.sib.key, false, Child(!c.dir, near), far), h + 1);
    }
  }

  lemma NiblingRaisedKeys(c: Ctx, f: Tree)
    requires c.Frame? && c.sib.Node?
    requires IsRed(Child(!c.dir, c.sib)) || IsRed(Child(c.dir, c.sib))
    ensures CtxKeys(c.up) + Keys(NiblingRaised(c, f)) == CtxKeys(c) + Keys(f)
  {
    var far, near := Child(!c.dir, c.sib), Child(c.dir, c.sib);
    assert Keys(c.sib) == Keys(near) + {c.sib.key} + Keys(far);
    if IsRed(far) {
      assert Keys(Blacken(far)) == Keys(far);
      var p := Join(c.dir, c.key, false, f, near);
      assert Keys(p) == Keys(f) + {c.key} + Keys(near);
      assert Keys(NiblingRaised(c, f)) == Keys(p) + {c.sib.key} + Keys(Blacken(far));
    } else {
      assert Keys(near) == Keys(Child(c.dir, near)) + {near.key} + Keys(Child(!c.dir, near));
      var p := Join(c.dir, c.key, false, f, Child(c.dir, near));
      var s := Join(c.dir, c.sib.key, false, Child(!c.dir, near), far);
      assert Keys(p) == Keys(f) + {c.key} + Keys(Child(c.dir, near));
      assert Keys(s) == Keys(Child(!c.dir, near)) + {c.sib.key} + Keys(far);
      assert Keys(NiblingRaised(c, f)) == Keys(p) + {near.key} + Keys(s);
    }
  }

  lemma NiblingRaisedOrdered(c: Ctx, f: Tree)
    requires c.Frame? && c.sib.Node?
    requires IsRed(Child(!c.dir, c.sib)) || IsRed(Child(c.dir, c.sib))
    requires OrderedCtx(c) && Ordered(f, Lo(c), Hi(c))
    ensures Ordered(NiblingRaised(c, f), Lo(c.up), Hi(c.up))
  {
    var far, near := Child(!c.dir, c.sib), Child(c.dir, c.sib);
    if c.dir {
      assert Ordered(near, c.key, c.sib.key) && Ordered(far, c.sib.key, Hi(c.up));
      if IsRed(far) {
        assert Ordered(Node(f, c.key, false, near), Lo(c.up), c.sib.key);
        assert Ordered(Blacken(far), c.sib.key, Hi(c.up));
      } else {
        assert Ordered(near.left, c.key, near.key) && Ordered(near.right, near.key, c.sib.key);
        assert Ordered(Node(f, c.key, false, near.left), Lo(c.up), near.key);
        assert Ordered(Node(near.right, c.sib.key, false, far), near.key, Hi(c.up));
      }
    } else {
      assert Ordered(near, c.sib.key, c.key) && Ordered(far, Lo(c.up), c.sib.key);
      if IsRed(far) {
        assert Ordered(Node(near, c.key, false, f), c.sib.key, Hi(c.up));
        assert Ordered(Blacken(far), Lo(c.up), c.sib.key);
      } else {
        assert Ordered(near.left, c.sib.key, near.key) && Ordered(near.right, near.key, c.key);
        assert Ordered(Node(near.right, c.key, false, f), near.key, Hi(c.up));
        assert Ordered(Node(far, c.sib.key, false, near.left), Lo(c.up), near.key);
      }
    }
  }

  lemma SiblingReddenedSound(c: Ctx, f: Tree, h: int)
    requires DoubleBlack(c, f, h) && c.Frame? && c.sib.Node? && !c.sib.red
    requires !IsRed(Child(!c.dir, c.sib)) && !IsRed(Child(c.dir, c.sib))
    ensures var t := SiblingReddened(c, f);
      RB(t, h + 1) && !IsRed(t) && RBCtx(c.up, if c.red then h + 1 else h + 2)
    ensures CtxKeys(c.up) + Keys(SiblingReddened(c, f)) == CtxKeys(c) + Keys(f)
    ensures OrderedCtx(c) && Ordered(f, Lo(c), Hi(c)) ==> Ordered(SiblingReddened(c, f), Lo(c.up), Hi(c.up))
  {
    assert Keys(c.sib.(red := true)) == Keys(c.sib);
    assert Keys(SiblingReddened(c, f)) == Keys(f) + {c.key} + Keys(c.sib.(red := true));
  }

  // ----- the same repairs in memory

  /** Facts about the parent, the sibling and what hangs below them. */
  lemma SiblingFacts(m: Memory, c: Ctx, f: Tree)
    requires Split(m, c, f) && c.Frame? && c.sib.Node?
    ensures Present(m, HoleRef(c.up)) && Held(m, HoleRef(c.up)) == c.key
    ensures NodeIs(m, c.key, c.dir, RootKey(f), c.sib.key, c.red)
    ensures NodeIs(m, c.sib.key, c.dir, RootKey(Child(c.dir, c.sib)), RootKey(Child(!c.dir, c.sib)), c.sib.red)
    ensures c.key > 0 && c.sib.key > 0 && c.key != c.sib.key
    ensures c.up.Frame? ==> c.up.key != c.key && c.up.key != c.sib.key
    ensures forall dir :: Child(dir, c.sib).Node? ==>
      var n := Child(dir, c.sib);
      && NodeIs(m, n.key, c.dir, RootKey(Child(c.dir, n)), RootKey(Child(!c.dir, n)), n.red)
      && n.key > 0 && n.key != c.key && n.key != c.sib.key && (c.up.Frame? ==> c.up.key != n.key)
  {
    FrameFacts(m, c, RootKey(f));
    if c.dir { NodeFacts(m, c.sib, c.dir, c.key, Hi(c.up)); } else { NodeFacts(m, c.sib, c.dir, Lo(c.up), c.key); }
    forall dir | Child(dir, c.sib).Node?
      ensures var n := Child(dir, c.sib);
        && NodeIs(m, n.key, c.dir, RootKey(Child(c.dir, n)), RootKey(Child(!c.dir, n)), n.red)
        && n.key > 0 && n.key != c.key && n.key != c.sib.key && (c.up.Frame? ==> c.up.key != n.key)
    {
      var n := Child(dir, c.sib);
      if c.dir {
        NodeFacts(m, n, c.dir, if dir then c.key else c.sib.key, if dir then c.sib.key else Hi(c.up));
      } else {
        NodeFacts(m, n, c.dir, if dir then Lo(c.up) else c.sib.key, if dir then c.sib.key else c.key);
      }
    }
  }

  lemma SplitUp(m: Memory, c: Ctx, f: Tree)
    requires Split(m, c, f) && c.Frame?
    ensures OrderedCtx(c.up)
  {}

  /** Rewriting the parent, the sibling and possibly one nibling keeps the rest. */
  lemma AroundKept(m: Memory, m': Memory, c: Ctx, f: Tree, v: nat, ks: set<nat>)
    requires Split(m, c, f) && c.Frame? && c.sib.Node?
    requires Present(m, HoleRef(c.up)) && Rewrites(m, m', HoleRef(c.up), v, ks)
    requires forall k :: k in ks ==> k == c.key || k in Keys(c.sib)
    ensures Matches(m', f) && MatchesCtx(m', c.up, v)
    ensures OnlyTouches(m, m', CtxKeys(c) + Keys(f))
  {
    FrameFacts(m, c, RootKey(f));
    if c.dir {
      KeysInRange(c.sib, c.key, Hi(c.up));
    } else {
      KeysInRange(c.sib, Lo(c.up), c.key);
    }
    MatchesRewrite(m, m', HoleRef(c.up), v, ks, f, Lo(c), Hi(c));
    RefocusRewrite(m, m', c.up, c.key, v, ks);
    RewriteTouches(m, m', c.up, c.key, v, ks);
    assert CtxKeys(c) == CtxKeys(c.up) + {c.key} + Keys(c.sib);
    TouchesMore(m, m', CtxKeys(c.up) + ks, CtxKeys(c) + Keys(f));
  }

  /** A child of the sibling is kept if neither it nor anything below it is rewritten. */
  lemma NiblingKept(m: Memory, m': Memory, c: Ctx, f: Tree, v: nat, ks: set<nat>, dir: bool)
    requires Split(m, c, f) && c.Frame? && c.sib.Node?
    requires Present(m, HoleRef(c.up)) && Rewrites(m, m', HoleRef(c.up), v, ks)
    requires var o := Child(!dir, c.sib); forall k :: k in ks ==> k == c.key || k == c.sib.key || (o.Node? && k == o.key)
    ensures Matches(m', Child(dir, c.sib))
  {
    FrameFacts(m, c, RootKey(f));
    var n, o, s := Child(dir, c.sib), Child(!dir, c.sib), c.sib.key;
    var lo: int, hi: int := if c.dir then c.key else Lo(c.up), if c.dir then Hi(c.up) else c.key;
    NodeFacts(m, c.sib, dir, lo, hi);
    if o.Node? { NodeFacts(m, o, dir, if dir then s else lo, if dir then hi else s); }
    MatchesRewrite(m, m', HoleRef(c.up), v, ks, n, if dir then lo else s, if dir then s else hi);
  }

  /** The subtrees of the red nibling are kept. */
  lemma BelowNiblingKept(m: Memory, m': Memory, c: Ctx, f: Tree, v: nat, dir: bool)
    requires Split(m, c, f) && c.Frame? && c.sib.Node? && Child(dir, c.sib).Node?
    requires Present(m, HoleRef(c.up)) && Rewrites(m, m', HoleRef(c.up), v, {c.key, c.sib.key, Child(dir, c.sib).key})
    ensures Matches(m', Child(dir, c.sib).left) && Matches(m', Child(dir, c.sib).right)
  {
    hide Matches, MatchesCtx, Ordered, OrderedCtx, Rewrites, NodeIs;
    FrameFacts(m, c, RootKey(f));
    var n, s := Child(dir, c.sib), c.sib.key;
    var ks := {c.key, s, n.key};
    var lo: int, hi: int := if c.dir then c.key else Lo(c.up), if c.dir then Hi(c.up) else c.key;
    NodeFacts(m, c.sib, dir, lo, hi);
    var nlo, nhi := if dir then lo else s, if dir then s else hi;
    NodeFacts(m, n, true, nlo, nhi);
    MatchesRewrite(m, m', HoleRef(c.up), v, ks, n.left, nlo, n.key);
    MatchesRewrite(m, m', HoleRef(c.up), v, ks, n.right, n.key, nhi);
  }

  lemma SiblingRaisedMatches(m: Memory, m': Memory, c: Ctx, f: Tree)
    requires Split(m, c, f) && c.Frame? && c.sib.Node?
    requires Present(m, HoleRef(c.up)) && Rewrites(m, m', HoleRef(c.up), c.sib.key, {c.key, c.sib.key})
    requires NodeIs(m', c.key, c.dir, RootKey(f), RootKey(Child(c.dir, c.sib)), true)
    requires NodeIs(m', c.sib.key, c.dir, c.key, RootKey(Child(!c.dir, c.sib)), false)
    ensures Matches(m', f) && MatchesCtx(m', SiblingRaised(c), RootKey(f))
    ensures OnlyTouches(m, m', CtxKeys(c) + Keys(f))
  {
    AroundKept(m, m', c, f, c.sib.key, {c.key, c.sib.key});
    NiblingKept(m, m', c, f, c.sib.key, {c.key, c.sib.key}, true);
    NiblingKept(m, m', c, f, c.sib.key, {c.key, c.sib.key}, false);
    assert MatchesCtx(m', SiblingRaised(c).up, c.key);
  }

  lemma FarNiblingRaisedMatches(m: Memory, m': Memory, c: Ctx, f: Tree)
    requires Split(m, c, f) && c.Frame? && c.sib.Node? && IsRed(Child(!c.dir, c.sib))
    requires var far, near := Child(!c.dir, c.sib), Child(c.dir, c.sib);
      && Present(m, HoleRef(c.up)) && Rewrites(m, m', HoleRef(c.up), c.sib.key, {c.key, c.sib.key, far.key})
      && far.key in m.nodes && m'.nodes[far.key] == m.nodes[far.key].(red := false)
      && NodeIs(m', c.sib.key, c.dir, c.key, far.key, c.red)
      && NodeIs(m', c.key, c.dir, RootKey(f), RootKey(near), false)
    ensures Matches(m', NiblingRaised(c, f)) && MatchesCtx(m', c.up, RootKey(NiblingRaised(c, f)))
    ensures OnlyTouches(m, m', CtxKeys(c) + Keys(f))
  {
    var far, near := Child(!c.dir, c.sib), Child(c.dir, c.sib);
    AroundKept(m, m', c, f, c.sib.key, {c.key, c.sib.key, far.key});
    NiblingKept(m, m', c, f, c.sib.key, {c.key, c.sib.key, far.key}, c.dir);
    BelowNiblingKept(m, m', c, f, c.sib.key, !c.dir);
    SiblingFacts(m, c, f);
    JoinMatches(m', true, far.key, false, far.left, far.right);
    JoinMatches(m', c.dir, c.key, false, f, near);
    JoinMatches(m', c.dir, c.sib.key, c.red, Join(c.dir, c.key, false, f, near), Blacken(far));
  }

  lemma NearNiblingRaisedMatches(m: Memory, m': Memory, c: Ctx, f: Tree)
    requires Split(m, c, f) && c.Frame? && c.sib.Node? && !IsRed(Child(!c.dir, c.sib)) && IsRed(Child(c.dir, c.sib))
    requires var far, near := Child(!c.dir, c.sib), Child(c.dir, c.sib);
      && Present(m, HoleRef(c.up)) && Rewrites(m, m', HoleRef(c.up), near.key, {c.key, c.sib.key, near.key})
      && NodeIs(m', near.key, c.dir, c.key, c.sib.key, c.red)
      && NodeIs(m', c.key, c.dir, RootKey(f), RootKey(Child(c.dir, near)), false)
      && NodeIs(m', c.sib.key, c.dir, RootKey(Child(!c.dir, near)), RootKey(far), false)
    ensures Matches(m', NiblingRaised(c, f)) && MatchesCtx(m', c.up, RootKey(NiblingRaised(c, f)))
    ensures OnlyTouches(m, m', CtxKeys(c) + Keys(f))
  {
    var far, near := Child(!c.dir, c.sib), Child(c.dir, c.sib);
    AroundKept(m, m', c, f, near.key, {c.key, c.sib.key, near.key});
    NiblingKept(m, m', c, f, near.key, {c.key, c.sib.key, near.key}, !c.dir);
    BelowNiblingKept(m, m', c, f, near.key, c.dir);
    JoinMatches(m', c.dir, c.key, false, f, Child(c.dir, near));
    JoinMatches(m', c.dir, c.sib.key, false, Child(!c.dir, near), far);
    JoinMatches(m', c.dir, near.key, c.red,
                Join(c.dir, c.key, false, f, Child(c.dir, near)),
                Join(c.dir, c.sib.key, false, Child(!c.dir, near), far));
  }

  lemma SiblingReddenedMatches(m: Memory, m': Memory, c: Ctx, f: Tree)
    requires Split(m, c, f) && c.Frame? && c.sib.Node?
    requires Present(m, HoleRef(c.up)) && Rewrites(m, m', HoleRef(c.up), c.key, {c.key, c.sib.key})
    requires NodeIs(m', c.key, c.dir, RootKey(f), c.sib.key, false)
    requires NodeIs(m', c.sib.key, c.dir, RootKey(Child(c.dir, c.sib)), RootKey(Child(!c.dir, c.sib)), true)
    ensures Matches(m', SiblingReddened(c, f)) && MatchesCtx(m', c.up, c.key)
    ensures OnlyTouches(m, m', CtxKeys(c) + Keys(f))
  {
    AroundKept(m, m', c, f, c.key, {c.key, c.sib.key});
    NiblingKept(m, m', c, f, c.key, {c.key, c.sib.key}, true);
    NiblingKept(m, m', c, f, c.key, {c.key, c.sib.key}, false);
    JoinMatches(m', c.dir, c.sib.key, true, Child(c.dir, c.sib), Child(!c.dir, c.sib));
    JoinMatches(m', c.dir, c.key, false, f, c.sib.(red := true));
  }
}
