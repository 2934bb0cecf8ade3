/** `RBTree`: insertion and removal in place, along an explicit path of
    references instead of parent pointers. */
module RBTree {
  import opened Bits
  import W = ChunkWord
  import opened RBSpec
  import opened RBHeap
  import opened RBSteps

  /** The path buffer holds this many steps. */
  const PATH_CAPACITY: nat := 128

  /** The most keys a tree may hold while operations run on it. */
  const MAX_KEYS: nat := 0x4000_0000_0000_0000

  class RBPath {
    const path: array<Step>
    var length: nat

    ghost predicate Holds(c: Ctx)
      reads this, path
    {
      && path.Length == PATH_CAPACITY
      && length == Depth(c) + 1 <= PATH_CAPACITY
      && path[..length] == PathOf(c)
    }

    constructor ()
      ensures Holds(Top) && fresh(path)
    {
      path := new Step[PATH_CAPACITY](_ => Step(RootRef, false));
      length := 1;
    }

    function Ith(n: nat): Ref
      requires n < length <= path.Length
      reads this, path
    {
      path[length - n - 1].ref
    }

    function IthDir(n: nat): bool
      requires n < length <= path.Length
      reads this, path
    {
      path[length - n - 1].dir
    }

    lemma AtHole(c: Ctx)
      requires Holds(c)
      ensures length >= 1 && Ith(0) == HoleRef(c)
      ensures c.Frame? ==> length >= 2 && IthDir(0) == c.dir && Ith(1) == HoleRef(c.up)
      ensures c.Frame? && c.up.Frame? ==>
        length >= 3 && IthDir(1) == c.up.dir && Ith(2) == HoleRef(c.up.up)
    {
      PathLength(c);
      assert path[length - 1] == path[..length][length - 1];
      if c.Frame? {
        PathLength(c.up);
        assert path[length - 2] == path[..length][length - 2];
        if c.up.Frame? {
          PathLength(c.up.up);
          assert path[length - 3] == path[..length][length - 3];
        }
      }
    }

    method Pop(ghost c: Ctx)
      requires Holds(c) && c.Frame?
      modifies this
      ensures Holds(c.up) && length == old(length) - 1
    {
      length := length - 1;
      PathLength(c.up);
      assert path[..length] == PathOf(c)[..length] == PathOf(c.up);
    }

    method Push(dir: bool, k: nat, ghost c: Ctx, ghost red: bool, ghost sib: Tree)
      requires Holds(c) && length < PATH_CAPACITY
      modifies this, path
      ensures Holds(Frame(dir, k, red, sib, c)) && length == old(length) + 1
    {
      path[length] := Step(ChildRef(dir, k), dir);
      length := length + 1;
      assert path[..length] == path[..length - 1] + [path[length - 1]];
    }
  }

  class RBTree {
    /** The root word and the pagemap entries. */
    var store: Store
    ghost var tree: Tree

    ghost function Mem(): Memory
      reads this`store
    {
      View(store)
    }

    /** The checks of `RBTree::invariant` together with a black root, on the
        tree that memory holds. */
    ghost predicate Valid()
      reads this
    {
      && Matches(Mem(), tree)
      && Mem().root == RootKey(tree)
      && Ordered(tree, 0, LIMIT)
      && WellFormed(tree)
    }

    ghost function Contents(): set<nat>
      reads this
    {
      Keys(tree)
    }

    function Get(r: Ref): (v: nat)
      requires Present(Mem(), r)
      reads this`store
      ensures v == Held(Mem(), r) && W.Clean(v)
    {
      CleanParts(store);
      match r
      case RootRef => W.Address(store.root)
      case ChildRef(dir, k) => W.Address(if dir then store.entries[k].one else store.entries[k].two)
    }

    /** A child word; those of the null node read as null. */
    function ChildOf(dir: bool, k: nat): (v: nat)
      requires k == 0 || k in Mem().nodes
      reads this`store
      ensures W.Clean(v) && v == if k == 0 then 0 else ChildWord(Mem().nodes[k], dir)
    {
      CleanParts(store);
      if k == 0 then 0 else W.Address(if dir then store.entries[k].one else store.entries[k].two)
    }

    /** The null node is black. */
    function RedAt(k: nat): (red: bool)
      requires k == 0 || k in Mem().nodes
      reads this`store
      ensures red == (k != 0 && Mem().nodes[k].red)
    {
      k != 0 && W.IsRed(store.entries[k].one)
    }

    method Put(r: Ref, v: nat)
      requires Present(Mem(), r) && W.Clean(v)
      modifies this`store
      ensures Mem() == SetRef(old(Mem()), r, v)
    {
      ViewPutRef(store, r, v);
      store := PutRef(store, r, v);
    }

    method Paint(k: nat, red: bool)
      requires k in Mem().nodes
      modifies this`store
      ensures Mem() == SetRed(old(Mem()), k, red)
    {
      ViewPutRed(store, k, red);
      store := PutRed(store, k, red);
    }

    static lemma ZeroClean()
      ensures W.Clean(0)
    {}

    lemma KeyClean(k: nat)
      requires k in Mem().nodes
      ensures W.Clean(k)
    {}

    /** In words: foreign entries stay bit for bit, and no decommitted flag changes. */
    twostate lemma WordsKept(touched: set<nat>)
      requires OnlyTouches(old(Mem()), Mem(), touched)
      ensures KeepsWords(old(store), store, touched)
    {
      TouchesWords(old(store), store, touched);
    }

    /** A valid tree, split anywhere. */
    lemma OpenAt(c: Ctx, t: Tree)
      requires Valid() && tree == Plug(c, t)
      ensures Split(Mem(), c, t)
      ensures RB(t, BlackDepth(t)) && RBCtx(c, BlackDepth(t)) && (IsRed(t) ==> c.Frame? && !c.red)
      ensures Contents() == CtxKeys(c) + Keys(t)
      ensures t.Leaf? ==> Contents() == CtxKeys(c) && BlackDepth(t) == 1
    {
      hide Mem, Get, ChildOf, RedAt, W.Clean;
      UnplugMatches(Mem(), c, t);
      UnplugRB(c, t);
      PlugOrdered(c, t);
      PlugKeys(c, t);
    }

    /** The repaired pieces make a valid tree again. */
    ghost method Settle(c: Ctx, f: Tree, h: int)
      requires Split(Mem(), c, f) && RB(f, h) && RBCtx(c, h) && (IsRed(f) ==> c.Frame? && !c.red)
      modifies this`tree
      ensures Valid() && Contents() == CtxKeys(c) + Keys(f)
    {
      hide Mem, Get, ChildOf, RedAt, W.Clean;
      PlugMatches(Mem(), c, f);
      PlugOrdered(c, f);
      PlugRB(c, f, h);
      PlugKeys(c, f);
      tree := Plug(c, f);
    }

    /** Double red, both on side `dir`: `p` takes the place of `g`. */
    method RaiseParent(r: Ref, dir: bool, n: nat, p: nat, g: nat, ghost s: nat, ghost a: nat)
      requires n in Mem().nodes && NodeIs(Mem(), p, dir, n, s, true) && NodeIs(Mem(), g, dir, p, a, false)
      requires n != p && p != g && n != g && p != 0
      requires Present(Mem(), r) && (r.ChildRef? ==> r.key != n && r.key != p && r.key != g)
      modifies this`store
      ensures Rewrites(old(Mem()), Mem(), r, p, {n, p, g})
      ensures Mem().nodes[n] == old(Mem()).nodes[n].(red := false)
      ensures NodeIs(Mem(), p, dir, n, g, true) && NodeIs(Mem(), g, dir, s, a, false)
    {
      hide Mem, Get, ChildOf, RedAt, W.Clean, Rewrites, OnlyTouches;
      var sibling := ChildOf(!dir, p);
      KeyClean(p);
      Paint(n, false);
      RecolourTouches(old(Mem()), n, false);
      ghost var m := Mem();
      Relink(dir, p, g, sibling);
      TouchKeeps(m, Mem(), {p, g}, n);
      TouchesChain(old(Mem()), m, Mem(), {n}, {p, g}, {n, p, g});
      TouchKeepsPresent(old(Mem()), Mem(), {n, p, g}, r);
      TouchThenWrite(old(Mem()), Mem(), r, p, {n, p, g});
      Put(r, p);
    }

    /** `g` takes `sibling` for its child, and `p` takes `g`. */
    method Relink(dir: bool, p: nat, g: nat, sibling: nat)
      requires p in Mem().nodes && g in Mem().nodes && p != g && W.Clean(sibling)
      modifies this`store
      ensures Mem().root == old(Mem()).root && OnlyTouches(old(Mem()), Mem(), {p, g})
      ensures NodeIs(Mem(), p, dir, ChildWord(old(Mem()).nodes[p], dir), g, old(Mem()).nodes[p].red)
      ensures NodeIs(Mem(), g, dir, sibling, ChildWord(old(Mem()).nodes[g], !dir), old(Mem()).nodes[g].red)
    {
      hide Mem, Get, ChildOf, RedAt, W.Clean;
      KeyClean(g);
      Put(ChildRef(dir, g), sibling);
      Put(ChildRef(!dir, p), g);
    }

    /** Double red, crossed: `n` takes the place of `g`. */
    method RaiseCurrent(r: Ref, dir: bool, n: nat, p: nat, g: nat, ghost ng: nat, ghost np: nat, ghost b: nat, ghost a: nat)
      requires NodeIs(Mem(), n, dir, ng, np, true) && NodeIs(Mem(), p, dir, n, b, true) && NodeIs(Mem(), g, !dir, p, a, false)
      requires n != p && p != g && n != g && n != 0
      requires Present(Mem(), r) && (r.ChildRef? ==> r.key != n && r.key != p && r.key != g)
      modifies this`store
      ensures Rewrites(old(Mem()), Mem(), r, n, {n, p, g})
      ensures NodeIs(Mem(), n, dir, g, p, true) && NodeIs(Mem(), p, dir, np, b, false) && NodeIs(Mem(), g, !dir, ng, a, false)
    {
      hide Mem, Get, ChildOf, RedAt, W.Clean, Rewrites, OnlyTouches;
      var childG := ChildOf(dir, n);
      var childP := ChildOf(!dir, n);
      KeyClean(n);
      Paint(p, false);
      RecolourTouches(old(Mem()), p, false);
      ghost var m := Mem();
      Put(r, n);
      TouchThenWrite(old(Mem()), m, r, n, {p});
      ghost var m1 := Mem();
      SpreadChildren(dir, n, p, g, childP, childG);
      RewriteThenTouch(old(Mem()), m1, Mem(), r, n, {p}, {n, p, g});
      assert {p} + {n, p, g} == {n, p, g};
    }

    /** `n` takes both its parents as children and leaves them its own. */
    method SpreadChildren(dir: bool, n: nat, p: nat, g: nat, childP: nat, childG: nat)
      requires n in Mem().nodes && p in Mem().nodes && g in Mem().nodes && n != p && p != g && n != g
      requires W.Clean(childP) && W.Clean(childG)
      modifies this`store
      ensures Mem().root == old(Mem()).root && OnlyTouches(old(Mem()), Mem(), {n, p, g})
      ensures NodeIs(Mem(), n, dir, g, p, old(Mem()).nodes[n].red)
      ensures NodeIs(Mem(), p, dir, childP, ChildWord(old(Mem()).nodes[p], !dir), old(Mem()).nodes[p].red)
      ensures NodeIs(Mem(), g, !dir, childG, ChildWord(old(Mem()).nodes[g], dir), old(Mem()).nodes[g].red)
    {
      hide Mem, Get, ChildOf, RedAt, W.Clean;
      KeyClean(g);
      KeyClean(p);
      Put(ChildRef(dir, n), g);
      Put(ChildRef(!dir, n), p);
      Put(ChildRef(dir, p), childP);
      Put(ChildRef(!dir, g), childG);
    }

    /** One double-red repair. */
    method LiftDoubleRed(path: RBPath, ghost c: Ctx, ghost f: Tree)
      requires path.Holds(c)
      requires Split(Mem(), c, f) && DoubleRed(c) && IsRed(f)
      modifies this`store
      ensures Split(Mem(), c.up.up, Lifted(c, f))
      ensures OnlyTouches(old(Mem()), Mem(), CtxKeys(c) + Keys(f))
    {
      hide Mem, Get, ChildOf, RedAt, W.Clean;
      hide Matches, MatchesCtx, Ordered, OrderedCtx, Keys, CtxKeys;
      path.AtHole(c);
      ghost var up := c.up.up;
      FrameFacts(Mem(), c, RootKey(f));
      FrameFacts(Mem(), c.up, c.key);
      NodeFacts(Mem(), f, c.dir, Lo(c), Hi(c));
      var currDir := path.IthDir(0);
      var curr := Get(path.Ith(0));
      var parent := Get(path.Ith(1));
      var grandParent := Get(path.Ith(2));
      if path.IthDir(1) == currDir {
        RaiseParent(path.Ith(2), currDir, curr, parent, grandParent, RootKey(c.sib), RootKey(c.up.sib));
        RaisedParentMatches(old(Mem()), Mem(), c, f);
      } else {
        RaiseCurrent(path.Ith(2), currDir, curr, parent, grandParent,
                     RootKey(Child(currDir, f)), RootKey(Child(!currDir, f)), RootKey(c.sib), RootKey(c.up.sib));
        RaisedCurrentMatches(old(Mem()), Mem(), c, f);
      }
      LiftedOrdered(c, f);
      RewriteTouches(old(Mem()), Mem(), up, c.up.key, RootKey(Lifted(c, f)), {f.key, c.key, c.up.key});
      LiftedKeys(c, f);
      TouchesMore(old(Mem()), Mem(), CtxKeys(up) + {f.key, c.key, c.up.key}, CtxKeys(c) + Keys(f));
    }

    method PlaceRedLeaf(r: Ref, value: nat, ghost c: Ctx)
      requires MatchesCtx(Mem(), c, 0) && OrderedCtx(c) && r == HoleRef(c)
      requires Lo(c) < value < Hi(c) && value in Mem().nodes
      modifies this`store
      ensures Split(Mem(), c, Node(Leaf, value, true, Leaf))
      ensures OnlyTouches(old(Mem()), Mem(), CtxKeys(c) + {value})
    {
      hide Mem, Get, ChildOf, RedAt, W.Clean, MatchesCtx, OrderedCtx, Matches, Ordered, Rewrites, OnlyTouches, CtxKeys;
      HolePresent(Mem(), c, 0);
      KeyClean(value);
      ZeroClean();
      OutsideHole(c, value);
      Put(r, value);
      ghost var m := Mem();
      WriteAlone(old(Mem()), r, value);
      ClearChildren(value);
      RewriteThenTouch(old(Mem()), m, Mem(), r, value, {}, {value});
      assert {} + {value} == {value};
      RefocusRewrite(old(Mem()), Mem(), c, 0, value, {value});
      RewriteTouches(old(Mem()), Mem(), c, 0, value, {value});
      RedLeafAt(Mem(), c, value);
    }

    /** The words of a new leaf. */
    method ClearChildren(value: nat)
      requires value in Mem().nodes
      modifies this`store
      ensures Mem().root == old(Mem()).root && OnlyTouches(old(Mem()), Mem(), {value}) && NodeIs(Mem(), value, true, 0, 0, true)
    {
      hide Mem, Get, ChildOf, RedAt, W.Clean;
      ZeroClean();
      Put(ChildRef(true, value), 0);
      Put(ChildRef(false, value), 0);
      Paint(value, true);
    }

    method BlackenRoot(ghost f: Tree)
      requires Split(Mem(), Top, f) && f.Node?
      modifies this`store
      ensures Split(Mem(), Top, Blacken(f)) && Keys(Blacken(f)) == Keys(f)
      ensures OnlyTouches(old(Mem()), Mem(), Keys(f))
    {
      hide Mem, Get, ChildOf, RedAt, W.Clean;
      Paint(Get(RootRef), false);
      assert Rewrites(old(Mem()), Mem(), RootRef, f.key, {f.key});
      MatchesRewrite(old(Mem()), Mem(), RootRef, f.key, {f.key}, f.left, 0, f.key);
      MatchesRewrite(old(Mem()), Mem(), RootRef, f.key, {f.key}, f.right, f.key, LIMIT);
    }

    /** A red tree at the root is turned black. */
    method SettleRoot(ghost f: Tree, ghost h: int)
      requires Split(Mem(), Top, f) && IsRed(f) && RB(f, h)
      modifies this
      ensures Valid() && Contents() == CtxKeys(Top) + Keys(f)
      ensures OnlyTouches(old(Mem()), Mem(), Keys(f))
    {
      hide Mem, Get, ChildOf, RedAt, W.Clean, Keys, RB, RBCtx, OnlyTouches, Matches, Ordered;
      BlackenRoot(f);
      BlackenDeepens(f, h);
      RootIsTop(Top, h + 1);
      Settle(Top, Blacken(f), h + 1);
    }

    /** One turn of the repair: rotate, then go on two levels up. */
    method Ascend(path: RBPath, ghost c: Ctx, ghost f: Tree, ghost h: int)
      requires path.Holds(c) && Split(Mem(), c, f) && DoubleRed(c) && IsRed(f) && RB(f, h) && RBCtx(c, h)
      modifies this`store, path
      ensures path.Holds(c.up.up) && 1 <= path.length < old(path.length) && path.Ith(0) == HoleRef(c.up.up)
      ensures Split(Mem(), c.up.up, Lifted(c, f))
      ensures IsRed(Lifted(c, f)) && RB(Lifted(c, f), h + 1) && RBCtx(c.up.up, h + 1)
      ensures CtxKeys(c.up.up) + Keys(Lifted(c, f)) == CtxKeys(c) + Keys(f)
      ensures OnlyTouches(old(Mem()), Mem(), CtxKeys(c) + Keys(f))
    {
      hide Mem, Get, ChildOf, RedAt, W.Clean;
      hide Matches, MatchesCtx, Ordered, OrderedCtx, RB, RBCtx, Keys, CtxKeys, PathOf, Depth, Lifted, OnlyTouches;
      LiftDoubleRed(path, c, f);
      LiftedSound(c, f, h);
      path.Pop(c);
      path.Pop(c.up);
      path.AtHole(c.up.up);
    }

    /** `insert_path`: put `value` at the empty end of `path` and repair upwards. */
    method InsertPath(path: RBPath, value: nat, ghost c0: Ctx)
      requires Valid() && path.Holds(c0) && tree == Plug(c0, Leaf)
      requires Lo(c0) < value < Hi(c0) && value in Mem().nodes
      modifies this, path
      ensures Valid()
      ensures value !in old(Contents()) && Contents() == old(Contents()) + {value}
      ensures OnlyTouches(old(Mem()), Mem(), old(Contents()) + {value})
      ensures KeepsWords(old(store), store, old(Contents()) + {value})
    {
      hide Mem, Get, ChildOf, RedAt, W.Clean;
      hide Matches, MatchesCtx, Ordered, OrderedCtx, RB, RBCtx, Keys, CtxKeys, PathOf, Depth, Lifted, Plug;
      hide WellFormed, OnlyTouches;
      ghost var c, f, h := c0, Node(Leaf, value, true, Leaf), 1;
      RedLeaf(value);
      ghost var all := CtxKeys(c0) + {value};
      OpenAt(c0, Leaf);
      CtxKeysOutside(c0);
      path.AtHole(c0);
      PlaceRedLeaf(path.Ith(0), value, c0);
      while path.Ith(0) != RootRef
        invariant path.Holds(c) && path.length >= 1 && path.Ith(0) == HoleRef(c)
        invariant Split(Mem(), c, f)
        invariant IsRed(f) && RB(f, h) && RBCtx(c, h)
        invariant CtxKeys(c) + Keys(f) == all
        invariant OnlyTouches(old(Mem()), Mem(), all)
        decreases path.length
      {
        path.AtHole(c);
        FrameFacts(Mem(), c, RootKey(f));
        if !RedAt(Get(path.Ith(1))) {
          Settle(c, f, h);
          WordsKept(all);
          return;
        }
        RedFrame(c, h);
        ghost var before := Mem();
        Ascend(path, c, f, h);
        TouchesBoth(old(Mem()), before, Mem(), all);
        c, f, h := c.up.up, Lifted(c, f), h + 1;
      }
      ghost var before := Mem();
      SettleRoot(f, h);
      TouchesChain(old(Mem()), before, Mem(), all, Keys(f), all);
      WordsKept(all);
    }

    // ----- removal

    method RaiseSibling(r: Ref, dir: bool, p: nat, s: nat, ghost x: nat, ghost n: nat, ghost q: nat)
      requires NodeIs(Mem(), p, dir, x, s, false) && NodeIs(Mem(), s, dir, n, q, true) && p != s && s != 0
      requires Present(Mem(), r) && (r.ChildRef? ==> r.key != p && r.key != s)
      modifies this`store
      ensures Rewrites(old(Mem()), Mem(), r, s, {p, s})
      ensures NodeIs(Mem(), p, dir, x, n, true) && NodeIs(Mem(), s, dir, p, q, false)
    {
      hide Mem, Get, ChildOf, RedAt, W.Clean, Rewrites, OnlyTouches;
      var nibling := ChildOf(dir, s);
      KeyClean(s);
      Relink(!dir, s, p, nibling);
      ghost var m := Mem();
      Paint(p, true);
      RecolourTouches(m, p, true);
      TouchesChain(old(Mem()), m, Mem(), {s, p}, {p}, {p, s});
      ghost var m1 := Mem();
      Paint(s, false);
      RecolourTouches(m1, s, false);
      TouchesChain(old(Mem()), m1, Mem(), {p, s}, {s}, {p, s});
      TouchKeepsPresent(old(Mem()), Mem(), {p, s}, r);
      TouchThenWrite(old(Mem()), Mem(), r, s, {p, s});
      Put(r, s);
    }

    method RaiseFarNibling(r: Ref, dir: bool, p: nat, s: nat, ghost x: nat, ghost near: nat, ghost far: nat, ghost red: bool)
      requires NodeIs(Mem(), p, dir, x, s, red) && NodeIs(Mem(), s, dir, near, far, false) && far in Mem().nodes
      requires p != s && s != 0 && far != p && far != s && p != 0
      requires Present(Mem(), r) && (r.ChildRef? ==> r.key != p && r.key != s && r.key != far)
      modifies this`store
      ensures Rewrites(old(Mem()), Mem(), r, s, {p, s, far})
      ensures Mem().nodes[far] == old(Mem()).nodes[far].(red := false)
      ensures NodeIs(Mem(), s, dir, p, far, red) && NodeIs(Mem(), p, dir, x, near, false)
    {
      hide Mem, Get, ChildOf, RedAt, W.Clean;
      hide Rewrites, OnlyTouches;
      var rNibling := ChildOf(!dir, s);
      var oNibling := ChildOf(dir, s);
      LinkAbove(r, dir, p, s, oNibling);
      ghost var m := Mem();
      RewriteKeeps(old(Mem()), m, r, s, {p, s}, far);
      Paint(rNibling, false);
      RecolourTouches(m, far, false);
      RewriteThenTouch(old(Mem()), m, Mem(), r, s, {p, s}, {far});
      ghost var m1 := Mem();
      TakeColour(s, p);
      TouchKeeps(m1, Mem(), {s, p}, far);
      RewriteThenTouch(old(Mem()), m1, Mem(), r, s, {p, s} + {far}, {s, p});
      assert {p, s} + {far} + {s, p} == {p, s, far};
    }

    /** `a` takes over the colour of `p`, which turns black. */
    method TakeColour(a: nat, p: nat)
      requires a in Mem().nodes && p in Mem().nodes && a != p && p != 0
      modifies this`store
      ensures Mem().root == old(Mem()).root && OnlyTouches(old(Mem()), Mem(), {a, p})
      ensures a in Mem().nodes && Mem().nodes[a] == old(Mem()).nodes[a].(red := old(Mem()).nodes[p].red)
      ensures p in Mem().nodes && Mem().nodes[p] == old(Mem()).nodes[p].(red := false)
    {
      hide Mem, Get, ChildOf, RedAt, W.Clean;
      Paint(a, RedAt(p));
      Paint(p, false);
    }

    /** The sibling takes the place of the parent, and the parent its child `near`. */
    method LinkAbove(r: Ref, dir: bool, p: nat, s: nat, near: nat)
      requires p in Mem().nodes && s in Mem().nodes && p != s && W.Clean(near)
      requires Present(Mem(), r) && (r.ChildRef? ==> r.key != p && r.key != s)
      modifies this`store
      ensures Rewrites(old(Mem()), Mem(), r, s, {p, s})
      ensures NodeIs(Mem(), s, dir, p, ChildWord(old(Mem()).nodes[s], !dir), old(Mem()).nodes[s].red)
      ensures NodeIs(Mem(), p, dir, ChildWord(old(Mem()).nodes[p], dir), near, old(Mem()).nodes[p].red)
    {
      hide Mem, Get, ChildOf, RedAt, W.Clean, Rewrites;
      KeyClean(p);
      KeyClean(s);
      Put(ChildRef(dir, s), p);
      Put(ChildRef(!dir, p), near);
      assert OnlyTouches(old(Mem()), Mem(), {p, s});
      hide OnlyTouches;
      TouchThenWrite(old(Mem()), Mem(), r, s, {p, s});
      Put(r, s);
    }

    method RotateNearNibling(dir: bool, p: nat, s: nat, n: nat, ghost x: nat, ghost far: nat,
                             ghost a: nat, ghost b: nat, ghost red: bool)
      requires NodeIs(Mem(), p, dir, x, s, red) && NodeIs(Mem(), s, dir, n, far, false) && NodeIs(Mem(), n, dir, a, b, true)
      requires p != s && n != p && n != s && n != 0
      modifies this`store
      ensures Mem().root == old(Mem()).root && OnlyTouches(old(Mem()), Mem(), {p, s, n})
      ensures NodeIs(Mem(), n, dir, p, s, true) && NodeIs(Mem(), p, dir, x, a, red) && NodeIs(Mem(), s, dir, b, far, false)
    {
      hide Mem, Get, ChildOf, RedAt, W.Clean;
      var rNiblingSame := ChildOf(dir, n);
      var rNiblingOpp := ChildOf(!dir, n);
      KeyClean(p);
      KeyClean(s);
      Put(ChildRef(!dir, p), rNiblingSame);
      Put(ChildRef(dir, s), rNiblingOpp);
      Put(ChildRef(dir, n), p);
      Put(ChildRef(!dir, n), s);
    }

    method RaiseNearNibling(r: Ref, dir: bool, p: nat, s: nat, ghost x: nat, ghost near: nat, ghost far: nat,
                            ghost a: nat, ghost b: nat, ghost red: bool)
      requires NodeIs(Mem(), p, dir, x, s, red) && NodeIs(Mem(), s, dir, near, far, false) && NodeIs(Mem(), near, dir, a, b, true)
      requires p != s && s != 0 && near != p && near != s && p != 0 && near != 0
      requires Present(Mem(), r) && (r.ChildRef? ==> r.key != p && r.key != s && r.key != near)
      modifies this`store
      ensures Rewrites(old(Mem()), Mem(), r, near, {p, s, near})
      ensures NodeIs(Mem(), near, dir, p, s, red) && NodeIs(Mem(), p, dir, x, a, false) && NodeIs(Mem(), s, dir, b, far, false)
    {
      hide Mem, Get, ChildOf, RedAt, W.Clean;
      hide Rewrites, OnlyTouches;
      var rNibling := ChildOf(dir, s);
      RotateNearNibling(dir, p, s, rNibling, x, far, a, b, red);
      ghost var m := Mem();
      TouchKeepsPresent(old(Mem()), m, {p, s, near}, r);
      Put(r, rNibling);
      TouchThenWrite(old(Mem()), m, r, near, {p, s, near});
      ghost var m1 := Mem();
      TakeColour(rNibling, p);
      TouchKeeps(m1, Mem(), {near, p}, s);
      RewriteThenTouch(old(Mem()), m1, Mem(), r, near, {p, s, near}, {near, p});
      assert {p, s, near} + {near, p} == {p, s, near};
    }

    /** Rotate a red sibling above the parent and extend the path by its step. */
    method RotateRedSibling(path: RBPath, ghost c: Ctx, ghost f: Tree, ghost h: int)
      requires path.Holds(c) && path.length < PATH_CAPACITY
      requires Split(Mem(), c, f) && DoubleBlack(c, f, h) && c.Frame? && c.sib.Node? && c.sib.red
      modifies this`store, path, path.path
      ensures path.Holds(SiblingRaised(c)) && path.length == old(path.length) + 1
      ensures Split(Mem(), SiblingRaised(c), f) && DoubleBlack(SiblingRaised(c), f, h)
      ensures TopRed(SiblingRaised(c)) && CtxKeys(SiblingRaised(c)) == CtxKeys(c)
      ensures OnlyTouches(old(Mem()), Mem(), CtxKeys(c) + Keys(f))
    {
      hide Mem, Get, ChildOf, RedAt, W.Clean;
      hide Matches, MatchesCtx, Ordered, OrderedCtx, RB, RBCtx, Keys, CtxKeys, PathOf, Depth, OnlyTouches;
      path.AtHole(c);
      SiblingExists(c, f, h);
      SiblingFacts(Mem(), c, f);
      SiblingRaisedSound(c, f, h);
      SiblingRaisedTop(c);
      var curDir := path.IthDir(0);
      var parent := Get(path.Ith(1));
      var sibling := ChildOf(!curDir, parent);
      ghost var near, far := Child(c.dir, c.sib), Child(!c.dir, c.sib);
      RaiseSibling(path.Ith(1), curDir, parent, sibling, RootKey(f), RootKey(near), RootKey(far));
      SiblingRaisedMatches(old(Mem()), Mem(), c, f);
      ThroughSibling(path, curDir, c);
    }

    /** Lead the path through the sibling that took the parent's place. */
    method ThroughSibling(path: RBPath, curDir: bool, ghost c: Ctx)
      requires path.Holds(c) && path.length < PATH_CAPACITY && c.Frame? && c.sib.Node? && curDir == c.dir
      requires Present(Mem(), HoleRef(c.up)) && Held(Mem(), HoleRef(c.up)) == c.sib.key
      requires var up := SiblingRaised(c).up; Present(Mem(), HoleRef(up)) && Held(Mem(), HoleRef(up)) == c.key
      modifies path, path.path
      ensures path.Holds(SiblingRaised(c)) && path.length == old(path.length) + 1
    {
      hide Mem, Get, W.Clean, PathOf, Depth;
      path.Pop(c);
      path.AtHole(c.up);
      path.Push(curDir, Get(path.Ith(0)), c.up, false, Child(!c.dir, c.sib));
      path.AtHole(SiblingRaised(c).up);
      path.Push(curDir, Get(path.Ith(0)), SiblingRaised(c).up, true, Child(c.dir, c.sib));
    }

    /** A red child of a black sibling: rotate it in and the repair is complete. */
    method AbsorbIntoNibling(path: RBPath, ghost c: Ctx, ghost f: Tree, ghost h: int)
      requires path.Holds(c)
      requires Split(Mem(), c, f) && DoubleBlack(c, f, h) && c.Frame? && c.sib.Node? && !c.sib.red
      requires IsRed(Child(!c.dir, c.sib)) || IsRed(Child(c.dir, c.sib))
      modifies this
      ensures Valid() && Contents() == CtxKeys(c) + Keys(f)
      ensures OnlyTouches(old(Mem()), Mem(), CtxKeys(c) + Keys(f))
    {
      hide Mem, Get, ChildOf, RedAt, W.Clean;
      hide Matches, MatchesCtx, Ordered, OrderedCtx, RB, RBCtx, Keys, CtxKeys, PathOf, Depth, OnlyTouches;
      hide NiblingRaised, WellFormed;
      path.AtHole(c);
      SiblingFacts(Mem(), c, f);
      NiblingRaisedOrdered(c, f);
      var curDir := path.IthDir(0);
      var parent := Get(path.Ith(1));
      var sibling := ChildOf(!curDir, parent);
      ghost var near, far := Child(c.dir, c.sib), Child(!c.dir, c.sib);
      assert OrderedCtx(c.up) by { SplitUp(Mem(), c, f); }
      if RedAt(ChildOf(!curDir, sibling)) {
        RaiseFarNibling(path.Ith(1), curDir, parent, sibling, RootKey(f), RootKey(near), RootKey(far), c.red);
        FarNiblingRaisedMatches(old(Mem()), Mem(), c, f);
      } else {
        RaiseNearNibling(path.Ith(1), curDir, parent, sibling, RootKey(f), RootKey(near), RootKey(far),
                         RootKey(Child(c.dir, near)), RootKey(Child(!c.dir, near)), c.red);
        NearNiblingRaisedMatches(old(Mem()), Mem(), c, f);
      }
      NiblingRaisedSound(c, f, h);
      NiblingRaisedKeys(c, f);
      Settle(c.up, NiblingRaised(c, f), if c.red then h + 1 else h + 2);
    }

    /** No red below: colour the sibling red and the parent black. */
    method ReddenSibling(path: RBPath, ghost c: Ctx, ghost f: Tree, ghost h: int)
      requires path.Holds(c)
      requires Split(Mem(), c, f) && DoubleBlack(c, f, h) && c.Frame? && c.sib.Node? && !c.sib.red
      requires !IsRed(Child(!c.dir, c.sib)) && !IsRed(Child(c.dir, c.sib))
      modifies this`store
      ensures Split(Mem(), c.up, SiblingReddened(c, f))
      ensures RB(SiblingReddened(c, f), h + 1) && RBCtx(c.up, if c.red then h + 1 else h + 2) && !IsRed(SiblingReddened(c, f))
      ensures CtxKeys(c.up) + Keys(SiblingReddened(c, f)) == CtxKeys(c) + Keys(f)
      ensures OnlyTouches(old(Mem()), Mem(), CtxKeys(c) + Keys(f))
    {
      hide Mem, Get, ChildOf, RedAt, W.Clean;
      hide Matches, MatchesCtx, Ordered, OrderedCtx, RB, RBCtx, Keys, CtxKeys, PathOf, Depth, OnlyTouches;
      path.AtHole(c);
      SiblingFacts(Mem(), c, f);
      SiblingReddenedSound(c, f, h);
      assert OrderedCtx(c.up) by { SplitUp(Mem(), c, f); }
      var curDir := path.IthDir(0);
      var parent := Get(path.Ith(1));
      var sibling := ChildOf(!curDir, parent);
      if RedAt(parent) {
        Paint(parent, false);
        Paint(sibling, true);
      } else {
        Paint(sibling, true);
      }
      SiblingReddenedMatches(old(Mem()), Mem(), c, f);
    }

    // ----- descents

    /** A tree within the key limit is at most 124 nodes high. */
    lemma PathFits(c: Ctx, f: Tree)
      requires Valid() && |Contents()| < MAX_KEYS && tree == Plug(c, f)
      ensures Depth(c) + Height(f) <= 124
    {
      hide Mem, Get, ChildOf, RedAt, W.Clean;
      HeightBound(tree);
      CtxDepthBound(c, f);
      if Height(tree) > 124 {
        Pow2Monotone(63, (Height(tree) + 1) / 2);
        Pow2Of64();
      }
    }

    /** `RBPath::move`: extend the path to a child unless it is null. */
    method Move(path: RBPath, dir: bool, ghost c: Ctx, ghost f: Tree) returns (moved: bool)
      requires Valid() && |Contents()| < MAX_KEYS && tree == Plug(c, f) && f.Node? && path.Holds(c)
      modifies path, path.path
      ensures moved == Child(dir, f).Node?
      ensures path.Holds(if moved then Descend(c, f, dir) else c)
      ensures moved ==> tree == Plug(Descend(c, f, dir), Child(dir, f))
      ensures path.length <= 125
    {
      hide Mem, Get, ChildOf, RedAt, W.Clean;
      hide Matches, MatchesCtx, RB, RBCtx, Keys, CtxKeys, PathOf, WellFormed;
      OpenAt(c, f);
      PathFits(c, f);
      path.AtHole(c);
      NodeFacts(Mem(), f, dir, Lo(c), Hi(c));
      HoleHolds(Mem(), c, f.key);
      if Child(dir, f).Node? {
        OpenAt(Descend(c, f, dir), Child(dir, f));
        FrameFacts(Mem(), Descend(c, f, dir), RootKey(Child(dir, f)));
        NodeFacts(Mem(), Child(dir, f), dir, Lo(Descend(c, f, dir)), Hi(Descend(c, f, dir)));
      }
      var curr := Get(path.Ith(0));
      var next := ChildOf(dir, curr);
      if next == 0 {
        return false;
      }
      path.Push(dir, curr, c, f.red, Child(!dir, f));
      return true;
    }

    /** Descend from the node to be removed to the key that will replace it. */
    method FindReplacement(path: RBPath, ghost c0: Ctx, ghost f0: Tree) returns (ghost c: Ctx, ghost f: Tree)
      requires Valid() && |Contents()| < MAX_KEYS && tree == Plug(c0, f0) && f0.Node? && path.Holds(c0)
      modifies path, path.path
      ensures path.Holds(c) && path.length <= 125
      ensures tree == Plug(c, f) && Replacement(c0, f0, c, f) && f.right.Leaf?
    {
      hide Mem, Get, ChildOf, RedAt, W.Clean;
      hide Matches, MatchesCtx, RB, RBCtx, Keys, CtxKeys, PathOf, Plug, Ordered, OrderedCtx, WellFormed, Depth;
      c, f := c0, f0;
      OpenAt(c0, f0);
      if f0.left.Leaf? && f0.right.Node? { LoneRightChild(f0, BlackDepth(f0)); }
      var moved := Move(path, true, c, f);
      if moved {
        c, f := Descend(c, f, true), f.left;
      }
      moved := Move(path, false, c, f);
      while moved
        invariant Replacement(c0, f0, c, f)
        invariant path.Holds(if moved then Descend(c, f, false) else c) && path.length <= 125
        invariant moved == f.right.Node?
        invariant tree == Plug(c, f)
        invariant moved ==> tree == Plug(Descend(c, f, false), f.right)
        decreases f
      {
        SpineStep(c0, f0, c, f);
        c, f := Descend(c, f, false), f.right;
        moved := Move(path, false, c, f);
      }
    }

    /** `RBPath::fixup`: walk the path again from the root. */
    method Fixup(path: RBPath, ghost c: Ctx, ghost c': Ctx, ghost hole: nat)
      requires path.Holds(c) && MatchesCtx(Mem(), c', hole)
      requires |PathOf(c')| == |PathOf(c)| && Depth(c') == Depth(c) && PathOf(c')[0] == PathOf(c)[0]
      requires forall i :: 0 <= i < |PathOf(c)| ==> PathOf(c')[i].dir == PathOf(c)[i].dir
      modifies path.path
      ensures path.Holds(c')
    {
      hide Mem, Get, ChildOf, RedAt, W.Clean;
      ghost var steps := PathOf(c');
      var i := 1;
      while i < path.length
        invariant 1 <= i <= path.length == |steps|
        invariant path.path[..i] == steps[..i]
        invariant forall j :: i <= j < path.length ==> path.path[j].dir == steps[j].dir
      {
        PathWalk(Mem(), c', hole, i);
        assert path.path[i - 1] == path.path[..i][i - 1];
        var dir := path.path[i].dir;
        var actual := ChildRef(dir, Get(path.path[i - 1].ref));
        if actual != path.path[i].ref {
          path.path[i] := Step(actual, dir);
        }
        i := i + 1;
        assert path.path[..i] == path.path[..i - 1] + [path.path[i - 1]];
        assert steps[..i] == steps[..i - 1] + [steps[i - 1]];
      }
    }

    /** Replace the key at the end of the path by its left child. */
    method Unlink(r: Ref, ghost c: Ctx, ghost f: Tree)
      requires Split(Mem(), c, f) && f.Node? && r == HoleRef(c)
      modifies this`store
      ensures Matches(Mem(), f.left) && MatchesCtx(Mem(), c, RootKey(f.left))
      ensures OnlyTouches(old(Mem()), Mem(), CtxKeys(c) + Keys(f))
      ensures f.key in Mem().nodes && Mem().nodes[f.key] == old(Mem()).nodes[f.key]
    {
      hide Mem, Get, ChildOf, RedAt, W.Clean;
      HoleHolds(Mem(), c, f.key);
      NodeFacts(Mem(), f, true, Lo(c), Hi(c));
      var child := ChildOf(true, Get(r));
      Put(r, child);
      Refocus(old(Mem()), Mem(), c, f.key, child);
      MatchesFrame(old(Mem()), Mem(), f.left, Lo(c), f.key);
    }

    /** Give `x` the words of the node `k` it replaces, and lead to it from `r`. */
    method TakePlace(r: Ref, k: nat, x: nat)
      requires Present(Mem(), r) && k in Mem().nodes && x in Mem().nodes && k != x && (r.ChildRef? ==> r.key != x && r.key != k)
      requires Held(Mem(), r) == k && k > 0
      modifies this`store
      ensures Rewrites(old(Mem()), Mem(), r, x, {x})
      ensures Mem().nodes[x].left == old(Mem()).nodes[k].left
      ensures Mem().nodes[x].right == old(Mem()).nodes[k].right
      ensures Mem().nodes[x].red == old(Mem()).nodes[k].red
    {
      hide Mem, Get, ChildOf, RedAt, W.Clean, Rewrites;
      KeyClean(x);
      Paint(x, RedAt(Get(r)));
      Put(ChildRef(true, x), ChildOf(true, Get(r)));
      Put(ChildRef(false, x), ChildOf(false, Get(r)));
      assert OnlyTouches(old(Mem()), Mem(), {x});
      TouchThenWrite(old(Mem()), Mem(), r, x, {x});
      Put(r, x);
    }

    /** Take the replacement out of its place and put it where `splice` points. */
    method SpliceOut(path: RBPath, splice: Ref, ghost c0: Ctx, ghost f0: Tree, ghost c: Ctx, ghost f: Tree) returns (leafRed: bool)
      requires path.Holds(c) && splice == HoleRef(c0)
      requires Split(Mem(), c, f) && Replacement(c0, f0, c, f) && f.right.Leaf?
      modifies this`store, path.path
      ensures path.Holds(Spliced(c0, c, f))
      ensures Split(Mem(), Spliced(c0, c, f), f.left) && leafRed == f.red
      ensures OnlyTouches(old(Mem()), Mem(), CtxKeys(c) + Keys(f))
    {
      hide Mem, Get, ChildOf, RedAt, W.Clean;
      hide Matches, MatchesCtx, RB, RBCtx, Keys, CtxKeys, PathOf, Plug, Ordered, OrderedCtx, Depth, OnlyTouches, Rename;
      SplicedOrdered(c0, f0, c, f);
      path.AtHole(c);
      NodeFacts(Mem(), f, true, Lo(c), Hi(c));
      HoleHolds(Mem(), c, f.key);
      var curr := Get(path.Ith(0));
      Unlink(path.Ith(0), c, f);
      leafRed := RedAt(curr);
      DistinctHoles(c0, f0, c, f);
      if path.Ith(0) != splice {
        ghost var mid := Mem();
        SpliceFacts(Mem(), c0, c, RootKey(f.left));
        TakePlace(splice, Get(splice), curr);
        RenameMatches(mid, Mem(), c, c0, curr, RootKey(f.left));
        MatchesRewrite(mid, Mem(), splice, curr, {curr}, f.left, Lo(c), f.key);
        RenamePath(c, c0, curr);
        Fixup(path, c, Spliced(c0, c, f), RootKey(f.left));
        SpliceTouches(mid, Mem(), c0, c, f);
        TouchesBoth(old(Mem()), mid, Mem(), CtxKeys(c) + Keys(f));
      }
    }

    /** Move a double black up the path until it can be absorbed. */
    method RepairDoubleBlack(path: RBPath, ghost c0: Ctx, ghost f0: Tree, ghost h0: int)
      requires path.Holds(c0) && path.length <= 125
      requires Split(Mem(), c0, f0) && DoubleBlack(c0, f0, h0)
      modifies this, path, path.path
      ensures Valid() && Contents() == CtxKeys(c0) + Keys(f0)
      ensures OnlyTouches(old(Mem()), Mem(), CtxKeys(c0) + Keys(f0))
    {
      hide Mem, Get, ChildOf, RedAt, W.Clean;
      hide Matches, MatchesCtx, RB, RBCtx, Keys, CtxKeys, PathOf, Plug, Ordered, OrderedCtx, Depth, OnlyTouches,
           SiblingRaised, NiblingRaised, SiblingReddened, WellFormed;
      ghost var c, f, h := c0, f0, h0;
      ghost var all := CtxKeys(c) + Keys(f);
      TouchesNothing(Mem(), all);
      path.AtHole(c);
      while path.Ith(0) != RootRef
        invariant path.Holds(c) && 1 <= path.length && path.Ith(0) == HoleRef(c)
        invariant path.length <= if TopRed(c) then 126 else 125
        invariant Split(Mem(), c, f) && DoubleBlack(c, f, h)
        invariant CtxKeys(c) + Keys(f) == all
        invariant OnlyTouches(old(Mem()), Mem(), all)
        decreases if TopRed(c) then 0 else path.length
      {
        path.AtHole(c);
        SiblingExists(c, f, h);
        SiblingFacts(Mem(), c, f);
        var curDir := path.IthDir(0);
        var parent := Get(path.Ith(1));
        var sibling := ChildOf(!curDir, parent);
        ghost var before := Mem();
        if RedAt(sibling) {
          RotateRedSibling(path, c, f, h);
          TouchesBoth(old(Mem()), before, Mem(), all);
          c := SiblingRaised(c);
          path.AtHole(c);
          continue;
        }
        if RedAt(ChildOf(!curDir, sibling)) || RedAt(ChildOf(curDir, sibling)) {
          AbsorbIntoNibling(path, c, f, h);
          TouchesBoth(old(Mem()), before, Mem(), all);
          return;
        }
        var parentRed := RedAt(parent);
        ReddenSibling(path, c, f, h);
        TouchesBoth(old(Mem()), before, Mem(), all);
        if parentRed {
          Settle(c.up, SiblingReddened(c, f), h + 1);
          return;
        }
        path.Pop(c);
        c, f, h := c.up, SiblingReddened(c, f), h + 1;
        path.AtHole(c);
      }
      RootIsTop(c, h);
      Settle(c, f, h);
    }

    /** `remove_path`: take out the node at the end of `path` and rebalance. */
    method RemovePath(path: RBPath, ghost c0: Ctx, ghost f0: Tree)
      requires Valid() && |Contents()| < MAX_KEYS && tree == Plug(c0, f0) && f0.Node? && path.Holds(c0)
      modifies this, path, path.path
      ensures Valid()
      ensures f0.key in old(Contents()) && Contents() == old(Contents()) - {f0.key}
      ensures OnlyTouches(old(Mem()), Mem(), old(Contents()))
      ensures KeepsWords(old(store), store, old(Contents()))
    {
      hide Mem, Get, ChildOf, RedAt, W.Clean;
      hide Matches, MatchesCtx, RB, RBCtx, Keys, CtxKeys, PathOf, Plug, Ordered, OrderedCtx, Depth, OnlyTouches,
           WellFormed, Spliced, Replacement;
      path.AtHole(c0);
      var splice := path.Ith(0);
      ghost var c, f := FindReplacement(path, c0, f0);
      OpenAt(c, f);
      ghost var h := BlackDepth(f);
      ghost var all := Contents();
      ReplacementNode(c0, f0, c, f);
      SplicedOrdered(c0, f0, c, f);
      SplicedSound(c0, f0, c, f, h);
      var leafRed := SpliceOut(path, splice, c0, f0, c, f);
      ghost var c2 := Spliced(c0, c, f);
      if leafRed {
        Settle(c2, f.left, h);
        WordsKept(all);
        return;
      }
      ghost var mid := Mem();
      RepairDoubleBlack(path, c2, f.left, h - 1);
      TouchesMore(mid, Mem(), CtxKeys(c2) + Keys(f.left), all);
      TouchesBoth(old(Mem()), mid, Mem(), all);
      WordsKept(all);
    }

    /** `find`: stop at `value`, or at the null where it would go. */
    method Find(path: RBPath, value: nat) returns (found: bool, ghost c: Ctx, ghost f: Tree)
      requires Valid() && |Contents()| < MAX_KEYS && path.Holds(Top) && value < LIMIT
      modifies path, path.path
      ensures path.Holds(c) && tree == Plug(c, f)
      ensures found == (value in Contents())
      ensures if found then f.Node? && f.key == value else f.Leaf? && (value > 0 ==> Lo(c) < value < Hi(c))
    {
      hide Mem, Get, ChildOf, RedAt, W.Clean;
      hide Matches, MatchesCtx, RB, RBCtx, Keys, CtxKeys, PathOf, Ordered, OrderedCtx, WellFormed;
      c, f := Top, tree;
      OpenAt(c, f);
      path.AtHole(c);
      EmptyKeys(f);
      RootKeyZero(f, 0, LIMIT);
      if Get(path.Ith(0)) == 0 {
        return false, c, f;
      }
      found := true;
      while found
        invariant path.Holds(c) && tree == Plug(c, f) && found == f.Node?
        invariant Lo(c) <= value < Hi(c) && (value > 0 ==> Lo(c) < value)
        decreases f
      {
        path.AtHole(c);
        OpenAt(c, f);
        HoleHolds(Mem(), c, f.key);
        NodeFacts(Mem(), f, true, Lo(c), Hi(c));
        PathFits(c, f);
        var curr := Get(path.Ith(0));
        KeyPresent(f);
        if curr == value {
          return true, c, f;
        }
        var dir := curr > value;
        ghost var next := Descend(c, f, dir);
        path.Push(dir, curr, c, f.red, Child(!dir, f));
        c, f := next, Child(dir, f);
        path.AtHole(c);
        OpenAt(c, f);
        HoleHolds(Mem(), c, RootKey(f));
        RootKeyZero(f, Lo(c), Hi(c));
        found := Get(path.Ith(0)) != 0;
      }
      OpenAt(c, f);
      if value > 0 { AbsentKey(c, f, value); } else { NullAbsent(); }
    }

    /** The null address is no key. */
    lemma NullAbsent()
      requires Valid()
      ensures 0 !in Contents()
    {
      KeysInRange(tree, 0, LIMIT);
    }

    // ----- whole operations

    /** An empty tree over existing node storage, whatever its words hold. */
    constructor (entries: map<nat, Words>)
      requires forall k :: k in entries ==> W.Clean(k)
      ensures Valid() && Contents() == {} && store.entries == entries
    {
      store := Store(0, entries);
      tree := Leaf;
      new;
      W.Parts(0);
    }

    method InsertElem(value: nat) returns (inserted: bool)
      requires Valid() && |Contents()| < MAX_KEYS && 0 < value < LIMIT && value in Mem().nodes
      modifies this
      ensures Valid()
      ensures inserted == (value !in old(Contents()))
      ensures Contents() == old(Contents()) + {value}
      ensures OnlyTouches(old(Mem()), Mem(), Contents())
    {
      hide Mem, Get, ChildOf, RedAt, W.Clean;
      var path := new RBPath();
      var found, c, f := Find(path, value);
      if found { return false; }
      InsertPath(path, value, c);
      return true;
    }

    method RemoveElem(value: nat) returns (removed: bool)
      requires Valid() && |Contents()| < MAX_KEYS && 0 < value < LIMIT
      modifies this
      ensures Valid()
      ensures removed == (value in old(Contents()))
      ensures Contents() == old(Contents()) - {value}
      ensures OnlyTouches(old(Mem()), Mem(), old(Contents()))
    {
      hide Mem, Get, ChildOf, RedAt, W.Clean;
      if Get(RootRef) == 0 {
        RootKeyZero(tree, 0, LIMIT);
        return false;
      }
      var path := new RBPath();
      var found, c, f := Find(path, value);
      if !found { return false; }
      RemovePath(path, c, f);
      return true;
    }

    /** Null from an empty tree, else its least key, which leaves the tree. */
    method RemoveMin() returns (least: nat)
      requires Valid() && |Contents()| < MAX_KEYS
      modifies this
      ensures Valid()
      ensures least == 0 <==> old(Contents()) == {}
      ensures least != 0 ==> least in old(Contents()) && forall k :: k in old(Contents()) ==> least <= k
      ensures Contents() == old(Contents()) - {least}
      ensures OnlyTouches(old(Mem()), Mem(), old(Contents()))
    {
      hide Mem, Get, ChildOf, RedAt, W.Clean;
      hide Matches, MatchesCtx, RB, RBCtx, Keys, CtxKeys, PathOf, Plug, Ordered, OrderedCtx, WellFormed, Depth, OnlyTouches;
      ghost var c, f := Top, tree;
      TouchesNothing(Mem(), Contents());
      EmptyKeys(tree);
      RootKeyZero(tree, 0, LIMIT);
      if Get(RootRef) == 0 { return 0; }
      var path := new RBPath();
      WholeTree(tree);
      var moved := true;
      while moved
        invariant path.Holds(c) && tree == Plug(c, f) && f.Node? && Lo(c) == 0
        invariant !moved ==> f.left.Leaf?
        invariant Mem() == old(Mem()) && tree == old(tree)
        decreases moved, f
      {
        moved := Move(path, true, c, f);
        if moved { c, f := Descend(c, f, true), f.left; }
      }
      OpenAt(c, f);
      path.AtHole(c);
      HoleHolds(Mem(), c, f.key);
      LeastKey(c, f);
      least := Get(path.Ith(0));
      RemovePath(path, c, f);
    }

    /** `for_each`: every key once, the tree unchanged. */
    method ForEach() returns (visited: seq<nat>)
      requires Valid()
      ensures forall k :: k in visited <==> k in Contents()
      ensures |visited| == |Contents()|
    {
      hide Mem, Get, ChildOf, RedAt, W.Clean;
      hide WellFormed;
      SizeIsKeyCount(tree, 0, LIMIT);
      visited := Visit(Get(RootRef), tree);
    }

    method Visit(curr: nat, ghost t: Tree) returns (visited: seq<nat>)
      requires Matches(Mem(), t) && curr == RootKey(t) && Ordered(t, 0, LIMIT)
      ensures forall k :: k in visited <==> k in Keys(t)
      ensures |visited| == Size(t)
      decreases t
    {
      hide Mem, Get, ChildOf, RedAt, W.Clean;
      RootKeyZero(t, 0, LIMIT);
      if curr == 0 { return []; }
      OrderedWiden(t.left, 0, t.key, 0, LIMIT);
      OrderedWiden(t.right, t.key, LIMIT, 0, LIMIT);
      var left := Visit(ChildOf(true, curr), t.left);
      var right := Visit(ChildOf(false, curr), t.right);
      visited := [curr] + left + right;
    }
  }
}
