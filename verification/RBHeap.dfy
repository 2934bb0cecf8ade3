/** The tree as it lies in memory: one root word and, per key, two child words
    that also carry the colour and one more flag bit.  `View` reads the parts off
    the words, `Matches` ties a value tree to the parts, and the lemmas say which
    writes leave it in place. */
module RBHeap {
  import W = ChunkWord
  import opened RBSpec

  // ----- words

  /** The two words of a pagemap entry. */
  datatype Words = Words(one: W.Word, two: W.Word)

  datatype RawStore = Store(root: W.Word, entries: map<nat, Words>)

  /** Entries exist only at addresses that leave the flag bits free. */
  type Store = s: RawStore | forall k :: k in s.entries ==> W.Clean(k)
    witness Store(0, map[])

  /** `Rep::set` through a reference. */
  function PutRef(s: Store, r: Ref, v: nat): Store
    requires (r.ChildRef? ==> r.key in s.entries) && W.Clean(v)
  {
    match r
    case RootRef => s.(root := W.Set(s.root, v))
    case ChildRef(dir, k) =>
      var e := s.entries[k];
      s.(entries := s.entries[k := if dir then e.(one := W.Set(e.one, v)) else e.(two := W.Set(e.two, v))])
  }

  /** `Rep::set_red`: the colour is in the first word. */
  function PutRed(s: Store, k: nat, red: bool): Store
    requires k in s.entries
  {
    var e := s.entries[k];
    s.(entries := s.entries[k := e.(one := W.SetRed(e.one, red))])
  }

  /** `Rep::set_decommitted`: so is the flag. */
  function PutDecommitted(s: Store, k: nat, decommitted: bool): Store
    requires k in s.entries
  {
    var e := s.entries[k];
    s.(entries := s.entries[k := e.(one := W.SetDecommitted(e.one, decommitted))])
  }

  // ----- the parts of the words

  /** What the words of an entry hold: `mark` is the decommitted flag, and the
      last two are the flag bits of the second word, which mean nothing. */
  datatype NodeWords = NodeWords(left: nat, right: nat, red: bool, mark: bool, spareRed: bool, spareMark: bool)

  datatype Memory = Memory(root: nat, nodes: map<nat, NodeWords>)

  function ViewEntry(e: Words): NodeWords {
    NodeWords(W.Address(e.one), W.Address(e.two), W.IsRed(e.one), W.IsDecommitted(e.one), W.IsRed(e.two), W.IsDecommitted(e.two))
  }

  function View(s: Store): Memory {
    Memory(W.Address(s.root), map k | k in s.entries :: ViewEntry(s.entries[k]))
  }

  lemma ViewPutRef(s: Store, r: Ref, v: nat)
    requires (r.ChildRef? ==> r.key in s.entries) && W.Clean(v)
    ensures View(PutRef(s, r, v)) == SetRef(View(s), r, v)
  {
    hide W.Address, W.IsRed, W.IsDecommitted, W.Set;
    match r
    case RootRef => W.SetKeepsFlags(s.root, v);
    case ChildRef(dir, k) =>
      W.SetKeepsFlags(s.entries[k].one, v);
      W.SetKeepsFlags(s.entries[k].two, v);
      assert View(PutRef(s, r, v)).nodes == SetRef(View(s), r, v).nodes;
  }

  lemma ViewPutRed(s: Store, k: nat, red: bool)
    requires k in s.entries
    ensures View(PutRed(s, k, red)) == SetRed(View(s), k, red)
  {
    hide W.Address, W.IsRed, W.IsDecommitted, W.SetRed;
    W.SetRedOnly(s.entries[k].one, red);
    var m, m' := View(s), View(PutRed(s, k, red));
    assert m'.nodes[k] == m.nodes[k].(red := red);
    assert m'.nodes == m.nodes[k := m'.nodes[k]];
  }

  lemma ViewPutDecommitted(s: Store, k: nat, decommitted: bool)
    requires k in s.entries
    ensures var m := View(s);
      View(PutDecommitted(s, k, decommitted)) == m.(nodes := m.nodes[k := m.nodes[k].(mark := decommitted)])
  {
    hide W.Address, W.IsRed, W.IsDecommitted, W.SetDecommitted;
    W.SetDecommittedOnly(s.entries[k].one, decommitted);
    assert View(PutDecommitted(s, k, decommitted)).nodes == View(s).nodes[k := View(s).nodes[k].(mark := decommitted)];
  }

  /** The parts determine the words. */
  lemma SameWords(s: Store, s': Store, k: nat)
    requires k in s.entries && k in s'.entries && View(s).nodes[k] == View(s').nodes[k]
    ensures s.entries[k] == s'.entries[k]
  {
    hide W.Address, W.IsRed, W.IsDecommitted;
    W.SameParts(s.entries[k].one, s'.entries[k].one);
    W.SameParts(s.entries[k].two, s'.entries[k].two);
  }

  /** Words outside `touched` are the same bit for bit, and the decommitted flag
      is the same in every entry. */
  ghost predicate KeepsWords(s: Store, s': Store, touched: set<nat>) {
    && s'.entries.Keys == s.entries.Keys
    && (forall k :: k in s.entries && k !in touched ==> s'.entries[k] == s.entries[k])
    && (forall k :: k in s.entries ==> (W.IsDecommitted(s'.entries[k].one) <==> W.IsDecommitted(s.entries[k].one)))
  }

  lemma TouchesWords(s: Store, s': Store, touched: set<nat>)
    requires OnlyTouches(View(s), View(s'), touched)
    ensures KeepsWords(s, s', touched)
  {
    hide View, W.IsDecommitted, OnlyTouches;
    ViewKeys(s);
    ViewKeys(s');
    TouchKeepsKeys(View(s), View(s'), touched);
    forall k | k in s.entries ensures k !in touched ==> s'.entries[k] == s.entries[k]
      ensures W.IsDecommitted(s'.entries[k].one) <==> W.IsDecommitted(s.entries[k].one)
    {
      TouchKeeps(View(s), View(s'), touched, k);
      if k !in touched { SameWords(s, s', k); }
    }
  }

  lemma TouchKeepsKeys(m: Memory, m': Memory, touched: set<nat>)
    requires OnlyTouches(m, m', touched)
    ensures m'.nodes.Keys == m.nodes.Keys
  {}

  lemma ViewKeys(s: Store)
    ensures View(s).nodes.Keys == s.entries.Keys
    ensures forall k :: k in s.entries ==> View(s).nodes[k].mark == W.IsDecommitted(s.entries[k].one)
  {
    hide W.Address, W.IsRed, W.IsDecommitted;
  }

  lemma CleanParts(s: Store)
    ensures W.Clean(W.Address(s.root))
    ensures forall k :: k in s.entries ==> W.Clean(W.Address(s.entries[k].one)) && W.Clean(W.Address(s.entries[k].two))
  {
    hide W.Address, W.Clean;
    W.Parts(s.root);
    forall k | k in s.entries ensures W.Clean(W.Address(s.entries[k].one)) && W.Clean(W.Address(s.entries[k].two)) {
      W.Parts(s.entries[k].one);
      W.Parts(s.entries[k].two);
    }
  }

  /** A place that holds a key: the root word or one child word of a node. */
  datatype Ref = RootRef | ChildRef(dir: bool, key: nat)

  function ChildWord(n: NodeWords, dir: bool): nat {
    if dir then n.left else n.right
  }

  function RootKey(t: Tree): nat {
    if t.Leaf? then 0 else t.key
  }

  predicate Present(m: Memory, r: Ref) {
    r.RootRef? || r.key in m.nodes
  }

  /** `Rep::set`: replace the key held at `r`, keeping the node's flag bits. */
  function SetRef(m: Memory, r: Ref, v: nat): Memory
    requires Present(m, r)
  {
    match r
    case RootRef => m.(root := v)
    case ChildRef(dir, k) =>
      m.(nodes := m.nodes[k := if dir then m.nodes[k].(left := v) else m.nodes[k].(right := v)])
  }

  /** `Rep::set_red`. */
  function SetRed(m: Memory, k: nat, red: bool): Memory
    requires k in m.nodes
  {
    m.(nodes := m.nodes[k := m.nodes[k].(red := red)])
  }

  ghost predicate Matches(m: Memory, t: Tree) {
    match t
    case Leaf => true
    case Node(l, k, red, r) =>
      && k in m.nodes
      && m.nodes[k].left == RootKey(l)
      && m.nodes[k].right == RootKey(r)
      && m.nodes[k].red == red
      && Matches(m, l)
      && Matches(m, r)
  }

  /** The words around a hole that currently holds the key `hole`. */
  ghost predicate MatchesCtx(m: Memory, c: Ctx, hole: nat) {
    match c
    case Top => m.root == hole
    case Frame(dir, k, red, sib, up) =>
      && k in m.nodes
      && ChildWord(m.nodes[k], dir) == hole
      && ChildWord(m.nodes[k], !dir) == RootKey(sib)
      && m.nodes[k].red == red
      && Matches(m, sib)
      && MatchesCtx(m, up, k)
  }

  function HoleRef(c: Ctx): Ref {
    if c.Top? then RootRef else ChildRef(c.dir, c.key)
  }

  /** Same node words for every key strictly between `lo` and `hi`. */
  ghost predicate SameInside(m: Memory, m': Memory, lo: int, hi: int) {
    forall k :: k in m.nodes && lo < k < hi ==> k in m'.nodes && m'.nodes[k] == m.nodes[k]
  }

  /** Outside the hole's interval, `m'` is `m` with the hole's word set to `v`. */
  ghost predicate HoleSet(m: Memory, m': Memory, c: Ctx, v: nat)
    requires Present(m, HoleRef(c))
  {
    var w := SetRef(m, HoleRef(c), v);
    && m'.root == w.root
    && forall k :: k in m.nodes && (k <= Lo(c) || Hi(c) <= k) ==> k in m'.nodes && m'.nodes[k] == w.nodes[k]
  }

  lemma {:induction false} MatchesFrame(m: Memory, m': Memory, t: Tree, lo: int, hi: int)
    requires Matches(m, t) && Ordered(t, lo, hi) && SameInside(m, m', lo, hi)
    ensures Matches(m', t)
  {
    match t
    case Leaf =>
    case Node(l, k, _, r) =>
      MatchesFrame(m, m', l, lo, k);
      MatchesFrame(m, m', r, k, hi);
  }

  lemma {:induction false} MatchesCtxFrame(m: Memory, m': Memory, c: Ctx, hole: nat)
    requires MatchesCtx(m, c, hole) && OrderedCtx(c)
    requires m'.root == m.root
    requires forall k :: k in m.nodes && (k <= Lo(c) || Hi(c) <= k) ==> k in m'.nodes && m'.nodes[k] == m.nodes[k]
    ensures MatchesCtx(m', c, hole)
  {
    match c
    case Top =>
    case Frame(dir, key, red, sib, up) =>
      MatchesFrame(m, m', sib, if dir then key else Lo(up), if dir then Hi(up) else key);
      MatchesCtxFrame(m, m', up, key);
  }

  lemma HolePresent(m: Memory, c: Ctx, hole: nat)
    requires MatchesCtx(m, c, hole)
    ensures Present(m, HoleRef(c))
  {}

  lemma HoleHolds(m: Memory, c: Ctx, hole: nat)
    requires MatchesCtx(m, c, hole)
    ensures Present(m, HoleRef(c)) && Held(m, HoleRef(c)) == hole
  {}

  /** Writing the hole's word, and anything inside the hole, re-points the context. */
  lemma Refocus(m: Memory, m': Memory, c: Ctx, hole: nat, v: nat)
    requires MatchesCtx(m, c, hole) && OrderedCtx(c) && HoleSet(m, m', c, v)
    ensures MatchesCtx(m', c, v)
  {
    if c.Frame? {
      var Frame(dir, key, red, sib, up) := c;
      MatchesFrame(m, m', sib, if dir then key else Lo(up), if dir then Hi(up) else key);
      MatchesCtxFrame(m, m', up, key);
    }
  }

  lemma {:induction false} PlugMatches(m: Memory, c: Ctx, t: Tree)
    requires MatchesCtx(m, c, RootKey(t)) && Matches(m, t)
    ensures Matches(m, Plug(c, t)) && m.root == RootKey(Plug(c, t))
    decreases c
  {
    match c
    case Top =>
    case Frame(dir, key, red, sib, up) => PlugMatches(m, up, Join(dir, key, red, t, sib));
  }

  lemma {:induction false} UnplugMatches(m: Memory, c: Ctx, t: Tree)
    requires Matches(m, Plug(c, t)) && m.root == RootKey(Plug(c, t))
    ensures MatchesCtx(m, c, RootKey(t)) && Matches(m, t)
    decreases c
  {
    match c
    case Top =>
    case Frame(dir, key, red, sib, up) => UnplugMatches(m, up, Join(dir, key, red, t, sib));
  }

  /** No word outside `touched` changed, and no flag bit changed anywhere. */
  ghost predicate OnlyTouches(m: Memory, m': Memory, touched: set<nat>) {
    && m'.nodes.Keys == m.nodes.Keys
    && forall k :: k in m.nodes ==>
      m'.nodes[k].mark == m.nodes[k].mark && (k !in touched ==> m'.nodes[k] == m.nodes[k])
  }

  // ----- local rewrites: a few nodes and the word that leads to them

  /** Node `k` has the given children, seen from side `dir`, and colour. */
  predicate NodeIs(m: Memory, k: nat, dir: bool, same: nat, other: nat, red: bool) {
    k in m.nodes && ChildWord(m.nodes[k], dir) == same && ChildWord(m.nodes[k], !dir) == other && m.nodes[k].red == red
  }

  /** `m'` is `m` with `v` written at `r` and the nodes `ks` rewritten, flags kept. */
  ghost predicate Rewrites(m: Memory, m': Memory, r: Ref, v: nat, ks: set<nat>)
    requires Present(m, r)
  {
    var w := SetRef(m, r, v);
    && m'.root == w.root
    && m'.nodes.Keys == m.nodes.Keys
    && forall k :: k in m.nodes ==>
      m'.nodes[k].mark == m.nodes[k].mark && (k !in ks ==> m'.nodes[k] == w.nodes[k])
  }

  // Rewrites in several steps.

  lemma RewriteKeeps(m: Memory, m': Memory, r: Ref, v: nat, ks: set<nat>, k: nat)
    requires Present(m, r) && Rewrites(m, m', r, v, ks) && k in m.nodes
    ensures k in m'.nodes
    ensures k !in ks && (r.ChildRef? ==> r.key != k) ==> m'.nodes[k] == m.nodes[k]
  {}

  lemma RewriteThenTouch(m: Memory, m1: Memory, m2: Memory, r: Ref, v: nat, ks: set<nat>, ls: set<nat>)
    requires Present(m, r) && Rewrites(m, m1, r, v, ks) && OnlyTouches(m1, m2, ls) && m2.root == m1.root
    ensures Rewrites(m, m2, r, v, ks + ls)
  {}

  lemma TouchThenWrite(m: Memory, m1: Memory, r: Ref, v: nat, ks: set<nat>)
    requires Present(m, r) && OnlyTouches(m, m1, ks) && m1.root == m.root && Present(m1, r) && (r.ChildRef? ==> r.key !in ks)
    ensures Rewrites(m, SetRef(m1, r, v), r, v, ks)
  {}

  lemma WriteAlone(m: Memory, r: Ref, v: nat)
    requires Present(m, r)
    ensures Rewrites(m, SetRef(m, r, v), r, v, {})
  {}

  lemma TouchKeeps(m: Memory, m': Memory, ks: set<nat>, k: nat)
    requires OnlyTouches(m, m', ks) && k in m.nodes
    ensures k in m'.nodes && m'.nodes[k].mark == m.nodes[k].mark && (k !in ks ==> m'.nodes[k] == m.nodes[k])
  {}

  lemma TouchKeepsPresent(m: Memory, m': Memory, ks: set<nat>, r: Ref)
    requires OnlyTouches(m, m', ks) && Present(m, r)
    ensures Present(m', r)
  {}

  lemma RecolourTouches(m: Memory, k: nat, red: bool)
    requires k in m.nodes
    ensures OnlyTouches(m, SetRed(m, k, red), {k})
  {}

  ghost predicate Outside(k: nat, lo: int, hi: int) {
    k <= lo || hi <= k
  }

  lemma JoinMatches(m: Memory, dir: bool, k: nat, red: bool, same: Tree, other: Tree)
    requires NodeIs(m, k, dir, RootKey(same), RootKey(other), red) && Matches(m, same) && Matches(m, other)
    ensures Matches(m, Join(dir, k, red, same, other))
  {}

  lemma MatchesRewrite(m: Memory, m': Memory, r: Ref, v: nat, ks: set<nat>, t: Tree, lo: int, hi: int)
    requires Present(m, r) && Rewrites(m, m', r, v, ks)
    requires Matches(m, t) && Ordered(t, lo, hi)
    requires forall k :: k in ks ==> Outside(k, lo, hi)
    requires r.ChildRef? ==> Outside(r.key, lo, hi)
    ensures Matches(m', t)
  {
    MatchesFrame(m, m', t, lo, hi);
  }

  lemma RefocusRewrite(m: Memory, m': Memory, c: Ctx, hole: nat, v: nat, ks: set<nat>)
    requires MatchesCtx(m, c, hole) && OrderedCtx(c)
    requires Rewrites(m, m', HoleRef(c), v, ks)
    requires forall k :: k in ks ==> Lo(c) < k < Hi(c)
    ensures MatchesCtx(m', c, v)
  {
    Refocus(m, m', c, hole, v);
  }

  lemma RewriteTouches(m: Memory, m': Memory, c: Ctx, hole: nat, v: nat, ks: set<nat>)
    requires MatchesCtx(m, c, hole)
    requires Rewrites(m, m', HoleRef(c), v, ks)
    ensures OnlyTouches(m, m', CtxKeys(c) + ks)
  {}

  /** A tree whose keys are not touched stays where it is. */
  lemma {:induction false} UntouchedMatches(m: Memory, m': Memory, touched: set<nat>, t: Tree)
    requires Matches(m, t) && OnlyTouches(m, m', touched) && Keys(t) !! touched
    ensures Matches(m', t)
  {
    if t.Node? {
      UntouchedMatches(m, m', touched, t.left);
      UntouchedMatches(m, m', touched, t.right);
    }
  }

  /** Only the parts that make up the tree matter. */
  lemma {:induction false} SameTreeMatches(m: Memory, m': Memory, t: Tree)
    requires Matches(m, t)
    requires forall k :: k in m.nodes ==>
      && k in m'.nodes && m'.nodes[k].left == m.nodes[k].left
      && m'.nodes[k].right == m.nodes[k].right && m'.nodes[k].red == m.nodes[k].red
    ensures Matches(m', t)
  {
    if t.Node? {
      SameTreeMatches(m, m', t.left);
      SameTreeMatches(m, m', t.right);
    }
  }

  lemma {:induction false} KeysPresent(m: Memory, t: Tree)
    requires Matches(m, t)
    ensures Keys(t) <= m.nodes.Keys
  {
    if t.Node? {
      KeysPresent(m, t.left);
      KeysPresent(m, t.right);
    }
  }

  lemma TouchesMore(m: Memory, m': Memory, less: set<nat>, more: set<nat>)
    requires OnlyTouches(m, m', less) && less <= more
    ensures OnlyTouches(m, m', more)
  {}

  lemma TouchesNothing(m: Memory, touched: set<nat>)
    ensures OnlyTouches(m, m, touched)
  {}

  lemma TouchesBoth(m: Memory, m': Memory, m'': Memory, touched: set<nat>)
    requires OnlyTouches(m, m', touched) && OnlyTouches(m', m'', touched)
    ensures OnlyTouches(m, m'', touched)
  {}

  lemma TouchesChain(m: Memory, m': Memory, m'': Memory, a: set<nat>, b: set<nat>, all: set<nat>)
    requires OnlyTouches(m, m', a) && OnlyTouches(m', m'', b) && a <= all && b <= all
    ensures OnlyTouches(m, m'', all)
  {}

  /** One frame of a context, taken apart. */
  lemma FrameFacts(m: Memory, c: Ctx, hole: nat)
    requires c.Frame? && MatchesCtx(m, c, hole) && OrderedCtx(c)
    ensures NodeIs(m, c.key, c.dir, hole, RootKey(c.sib), c.red)
    ensures Matches(m, c.sib) && MatchesCtx(m, c.up, c.key) && OrderedCtx(c.up)
    ensures Lo(c.up) < c.key < Hi(c.up)
    ensures Ordered(c.sib, if c.dir then c.key else Lo(c.up), if c.dir then Hi(c.up) else c.key)
    ensures Present(m, HoleRef(c.up))
    ensures c.up.Frame? ==> Outside(c.up.key, Lo(c.up), Hi(c.up))
  {}

  /** A present node of the tree, taken apart. */
  lemma NodeFacts(m: Memory, t: Tree, dir: bool, lo: int, hi: int)
    requires t.Node? && Matches(m, t) && Ordered(t, lo, hi)
    ensures NodeIs(m, t.key, dir, RootKey(Child(dir, t)), RootKey(Child(!dir, t)), t.red)
    ensures Matches(m, Child(dir, t)) && Matches(m, Child(!dir, t))
    ensures lo < t.key < hi
    ensures Ordered(Child(dir, t), if dir then lo else t.key, if dir then t.key else hi)
    ensures Ordered(Child(!dir, t), if dir then t.key else lo, if dir then hi else t.key)
  {}

  lemma RootKeyZero(t: Tree, lo: nat, hi: int)
    requires Ordered(t, lo, hi)
    ensures RootKey(t) == 0 <==> t.Leaf?
  {}

  // ----- the path of a descent

  /** One entry of the path array: where the key is held and the side taken to get there. */
  datatype Step = Step(ref: Ref, dir: bool)

  function PathOf(c: Ctx): seq<Step> {
    match c
    case Top => [Step(RootRef, false)]
    case Frame(dir, key, _, _, up) => PathOf(up) + [Step(ChildRef(dir, key), dir)]
  }

  lemma {:induction false} PathLength(c: Ctx)
    ensures |PathOf(c)| == Depth(c) + 1
    ensures PathOf(c)[Depth(c)].ref == HoleRef(c)
    ensures c.Frame? ==> PathOf(c)[Depth(c)].dir == c.dir
    ensures PathOf(c)[0] == Step(RootRef, false)
  {
    if c.Frame? { PathLength(c.up); }
  }

  /** Each step of the path is the child word, on the step's side, of the key held one step before. */
  lemma {:induction false} PathWalk(m: Memory, c: Ctx, hole: nat, i: nat)
    requires MatchesCtx(m, c, hole) && 1 <= i < |PathOf(c)|
    ensures Present(m, PathOf(c)[i - 1].ref)
    ensures PathOf(c)[i].ref == ChildRef(PathOf(c)[i].dir, Held(m, PathOf(c)[i - 1].ref))
  {
    PathLength(c);
    PathLength(c.up);
    if i < Depth(c) { PathWalk(m, c.up, c.key, i); }
  }

  function Held(m: Memory, r: Ref): nat
    requires Present(m, r)
  {
    match r
    case RootRef => m.root
    case ChildRef(dir, k) => ChildWord(m.nodes[k], dir)
  }
}
