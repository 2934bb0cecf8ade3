/** Red-black trees as values: the shape, order and colour rules that
    `RBTree::invariant` checks, and the tree seen from one point on a path.

    Keys are the 64-bit addresses stored by the allocator; 0 is the null key.
    Direction `true` is the left (smaller) side, as in `Rep::ref`. */
module RBSpec {
  import opened Bits

  const LIMIT: nat := 0x1_0000_0000_0000_0000

  datatype Tree = Leaf | Node(left: Tree, key: nat, red: bool, right: Tree)

  /** What surrounds a subtree: the chain of ancestors, nearest first, each with
      the side the path took and the subtree on the other side. */
  datatype Ctx = Top | Frame(dir: bool, key: nat, red: bool, sib: Tree, up: Ctx)

  function Join(dir: bool, key: nat, red: bool, same: Tree, other: Tree): Tree {
    if dir then Node(same, key, red, other) else Node(other, key, red, same)
  }

  function Child(dir: bool, t: Tree): Tree
    requires t.Node?
  {
    if dir then t.left else t.right
  }

  function Plug(c: Ctx, t: Tree): Tree
    decreases c
  {
    match c
    case Top => t
    case Frame(dir, key, red, sib, up) => Plug(up, Join(dir, key, red, t, sib))
  }

  function Descend(c: Ctx, t: Tree, dir: bool): Ctx
    requires t.Node?
  {
    Frame(dir, t.key, t.red, Child(!dir, t), c)
  }

  function Depth(c: Ctx): nat {
    if c.Top? then 0 else 1 + Depth(c.up)
  }

  predicate IsRed(t: Tree) {
    t.Node? && t.red
  }

  predicate TopRed(c: Ctx) {
    c.Frame? && c.red
  }

  function Blacken(t: Tree): Tree {
    if t.Leaf? then Leaf else t.(red := false)
  }

  // ----- contents and order

  function Keys(t: Tree): set<nat> {
    match t
    case Leaf => {}
    case Node(l, k, _, r) => Keys(l) + {k} + Keys(r)
  }

  function CtxKeys(c: Ctx): set<nat> {
    match c
    case Top => {}
    case Frame(_, k, _, sib, up) => CtxKeys(up) + {k} + Keys(sib)
  }

  /** Search order, with every key strictly between `lo` and `hi`. */
  predicate Ordered(t: Tree, lo: int, hi: int) {
    match t
    case Leaf => true
    case Node(l, k, _, r) => lo < k < hi && Ordered(l, lo, k) && Ordered(r, k, hi)
  }

  function Lo(c: Ctx): nat {
    match c
    case Top => 0
    case Frame(dir, k, _, _, up) => if dir then Lo(up) else k
  }

  function Hi(c: Ctx): nat {
    match c
    case Top => LIMIT
    case Frame(dir, k, _, _, up) => if dir then k else Hi(up)
  }

  predicate OrderedCtx(c: Ctx) {
    match c
    case Top => true
    case Frame(dir, k, _, sib, up) =>
      && Lo(up) < k < Hi(up)
      && Ordered(sib, if dir then k else Lo(up), if dir then Hi(up) else k)
      && OrderedCtx(up)
  }

  lemma {:induction false} PlugKeys(c: Ctx, t: Tree)
    ensures Keys(Plug(c, t)) == CtxKeys(c) + Keys(t)
    decreases c
  {
    match c
    case Top =>
    case Frame(dir, key, red, sib, up) => PlugKeys(up, Join(dir, key, red, t, sib));
  }

  lemma {:induction false} PlugOrdered(c: Ctx, t: Tree)
    ensures Ordered(Plug(c, t), 0, LIMIT) <==> OrderedCtx(c) && Ordered(t, Lo(c), Hi(c))
    decreases c
  {
    match c
    case Top =>
    case Frame(dir, key, red, sib, up) => PlugOrdered(up, Join(dir, key, red, t, sib));
  }

  lemma {:induction false} KeysInRange(t: Tree, lo: int, hi: int)
    requires Ordered(t, lo, hi)
    ensures forall k :: k in Keys(t) ==> lo < k < hi
  {
    match t
    case Leaf =>
    case Node(l, k, _, r) => KeysInRange(l, lo, k); KeysInRange(r, k, hi);
  }

  lemma {:induction false} OrderedWiden(t: Tree, lo: int, hi: int, lo': int, hi': int)
    requires Ordered(t, lo, hi) && lo' <= lo && hi <= hi'
    ensures Ordered(t, lo', hi')
  {
    if t.Node? {
      OrderedWiden(t.left, lo, t.key, lo', t.key);
      OrderedWiden(t.right, t.key, hi, t.key, hi');
    }
  }

  lemma {:induction false} CtxKeysOutside(c: Ctx)
    requires OrderedCtx(c)
    ensures Lo(c) < Hi(c) || c.Frame?
    ensures forall k :: k in CtxKeys(c) ==> k <= Lo(c) || Hi(c) <= k
  {
    match c
    case Top =>
    case Frame(dir, key, _, sib, up) =>
      CtxKeysOutside(up);
      KeysInRange(sib, if dir then key else Lo(up), if dir then Hi(up) else key);
  }

  lemma EmptyKeys(t: Tree)
    ensures t.Leaf? <==> Keys(t) == {}
  {}

  lemma KeyPresent(t: Tree)
    requires t.Node?
    ensures t.key in Keys(t)
  {}

  /** A key that fits in an empty hole is nowhere in the tree. */
  lemma AbsentKey(c: Ctx, t: Tree, k: nat)
    requires OrderedCtx(c) && t.Leaf? && Lo(c) < k < Hi(c)
    ensures k !in CtxKeys(c) + Keys(t)
  {
    CtxKeysOutside(c);
  }

  lemma WholeTree(t: Tree)
    ensures Plug(Top, t) == t && Lo(Top) == 0
  {}

  lemma LeastKey(c: Ctx, t: Tree)
    requires OrderedCtx(c) && Ordered(t, Lo(c), Hi(c)) && t.Node? && t.left.Leaf? && Lo(c) == 0
    ensures t.key in Keys(t) && t.key > 0
    ensures forall k :: k in CtxKeys(c) + Keys(t) ==> t.key <= k
  {
    CtxKeysOutside(c);
    CtxKeysPositive(c);
    KeysInRange(t.right, t.key, Hi(c));
  }

  lemma {:induction false} CtxKeysPositive(c: Ctx)
    requires OrderedCtx(c)
    ensures 0 !in CtxKeys(c)
  {
    if c.Frame? {
      CtxKeysPositive(c.up);
      KeysInRange(c.sib, if c.dir then c.key else Lo(c.up), if c.dir then Hi(c.up) else c.key);
    }
  }

  // ----- colours and black depth

  /** No red node has a red child, and every path down has `h` black nodes,
      counting the null at its end as one. */
  predicate RB(t: Tree, h: int) {
    match t
    case Leaf => h == 1
    case Node(l, _, red, r) =>
      if red then !IsRed(l) && !IsRed(r) && RB(l, h) && RB(r, h)
      else RB(l, h - 1) && RB(r, h - 1)
  }

  function BlackDepth(t: Tree): nat {
    if t.Leaf? then 1 else BlackDepth(t.left) + if t.red then 0 else 1
  }

  predicate WellFormed(t: Tree) {
    !IsRed(t) && RB(t, BlackDepth(t))
  }

  /** The surroundings are right for a subtree of black depth `h`. */
  predicate RBCtx(c: Ctx, h: int) {
    match c
    case Top => true
    case Frame(_, _, red, sib, up) =>
      && RB(sib, h)
      && (red ==> !IsRed(sib) && up.Frame? && !up.red)
      && RBCtx(up, if red then h else h + 1)
  }

  lemma {:induction false} RBDepth(t: Tree, h: int)
    requires RB(t, h)
    ensures h == BlackDepth(t) && h >= 1
  {
    match t
    case Leaf =>
    case Node(l, _, red, _) => RBDepth(l, if red then h else h - 1);
  }

  lemma {:induction false} PlugRB(c: Ctx, t: Tree, h: int)
    requires RBCtx(c, h) && RB(t, h)
    requires IsRed(t) ==> c.Frame? && !c.red
    ensures WellFormed(Plug(c, t))
    decreases c
  {
    match c
    case Top => RBDepth(t, h);
    case Frame(dir, key, red, sib, up) =>
      PlugRB(up, Join(dir, key, red, t, sib), if red then h else h + 1);
  }

  lemma {:induction false} UnplugRB(c: Ctx, t: Tree)
    requires WellFormed(Plug(c, t))
    ensures RB(t, BlackDepth(t)) && RBCtx(c, BlackDepth(t))
    ensures IsRed(t) ==> c.Frame? && !c.red
    decreases c
  {
    match c
    case Top =>
    case Frame(dir, key, red, sib, up) =>
      var j := Join(dir, key, red, t, sib);
      UnplugRB(up, j);
      RBDepth(t, if red then BlackDepth(j) else BlackDepth(j) - 1);
  }

  // ----- height

  function Size(t: Tree): nat {
    if t.Leaf? then 0 else Size(t.left) + 1 + Size(t.right)
  }

  function Height(t: Tree): nat {
    if t.Leaf? then 0
    else 1 + if Height(t.left) >= Height(t.right) then Height(t.left) else Height(t.right)
  }

  lemma {:induction false} SizeIsKeyCount(t: Tree, lo: int, hi: int)
    requires Ordered(t, lo, hi)
    ensures Size(t) == |Keys(t)|
  {
    match t
    case Leaf =>
    case Node(l, k, _, r) =>
      SizeIsKeyCount(l, lo, k);
      SizeIsKeyCount(r, k, hi);
      KeysInRange(l, lo, k);
      KeysInRange(r, k, hi);
      assert Keys(l) !! Keys(r) && k !in Keys(l) + Keys(r);
      assert |Keys(l) + {k}| == |Keys(l)| + 1;
      assert (Keys(l) + {k}) !! Keys(r);
  }

  lemma {:induction false} BlackDepthBounds(t: Tree, h: int)
    requires RB(t, h) && h >= 1
    ensures Pow2(h - 1) <= Size(t) + 1
    ensures Height(t) <= 2 * (h - 1) + if IsRed(t) then 1 else 0
  {
    match t
    case Leaf =>
    case Node(l, _, red, r) =>
      RBDepth(l, if red then h else h - 1);
      BlackDepthBounds(l, if red then h else h - 1);
      BlackDepthBounds(r, if red then h else h - 1);
  }

  /** The height is at most twice the base-2 logarithm of the number of keys plus one. */
  lemma HeightBound(t: Tree)
    requires WellFormed(t) && Ordered(t, 0, LIMIT)
    ensures Pow2((Height(t) + 1) / 2) <= |Keys(t)| + 1
  {
    RBDepth(t, BlackDepth(t));
    BlackDepthBounds(t, BlackDepth(t));
    SizeIsKeyCount(t, 0, LIMIT);
    Pow2Monotone((Height(t) + 1) / 2, BlackDepth(t) - 1);
  }

  lemma {:induction false} CtxDepthBound(c: Ctx, t: Tree)
    ensures Depth(c) + Height(t) <= Height(Plug(c, t))
    decreases c
  {
    match c
    case Top =>
    case Frame(dir, key, red, sib, up) => CtxDepthBound(up, Join(dir, key, red, t, sib));
  }
}
