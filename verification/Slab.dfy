/** Building the free list of a new slab: the objects are linked into a random
    cycle, which is then walked once around. */
module Slab {
  import opened Bits
  import opened Lists

  // ----- random choices

  /** `LocalEntropy`, with the generator itself left open: `GetNext` may return any word. */
  class LocalEntropy {
    var freshBits: nat
    var count: nat

    predicate Valid()
      reads this
    {
      count <= BITS && freshBits < Pow2(count)
    }

    constructor ()
      ensures Valid()
    {
      freshBits, count := 0, 0;
    }

    method GetNext() returns (w: nat)
      ensures w < Pow2(BITS)
    {
      w :| 0 <= w < Pow2(BITS);
    }

    /** `word` is the word the bits come from: what was left, or a new one when
        not more than `n` bits were.  Its low bits go out, cut to 16, the rest stays. */
    method NextFreshBits(n: nat) returns (r: nat, ghost word: nat)
      requires Valid() && n < BITS
      modifies this
      ensures Valid() && word == freshBits * Pow2(n) + Low(word, n) && r == Low(word, n) % 0x1_0000
      ensures n <= 16 ==> r == Low(word, n) < Pow2(n)
      ensures if old(count) > n then count == old(count) - n && word == old(freshBits)
              else count == BITS - n && word < Pow2(BITS)
    {
      hide Pow2, Shr, Low;
      if count <= n {
        freshBits := GetNext();
        count := BITS;
      }
      word := freshBits;
      r := Low(freshBits, n) % 0x1_0000;
      ShiftedWithin(freshBits, n, count);
      ShrLow(freshBits, n);
      CutToWord(word, n);
      freshBits := Shr(freshBits, n);
      count := count - n;
    }

    static lemma CutToWord(word: nat, n: nat)
      ensures n <= 16 ==> Low(word, n) < Pow2(n) <= 0x1_0000
    {
      Pow2Of16();
      if n <= 16 { Pow2Monotone(n, 16); }
    }

    /** `sample`: draws past the end are folded back onto the top of the range. */
    method Sample(n: nat) returns (r: nat, ghost bits: nat)
      requires Valid() && 1 <= n < Pow2(16)
      modifies this
      ensures Valid() && r < n && bits < Pow2(NextPow2Bits(n)) && bits < 2 * n && r == Folded(n, bits)
      ensures old(count) > NextPow2Bits(n) ==> bits == Low(old(freshBits), NextPow2Bits(n))
    {
      var i := NextPow2Bits(n);
      SampleBits(n);
      var drawn, _ := NextFreshBits(i);
      bits := drawn;
      r := drawn;
      if drawn >= n { r := n - (1 + drawn - n); }
    }
  }

  lemma ShiftedWithin(x: nat, n: nat, m: nat)
    requires n <= m && x < Pow2(m)
    ensures Shr(x, n) < Pow2(m - n)
  {
    hide Pow2, Shr, Low;
    Pow2Sum(m - n, n);
    ShrLow(x, n);
    if Shr(x, n) >= Pow2(m - n) { MulMonotone(Pow2(m - n), Shr(x, n), Pow2(n)); }
  }

  /** The draw covers the range and at most doubles it. */
  /** The number below `n` that a draw stands for: itself, or counted back from the end. */
  function Folded(n: nat, bits: nat): nat
    requires bits < 2 * n
  {
    if bits < n then bits else 2 * n - 1 - bits
  }

  /** Every number below `n` is drawn: once if its mirror lies beyond the draws, else
      twice, which favours the high numbers. */
  lemma DrawsOf(n: nat, bits: nat, r: nat)
    requires 1 <= n < Pow2(16) && r < n && bits < Pow2(NextPow2Bits(n))
    ensures bits < 2 * n && r < Pow2(NextPow2Bits(n))
    ensures Folded(n, bits) == r <==> bits == r || bits + r + 1 == 2 * n
  {
    hide Pow2, NextPow2Bits;
    SampleBits(n);
  }

  lemma SampleBits(n: nat)
    requires 1 <= n < Pow2(16)
    ensures n <= Pow2(NextPow2Bits(n)) <= 2 * n - 1 && NextPow2Bits(n) <= 16
  {
    var i := NextPow2Bits(n);
    NextPow2Least(n, i);
    NextPow2Least(n, 16);
    if i > 0 {
      NextPow2Least(n, i - 1);
      Pow2Next(i - 1);
    }
  }

  // ----- cyclic orders

  /** A cyclic order of the objects 0 to n - 1, written out from object 0. */
  ghost predicate Cyclic(s: seq<nat>) {
    && |s| > 0 && s[0] == 0
    && (forall p :: 0 <= p < |s| ==> s[p] < |s|)
    && (forall p, q :: 0 <= p < q < |s| ==> s[p] != s[q])
    && (forall i :: 0 <= i < |s| ==> i in s)
  }

  function InsertAt(s: seq<nat>, p: nat, x: nat): seq<nat>
    requires p < |s|
  {
    s[..p + 1] + [x] + s[p + 1..]
  }

  lemma InsertKeepsCyclic(s: seq<nat>, p: nat)
    requires Cyclic(s) && p < |s|
    ensures Cyclic(InsertAt(s, p, |s|))
  {
    var t := InsertAt(s, p, |s|);
    forall i | 0 <= i < |t| ensures i in t {
      if i < |s| {
        var q := IndexOf(s, i);
        assert t[if q <= p then q else q + 1] == i;
      } else {
        assert t[p + 1] == i;
      }
    }
  }

  ghost predicate ValidSamples(samples: seq<nat>) {
    forall i :: 0 <= i < |samples| ==> samples[i] <= i
  }

  /** The cycle after inserting each new object behind the object drawn. */
  ghost function Shuffle(samples: seq<nat>): (s: seq<nat>)
    requires ValidSamples(samples)
    ensures Cyclic(s) && |s| == |samples| + 1
    decreases |samples|
  {
    if samples == [] then [0]
    else
      var n := |samples| - 1;
      var s := Shuffle(samples[..n]);
      InsertKeepsCyclic(s, IndexOf(s, samples[n]));
      InsertAt(s, IndexOf(s, samples[n]), n + 1)
  }

  lemma ShuffleMore(samples: seq<nat>, j: nat)
    requires ValidSamples(samples) && j <= |samples|
    ensures ValidSamples(samples + [j])
    ensures var s := Shuffle(samples); Shuffle(samples + [j]) == InsertAt(s, IndexOf(s, j), |s|)
  {
    assert (samples + [j])[..|samples|] == samples;
  }

  /** The cycle without its last object, and the object that stood before it. */
  function WithoutLast(s: seq<nat>, p: nat): seq<nat>
    requires 1 <= p < |s|
  {
    s[..p] + s[p + 1..]
  }

  lemma RemoveKeepsCyclic(s: seq<nat>)
    requires Cyclic(s) && |s| > 1
    ensures var p := IndexOf(s, |s| - 1);
      && p >= 1 && Cyclic(WithoutLast(s, p)) && s[p - 1] < |s| - 1
      && s == InsertAt(WithoutLast(s, p), p - 1, |s| - 1)
  {
    hide IndexOf, WithoutLast, InsertAt;
    LastIn(s);
    var p := IndexOf(s, |s| - 1);
    RemovedFrom(s, p);
    RemovedCyclic(s, WithoutLast(s, p), p);
  }

  lemma RemovedCyclic(s: seq<nat>, t: seq<nat>, p: nat)
    requires Cyclic(s) && 1 <= p < |s| && s[p] == |s| - 1 && |t| == |s| - 1
    requires forall q :: 0 <= q < |t| ==> t[q] == s[if q < p then q else q + 1]
    ensures Cyclic(t)
  {
    hide IndexOf;
    forall q | 0 <= q < |t| ensures t[q] < |t| {
      var r := if q < p then q else q + 1;
      assert s[r] != s[p];
    }
    forall q, r | 0 <= q < r < |t| ensures t[q] != t[r] {
      assert s[if q < p then q else q + 1] != s[if r < p then r else r + 1];
    }
    forall i | 0 <= i < |t| ensures i in t {
      var q := IndexOf(s, i);
      assert t[if q < p then q else q - 1] == i;
    }
  }

  lemma RemovedFrom(s: seq<nat>, p: nat)
    requires 1 <= p < |s|
    ensures var t := WithoutLast(s, p);
      && |t| == |s| - 1 && s == InsertAt(t, p - 1, s[p])
      && forall q :: 0 <= q < |t| ==> t[q] == s[if q < p then q else q + 1]
  {}

  /** The draws that lead to a given cycle. */
  ghost function SamplesOf(s: seq<nat>): (samples: seq<nat>)
    requires Cyclic(s)
    ensures ValidSamples(samples) && |samples| == |s| - 1
    decreases |s|
  {
    if |s| == 1 then []
    else
      var p := IndexOf(s, |s| - 1);
      RemoveKeepsCyclic(s);
      SamplesOf(WithoutLast(s, p)) + [s[p - 1]]
  }

  lemma SamplesOfStep(s: seq<nat>)
    requires Cyclic(s) && |s| > 1
    ensures var p := IndexOf(s, |s| - 1);
      && p >= 1 && Cyclic(WithoutLast(s, p)) && s[p - 1] < |s| - 1
      && s == InsertAt(WithoutLast(s, p), p - 1, |s| - 1)
      && SamplesOf(s) == SamplesOf(WithoutLast(s, p)) + [s[p - 1]]
  {
    hide Cyclic, IndexOf;
    LastIn(s);
    RemoveKeepsCyclic(s);
  }

  /** Taking out undoes putting in. */
  lemma InsertThenRemove(t: seq<nat>, p: nat, x: nat)
    requires p < |t|
    ensures var s := InsertAt(t, p, x);
      |s| == |t| + 1 && s[p] == t[p] && s[p + 1] == x && WithoutLast(s, p + 1) == t
  {}

  lemma RemovedAt(s: seq<nat>, p: nat)
    requires 1 <= p < |s|
    ensures |WithoutLast(s, p)| == |s| - 1 && WithoutLast(s, p)[p - 1] == s[p - 1]
  {}

  lemma LastIn(s: seq<nat>)
    requires Cyclic(s)
    ensures |s| > 0 && |s| - 1 in s
  {}

  lemma ReachesOne(s: seq<nat>)
    requires Cyclic(s) && |s| == 1
    ensures Shuffle(SamplesOf(s)) == s
  {}

  /** Every cyclic order can come out. */
  lemma {:induction false} ShuffleReaches(s: seq<nat>)
    requires Cyclic(s)
    ensures Shuffle(SamplesOf(s)) == s
    decreases |s|
  {
    hide Cyclic, IndexOf, Shuffle, SamplesOf, ValidSamples, WithoutLast, InsertAt;
    LastIn(s);
    if |s| == 1 {
      ReachesOne(s);
    } else {
      SamplesOfStep(s);
      var p := IndexOf(s, |s| - 1);
      var t := WithoutLast(s, p);
      RemovedAt(s, p);
      ShuffleReaches(t);
      ShuffleMore(SamplesOf(t), s[p - 1]);
      OneIndex(t, p - 1);
    }
  }

  lemma OneIndex(s: seq<nat>, p: nat)
    requires Cyclic(s) && p < |s|
    ensures IndexOf(s, s[p]) == p
  {}

  /** Each cyclic order comes out for one sequence of draws only. */
  lemma {:induction false} ShuffleInjective(samples: seq<nat>)
    requires ValidSamples(samples)
    ensures SamplesOf(Shuffle(samples)) == samples
    decreases |samples|
  {
    hide Cyclic, IndexOf, Shuffle, SamplesOf, WithoutLast, InsertAt;
    if samples == [] {
      NoDraws();
    } else {
      var n := |samples| - 1;
      var init, last := samples[..n], samples[n];
      assert samples == init + [last];
      assert ValidSamples(init) && last <= n;
      hide ValidSamples;
      ShuffleInjective(init);
      ShuffleMore(init, last);
      var t := Shuffle(init);
      InCycle(t, last);
      var p := IndexOf(t, last);
      var s := InsertAt(t, p, n + 1);
      InsertThenRemove(t, p, n + 1);
      LastIn(s);
      SamplesOfStep(s);
      OneIndex(s, p + 1);
    }
  }

  lemma NoDraws()
    ensures SamplesOf(Shuffle([])) == []
  {}

  lemma InCycle(s: seq<nat>, i: nat)
    requires Cyclic(s) && i < |s|
    ensures i in s
  {}

  // ----- the slab

  /** Objects of `rsize` bytes in a slab of `size` bytes. */
  datatype Geometry = Geometry(base: nat, rsize: nat, size: nat)

  ghost predicate Holds(g: Geometry) { 0 < g.rsize <= g.size }

  function At(g: Geometry, i: nat): nat {
    MulSign(i, g.rsize);
    g.base + i * g.rsize
  }

  function Objects(g: Geometry): nat
    requires g.rsize > 0
  {
    MulSign(g.size / g.rsize, g.rsize);
    g.size / g.rsize
  }

  function SlabEnd(g: Geometry): nat
    requires 0 < g.rsize <= g.size
  {
    g.base + g.size + 1 - g.rsize
  }

  /** The loop bound admits exactly the objects that fit. */
  lemma InSlab(g: Geometry, i: nat)
    requires Holds(g)
    ensures At(g, i) < SlabEnd(g) <==> i < Objects(g)
    ensures Objects(g) >= 1
  {
    var n := Objects(g);
    assert g.size == n * g.rsize + g.size % g.rsize;
    if n < 1 { MulSign(-n, g.rsize); }
    assert (i + 1) * g.rsize == i * g.rsize + g.rsize;
    assert (n + 1) * g.rsize == n * g.rsize + g.rsize;
    if i < n { MulMonotone(i + 1, n, g.rsize); } else { MulMonotone(n + 1, i + 1, g.rsize); }
  }

  lemma AtInjective(g: Geometry)
    requires Holds(g)
    ensures forall i: nat, j: nat :: At(g, i) == At(g, j) ==> i == j
  {
    forall i: nat, j: nat ensures At(g, i) == At(g, j) ==> i == j {
      MulSign(i - j, g.rsize);
      assert (i - j) * g.rsize == i * g.rsize - j * g.rsize;
    }
  }

  lemma AtStep(g: Geometry, i: nat)
    ensures At(g, i + 1) == At(g, i) + g.rsize
  {}

  function Next(s: seq<nat>, p: nat): nat
    requires p < |s|
  {
    if p + 1 < |s| then s[p + 1] else s[0]
  }

  /** The `next` word of each object of the cycle leads to its successor. */
  ghost predicate Linked(g: Geometry, mem: map<nat, nat>, s: seq<nat>) {
    forall p :: 0 <= p < |s| ==> At(g, s[p]) in mem && mem[At(g, s[p])] == At(g, Next(s, p))
  }

  lemma InsertNext(s: seq<nat>, p: nat, x: nat, q: nat)
    requires p < |s| && q <= |s|
    ensures var t := InsertAt(s, p, x);
      && |t| == |s| + 1
      && (q < p ==> t[q] == s[q] && Next(t, q) == Next(s, q))
      && (q == p ==> t[q] == s[p] && Next(t, q) == x)
      && (q == p + 1 ==> t[q] == x && Next(t, q) == Next(s, p))
      && (q > p + 1 ==> t[q] == s[q - 1] && Next(t, q) == Next(s, q - 1))
  {}

  lemma AtDiffer(g: Geometry, i: nat, j: nat)
    requires Holds(g) && i != j
    ensures At(g, i) != At(g, j)
  {
    AtInjective(g);
  }

  lemma LinkIn(g: Geometry, mem: map<nat, nat>, s: seq<nat>, p: nat)
    requires Holds(g) && Cyclic(s) && Linked(g, mem, s) && p < |s|
    ensures At(g, s[p]) in mem
    ensures Linked(g, mem[At(g, |s|) := mem[At(g, s[p])]][At(g, s[p]) := At(g, |s|)], InsertAt(s, p, |s|))
  {
    var n, t := |s|, InsertAt(s, p, |s|);
    var mem' := mem[At(g, n) := mem[At(g, s[p])]][At(g, s[p]) := At(g, n)];
    forall q | 0 <= q < |t| ensures At(g, t[q]) in mem' && mem'[At(g, t[q])] == At(g, Next(t, q)) {
      hide At, InsertAt, Next;
      InsertNext(s, p, n, q);
      AtDiffer(g, s[p], n);
      var o := if q < p then q else if q > p + 1 then q - 1 else p;
      if o != p {
        AtDiffer(g, s[o], s[p]);
        AtDiffer(g, s[o], n);
      }
    }
  }

  function Rotated(s: seq<nat>, k: nat): seq<nat>
    requires k < |s|
  {
    s[k..] + s[..k]
  }

  lemma RotatedNext(s: seq<nat>, k: nat, q: nat) returns (p: nat)
    requires k < |s| && q < |s|
    ensures p < |s| && |Rotated(s, k)| == |s| && Rotated(s, k)[q] == s[p] && Next(Rotated(s, k), q) == Next(s, p)
  {
    p := if q < |s| - k then k + q else q - (|s| - k);
  }

  lemma RotatedLinked(g: Geometry, mem: map<nat, nat>, s: seq<nat>, k: nat)
    requires Linked(g, mem, s) && k < |s| && Distinct(s)
    ensures Linked(g, mem, Rotated(s, k)) && Distinct(Rotated(s, k)) && Rotated(s, k)[0] == s[k]
  {
    var r := Rotated(s, k);
    forall q | 0 <= q < |r| ensures At(g, r[q]) in mem && mem[At(g, r[q])] == At(g, Next(r, q)) {
      hide At, Rotated, Next, Distinct;
      var p := RotatedNext(s, k, q);
    }
  }

  /** The links of the objects not yet taken. */
  ghost predicate LinkedFrom(g: Geometry, mem: map<nat, nat>, r: seq<nat>, n: nat) {
    forall p :: n <= p < |r| ==> At(g, r[p]) in mem && mem[At(g, r[p])] == At(g, Next(r, p))
  }

  /** The first `n` objects hold what the free list writes into them. */
  ghost predicate Overwritten(g: Geometry, mem: map<nat, nat>, r: seq<nat>, n: nat, word: nat -> nat) {
    forall p :: 0 <= p < n && p < |r| ==> At(g, r[p]) in mem && mem[At(g, r[p])] == word(At(g, r[p]))
  }

  lemma Unvisited(g: Geometry, mem: map<nat, nat>, r: seq<nat>, word: nat -> nat)
    requires Linked(g, mem, r)
    ensures LinkedFrom(g, mem, r, 0) && Overwritten(g, mem, r, 0, word)
  {}

  /** The link of the current object leads on, and back to the first only from the last. */
  lemma Visit(g: Geometry, mem: map<nat, nat>, r: seq<nat>, n: nat)
    requires Holds(g) && Distinct(r) && n < |r| && LinkedFrom(g, mem, r, n)
    ensures At(g, r[n]) in mem
    ensures if n + 1 < |r| then mem[At(g, r[n])] == At(g, r[n + 1]) != At(g, r[0]) else mem[At(g, r[n])] == At(g, r[0])
  {
    hide At;
    if n + 1 < |r| { AtDiffer(g, r[n + 1], r[0]); }
  }

  lemma Overwrite(g: Geometry, mem: map<nat, nat>, r: seq<nat>, n: nat, word: nat -> nat)
    requires Holds(g) && Distinct(r) && n < |r| && LinkedFrom(g, mem, r, n) && Overwritten(g, mem, r, n, word)
    ensures LinkedFrom(g, mem[At(g, r[n]) := word(At(g, r[n]))], r, n + 1)
    ensures Overwritten(g, mem[At(g, r[n]) := word(At(g, r[n]))], r, n + 1, word)
  {
    hide At, Next;
    forall p | 0 <= p < |r| && p != n ensures At(g, r[p]) != At(g, r[n]) { AtDiffer(g, r[p], r[n]); }
  }

  class NewSlab {
    const g: Geometry
    /** The words of the slab that have been written, by address. */
    var mem: map<nat, nat>

    constructor (g: Geometry)
      ensures this.g == g
    {
      this.g := g;
      mem := map[];
    }

    /** Link the objects into a cycle, each new one behind one drawn at random. */
    method LinkCycle(entropy: LocalEntropy) returns (count: nat, ghost samples: seq<nat>)
      requires Holds(g) && Objects(g) < Pow2(16) && entropy.Valid()
      modifies this`mem, entropy
      ensures entropy.Valid() && count == Objects(g)
      ensures |samples| == count - 1 && ValidSamples(samples) && Linked(g, mem, Shuffle(samples))
    {
      hide Shuffle, Linked, ValidSamples, At, SlabEnd, Objects, Pow2, Cyclic, IndexOf, InsertAt, LocalEntropy.Valid;
      InSlab(g, 0);
      samples := [];
      var curr := g.base;
      mem := mem[curr := curr];
      count := 1;
      curr := curr + g.rsize;
      FirstLink(g, mem);
      AtZero(g);
      AtStep(g, 0);
      InSlab(g, 1);
      while curr < SlabEnd(g)
        invariant entropy.Valid() && 1 <= count <= Objects(g) && curr == At(g, count)
        invariant |samples| == count - 1 && ValidSamples(samples) && Linked(g, mem, Shuffle(samples))
        decreases Objects(g) - count
      {
        InSlab(g, count);
        var insertIndex, _ := entropy.Sample(count);
        ghost var s := Shuffle(samples);
        InCycle(s, insertIndex);
        ghost var p := IndexOf(s, insertIndex);
        LinkIn(g, mem, s, p);
        ShuffleMore(samples, insertIndex);
        var at := At(g, insertIndex);
        mem := mem[curr := mem[at]][at := curr];
        samples := samples + [insertIndex];
        count := count + 1;
        AtStep(g, count - 1);
        curr := curr + g.rsize;
        InSlab(g, count);
      }
      InSlab(g, count);
    }

    /** Walk once around the cycle; each object's memory is overwritten once it is in the list. */
    method Traverse(start: nat, ghost r: seq<nat>, word: nat -> nat) returns (added: seq<nat>)
      requires Holds(g) && |r| > 0 && Distinct(r) && Linked(g, mem, r) && start == At(g, r[0])
      modifies this`mem
      ensures |added| == |r| && forall i :: 0 <= i < |r| ==> added[i] == At(g, r[i])
      ensures Overwritten(g, mem, r, |r|, word)
    {
      hide At, Linked, Next, Distinct, Overwritten;
      added := [];
      var curr := start;
      Unvisited(g, mem, r, word);
      while true
        invariant |added| < |r| && curr == At(g, r[|added|])
        invariant forall i :: 0 <= i < |added| ==> added[i] == At(g, r[i])
        invariant LinkedFrom(g, mem, r, |added|) && Overwritten(g, mem, r, |added|, word)
        decreases |r| - |added|
      {
        ghost var n := |added|;
        Visit(g, mem, r, n);
        var next := mem[curr];
        Overwrite(g, mem, r, n, word);
        mem := mem[curr := word(curr)];
        added := added + [curr];
        curr := next;
        if curr == start { break; }
      }
    }

    /** The shuffled branch of `alloc_new_list`: the list is one turn around a
        cycle through all objects that fit. */
    method AllocShuffled(entropy: LocalEntropy, word: nat -> nat) returns (added: seq<nat>, ghost samples: seq<nat>, ghost k: nat)
      requires Holds(g) && Objects(g) < Pow2(16) && entropy.Valid()
      modifies this`mem, entropy
      ensures |added| == Objects(g) == |samples| + 1 && ValidSamples(samples) && k < |added|
      ensures var r := Rotated(Shuffle(samples), k); forall i :: 0 <= i < |added| ==> added[i] == At(g, r[i])
      ensures forall i :: 0 <= i < Objects(g) ==> At(g, i) in added
      ensures forall i, j :: 0 <= i < j < |added| ==> added[i] != added[j]
      ensures forall x :: x in added ==> x in mem && mem[x] == word(x)
    {
      hide At, Shuffle, Linked, ValidSamples, Pow2, Cyclic;
      var count;
      count, samples := LinkCycle(entropy);
      InSlab(g, 0);
      var startIndex, _ := entropy.Sample(count);
      ghost var s := Shuffle(samples);
      InCycle(s, startIndex);
      ghost var p := IndexOf(s, startIndex);
      LinkAt(g, mem, s, p);
      var start := mem[At(g, startIndex)];
      k := if p + 1 < |s| then p + 1 else 0;
      CyclicDistinct(s);
      RotatedLinked(g, mem, s, k);
      added := Traverse(start, Rotated(s, k), word);
      EachOnce(g, s, k, added);
      EachWritten(g, mem, Rotated(s, k), added, word);
    }

    /** The sequential branch. */
    method AllocSequential() returns (added: seq<nat>)
      requires Holds(g)
      ensures |added| == Objects(g) && forall i :: 0 <= i < |added| ==> added[i] == At(g, i)
    {
      InSlab(g, 0);
      var p := g.base;
      added := [];
      hide At, SlabEnd, Objects;
      assert p == At(g, 0) by { AtZero(g); }
      while true
        invariant |added| < Objects(g) && p == At(g, |added|)
        invariant forall i :: 0 <= i < |added| ==> added[i] == At(g, i)
        decreases Objects(g) - |added|
      {
        added := added + [p];
        AtStep(g, |added| - 1);
        InSlab(g, |added|);
        p := p + g.rsize;
        if p >= SlabEnd(g) { break; }
      }
    }
  }

  lemma AtZero(g: Geometry)
    ensures At(g, 0) == g.base
  {}

  lemma FirstLink(g: Geometry, mem: map<nat, nat>)
    requires g.base in mem && mem[g.base] == g.base
    ensures ValidSamples([]) && Linked(g, mem, Shuffle([]))
  {
    assert Shuffle([]) == [0];
    AtZero(g);
  }

  lemma LinkAt(g: Geometry, mem: map<nat, nat>, s: seq<nat>, p: nat)
    requires Linked(g, mem, s) && p < |s|
    ensures At(g, s[p]) in mem && mem[At(g, s[p])] == At(g, Next(s, p))
  {}

  lemma CyclicDistinct(s: seq<nat>)
    requires Cyclic(s)
    ensures Distinct(s)
  {}

  lemma EachWritten(g: Geometry, mem: map<nat, nat>, r: seq<nat>, added: seq<nat>, word: nat -> nat)
    requires |added| == |r| && Overwritten(g, mem, r, |r|, word) && forall i :: 0 <= i < |r| ==> added[i] == At(g, r[i])
    ensures forall x :: x in added ==> x in mem && mem[x] == word(x)
  {}

  lemma EachOnce(g: Geometry, s: seq<nat>, k: nat, added: seq<nat>)
    requires Holds(g) && Cyclic(s) && k < |s| && |added| == |s|
    requires forall i :: 0 <= i < |s| ==> added[i] == At(g, Rotated(s, k)[i])
    ensures forall i :: 0 <= i < |s| ==> At(g, i) in added
    ensures forall i, j :: 0 <= i < j < |added| ==> added[i] != added[j]
  {
    AtInjective(g);
    hide At;
    var r := Rotated(s, k);
    forall i | 0 <= i < |s| ensures At(g, i) in added {
      var p := IndexOf(s, i);
      var q := if p >= k then p - k else |s| - k + p;
      assert r[q] == i && added[q] == At(g, i);
    }
    forall i, j | 0 <= i < j < |added| ensures added[i] != added[j] {
      assert r[i] != r[j];
    }
  }
}
